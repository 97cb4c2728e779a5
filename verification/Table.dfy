/** Lua tables: an array part and a hash part, updated in place. */
module Table {
  import opened Limits
  import opened Options
  import opened LuaVM
  import opened TableLinks
  import opened TableSizes
  import opened TableView

  const EMPTY: Node := Node(Nil, Nil, NULL)

  /** A place for a value, as luaH_get and luaH_set return it. */
  datatype Slot = ArraySlot(i: nat) | NodeSlot(n: nat) | NoSlot

  datatype Outcome = Ok(slot: Slot) | NilIndex | Overflow

  /** What luaH_next finds: an entry, the end, or that its key is no key. */
  datatype Entry = Entry(key: Value, val: Value) | End | Invalid

  /** The key is in the table, with or without a value. */
  ghost predicate HasSlot(arr: seq<Value>, t: seq<Node>, k: Value) { k != Nil && (InRange(k, |arr|) || HasNode(t, k)) }

  /** `k` has been inserted at `p`, without a value; `t` used to be the node
      vector, and `n` is the node that got a key, or NULL. */
  ghost predicate Inserted(t: seq<Node>, u: seq<Node>, k: Value, p: nat, n: int) {
    && |u| == |t| && p < |u| && u[p].key == k && u[p].val == Nil
    && SameBindings(t, u) && NodeKeys(u) <= NodeKeys(t) + {k}
    && forall i :: 0 <= i < |u| && (i == n || t[i].key != Nil) ==> u[i].key != Nil
  }

  class Table {
    const position: Position
    var arr: seq<Value>
    var node: seq<Node>
    var dummy: bool
    var lastfree: int
    ghost var rank: seq<nat>

    /** Everything but the free pointer. */
    ghost predicate Sound()
      reads this
    {
      && NodesOK(node, rank, position) && Apart(arr, node) && |arr| <= MAXASIZE
      && (dummy ==> node == [EMPTY])
    }

    /** All nodes from `lastfree` on have keys. */
    ghost predicate FreeBelow()
      reads this
    {
      0 <= lastfree <= |node| && if dummy then lastfree == 0 else forall i :: lastfree <= i < |node| ==> node[i].key != Nil
    }

    ghost predicate Valid()
      reads this
    {
      Sound() && FreeBelow()
    }

    /** The map that the table is. */
    ghost function Contents(): map<Value, Value>
      reads this
    {
      View(arr, node)
    }

    ghost predicate IsSlot(s: Slot, k: Value)
      reads this
    {
      match s
      case ArraySlot(i) => i < |arr| && k == Num(i + 1)
      case NodeSlot(n) => n < |node| && node[n].key == k != Nil
      case NoSlot => false
    }

    // -------------------------------------------------------------------
    // Searching

    /** The chain from the main position of a key: every search but the one in
        the array part ends in this loop. */
    method Find(key: Value) returns (i: int)
      requires NodesOK(node, rank, position) && key != Nil
      ensures i == NULL ==> !HasNode(node, key)
      ensures i != NULL ==> 0 <= i < |node| && node[i].key == key
    {
      i := position(key, |node|);
      while i != NULL && node[i].key != key
        invariant i == NULL || 0 <= i < |node|
        invariant forall j :: 0 <= j < |node| && node[j].key == key ==> i != NULL && Reach(node, rank, i, j)
        decreases if i == NULL then 0 else rank[i] + 1
      {
        i := node[i].next;
      }
    }

    /** luaH_get, with luaH_getnum for integers: where the value of a key is. */
    method Locate(key: Value) returns (s: Slot)
      requires Sound()
      ensures s == NoSlot <==> key == Nil || !(InRange(key, |arr|) || HasNode(node, key))
      ensures s != NoSlot ==> IsSlot(s, key)
    {
      if key == Nil { return NoSlot; }
      if key.Num? && 1 <= key.n <= |arr| { return ArraySlot(key.n - 1); }
      var i := Find(key);
      s := if i == NULL then NoSlot else NodeSlot(i);
    }

    /** luaH_get and the value there. */
    method Get(key: Value) returns (v: Value)
      requires Sound()
      ensures v == if key in Contents() then Contents()[key] else Nil
    {
      hide NodesOK, Lookup, View, Apart, HasNode, NodeValue;
      ViewLookup(arr, node, key);
      var s := Locate(key);
      LookupAt(arr, node, key, s);
      match s {
        case ArraySlot(i) => v := arr[i];
        case NodeSlot(n) => v := node[n].val;
        case NoSlot => v := Nil;
      }
    }

    // -------------------------------------------------------------------
    // Free nodes

    /** getfreepos: NULL only if every node has a key, or there are none. */
    method GetFreePos() returns (n: int)
      requires Valid()
      modifies `lastfree
      ensures n == NULL ==> dummy || forall i :: 0 <= i < |node| ==> node[i].key != Nil
      ensures n != NULL ==> !dummy && 0 <= n == lastfree < |node| && node[n].key == Nil
      ensures n != NULL ==> forall i :: n < i < |node| ==> node[i].key != Nil
    {
      while true
        invariant 0 <= lastfree <= |node| && if dummy then lastfree == 0 else forall i :: lastfree <= i < |node| ==> node[i].key != Nil
        decreases lastfree
      {
        var more := lastfree > 0;
        lastfree := lastfree - 1;
        if !more { return NULL; }
        if node[lastfree].key == Nil { return lastfree; }
      }
    }

    // -------------------------------------------------------------------
    // Inserting a key

    /** The node before `mp` on the chain from `othern`. */
    method FindPrevious(othern: nat, mp: nat) returns (prev: nat)
      requires NodesOK(node, rank, position) && othern < |node| && mp < |node| && othern != mp && Reach(node, rank, othern, mp)
      ensures prev < |node| && node[prev].next == mp && prev != mp
    {
      prev := othern;
      while node[prev].next != mp
        invariant prev < |node| && prev != mp && Reach(node, rank, prev, mp)
        decreases rank[prev]
      {
        prev := node[prev].next;
      }
    }

    /** The colliding node is not in its main position: it goes to `n`. */
    method MoveColliding(othern: nat, mp: nat, n: nat, key: Value)
      requires Sound() && !dummy && key != Nil && !InRange(key, |arr|) && !HasNode(node, key)
      requires mp < |node| && mp == position(key, |node|) && node[mp].val != Nil
      requires othern == position(node[mp].key, |node|) != mp && n < |node| && node[n].key == Nil
      modifies `node, `rank
      ensures Sound() && Inserted(old(node), node, key, mp, n)
    {
      hide *;
      SoundParts();
      Collides(node, rank, position, mp);
      var prev := FindPrevious(othern, mp);
      MoveFacts(arr, node, rank, position, prev, mp, n, key);
      Rechain(prev, mp, n, key);
      rank := rank[n := rank[mp]];
      SoundMake();
    }

    lemma SoundParts()
      requires Sound()
      ensures NodesOK(node, rank, position) && Apart(arr, node) && |arr| <= MAXASIZE && (dummy ==> node == [EMPTY])
      ensures Distinct(node)
    {}

    lemma SoundMake()
      requires NodesOK(node, rank, position) && Apart(arr, node) && |arr| <= MAXASIZE && (dummy ==> node == [EMPTY])
      ensures Sound()
    {}

    method Rechain(prev: nat, mp: nat, n: nat, key: Value)
      requires prev < |node| && mp < |node| && n < |node| && n != mp && prev != mp && prev != n
      modifies `node
      ensures node == MovedTo(old(node), prev, mp, n, key)
    {
      node := node[prev := node[prev].(next := n)];
      node := node[n := node[mp]];
      node := node[mp := node[mp].(next := NULL, val := Nil)];
      node := node[mp := node[mp].(key := key)];
    }

    /** The colliding node is in its main position: the key goes to `n`. */
    method ChainNew(mp: nat, n: nat, key: Value)
      requires Sound() && !dummy && key != Nil && !InRange(key, |arr|) && !HasNode(node, key)
      requires mp < |node| && mp == position(key, |node|) == position(node[mp].key, |node|) && node[mp].val != Nil
      requires n < |node| && node[n].key == Nil
      modifies `node, `rank
      ensures Sound() && Inserted(old(node), node, key, n, n)
    {
      hide NodesOK, Apart, Inserted, HasNode, Raised, Doubled;
      RaisedNodes(node, rank, position);
      rank := Raised(rank);
      ChainFacts(arr, node, rank, position, mp, n, key);
      ghost var t := node;
      node := node[n := node[n].(next := node[mp].next)];
      node := node[mp := node[mp].(next := n)];
      node := node[n := node[n].(key := key)];
      rank := Doubled(rank, mp, n);
      assert node == LinkedIn(t, mp, n, key);
    }

    /** The main position of the key is free. */
    method TakeMain(mp: nat, key: Value)
      requires Sound() && !dummy && key != Nil && !InRange(key, |arr|) && !HasNode(node, key)
      requires mp < |node| && mp == position(key, |node|) && node[mp].val == Nil
      modifies `node
      ensures Sound() && Inserted(old(node), node, key, mp, NULL)
    {
      TakeOK(node, rank, position, mp, key);
      TakeBindings(node, mp, key);
      ghost var t := node;
      node := node[mp := node[mp].(key := key)];
      hide NodesOK;
      assert NodeKeys(node) <= NodeKeys(t) + {key};
    }

    // -------------------------------------------------------------------
    // Growing

    method SetArrayVector(size: nat)
      requires size >= |arr|
      modifies `arr
      ensures arr == old(arr) + seq(size - |old(arr)|, _ => Nil)
    {
      arr := arr + seq(size - |arr|, _ => Nil);
    }

    /** setnodevector: fails with a table overflow. */
    method SetNodeVector(size: nat) returns (ok: bool)
      requires Hashes(position)
      modifies `node, `dummy, `lastfree, `rank
      ensures ok == (size <= MAXASIZE)
      ensures ok ==> NodesOK(node, rank, position) && NodeKeys(node) == {} && FreeBelow() && |node| >= size
      ensures ok ==> dummy == (size == 0) && (dummy ==> node == [EMPTY]) && forall i :: 0 <= i < |node| ==> node[i] == EMPTY
      ensures !ok ==> node == old(node)
    {
      if size == 0 {
        node, dummy, lastfree := [EMPTY], true, 0;
        rank := [0];
      } else {
        var lsize := CeilLog2(size);
        ExponentBound(size, lsize);
        if lsize > MAXBITS { return false; }
        var n := Pow2(lsize);
        node, dummy, lastfree := seq(n, _ => EMPTY), false, n;
        rank := seq(n, _ => 0);
      }
      EmptyNodes(node, rank, position);
      ok := true;
    }

    /** The value of a slot. */
    method Store(s: Slot, ghost k: Value, v: Value)
      requires Valid() && IsSlot(s, k)
      modifies `arr, `node
      ensures Valid() && |arr| == |old(arr)| && |node| == |old(node)| && NodeKeys(node) == NodeKeys(old(node))
      ensures forall x :: Lookup(arr, node, x) == if x == k then v else Lookup(old(arr), old(node), x)
      ensures Contents() == Assigned(old(Contents()), k, v)
      ensures forall i :: 0 <= i < |node| ==> node[i] == if node[i].key == k then old(node)[i].(val := v) else old(node)[i]
    {
      ghost var a, t := arr, node;
      match s {
        case ArraySlot(i) =>
          arr := arr[i := v];
          StoreArray(a, t, i, v);
        case NodeSlot(n) =>
          StoreNode(arr, t, rank, position, n, v);
          node := node[n := node[n].(val := v)];
      }
      ViewAssigned(a, t, arr, node, k, v);
    }

    /** luaH_set: the slot of a key, which is created if need be.  At `depth` 0
        there is room for it, so that nothing is rehashed. */
    method SetSlot(key: Value, ghost depth: nat) returns (res: Outcome)
      requires Valid() && (depth == 0 ==> Roomy(key))
      modifies this
      ensures res.NilIndex? <==> key == Nil
      ensures !res.Overflow? ==> Valid() && forall k :: Lookup(arr, node, k) == Lookup(old(arr), old(node), k)
      ensures res.Ok? ==> IsSlot(res.slot, key)
      ensures res.Overflow? ==> depth > 0 && |old(Contents())| >= MAXASIZE
      ensures depth == 0 ==> SameParts(old(arr), old(node), old(dummy), key)
      ensures HasSlot(old(arr), old(node), key) ==> res.Ok? && arr == old(arr) && node == old(node)
      decreases depth, 3
    {
      var s := Locate(key);
      if s != NoSlot { return Ok(s); }
      if key == Nil { return NilIndex; }
      res := NewKey(key, depth);
    }

    /** There is a place for the key, or room to make one. */
    ghost predicate Roomy(key: Value)
      reads this
    {
      key == Nil || InRange(key, |arr|) || HasNode(node, key) || (!dummy && |NodeKeys(node)| < |node|)
    }

    /** Only the key has been added, in the same vectors. */
    ghost predicate SameParts(a: seq<Value>, t: seq<Node>, d: bool, key: Value)
      reads this
    {
      arr == a && |node| == |t| && dummy == d && SameBindings(t, node) && NodeKeys(node) <= NodeKeys(t) + {key}
    }

    /** newkey, for a key that has no slot yet. */
    method NewKey(key: Value, ghost depth: nat) returns (res: Outcome)
      requires Valid() && key != Nil && !InRange(key, |arr|) && !HasNode(node, key) && (depth == 0 ==> Roomy(key))
      modifies this
      ensures !res.NilIndex?
      ensures !res.Overflow? ==> Valid() && forall k :: Lookup(arr, node, k) == Lookup(old(arr), old(node), k)
      ensures res.Ok? ==> IsSlot(res.slot, key)
      ensures res.Overflow? ==> depth > 0 && |old(Contents())| >= MAXASIZE
      ensures depth == 0 ==> SameParts(old(arr), old(node), old(dummy), key)
      decreases depth, 2
    {
      ghost var a, t := arr, node;
      SoundParts();
      var mp := position(key, |node|);
      if node[mp].val != Nil || dummy {
        if depth == 0 { FreeNode(node); }
        var n := GetFreePos();
        if n == NULL {
          var ok := Rehash(key, depth);
          if !ok { return Overflow; }
          res := SetSlot(key, 0);
          return;
        }
        mp := Collide(mp, n, key);
      } else {
        TakeMain(mp, key);
        StillFree(t, NULL);
      }
      hide NodesOK;
      SameLookup(arr, t, node);
      res := Ok(NodeSlot(mp));
    }

    /** The main position of the key is taken, and `n` is free. */
    method Collide(mp: nat, n: nat, key: Value) returns (p: nat)
      requires Sound() && !dummy && key != Nil && !InRange(key, |arr|) && !HasNode(node, key)
      requires mp < |node| && mp == position(key, |node|) && node[mp].val != Nil
      requires n == lastfree < |node| && node[n].key == Nil && forall i :: n < i < |node| ==> node[i].key != Nil
      modifies `node, `rank
      ensures Valid() && Inserted(old(node), node, key, p, n)
    {
      ghost var t := node;
      var othern := position(node[mp].key, |node|);
      if othern != mp {
        MoveColliding(othern, mp, n, key);
        p := mp;
      } else {
        ChainNew(mp, n, key);
        p := n;
      }
      hide NodesOK, Apart, HasNode, SameBindings, NodeKeys;
      StillFree(t, n);
    }

    /** Inserting has not freed a node. */
    lemma StillFree(t: seq<Node>, n: int)
      requires Sound() && |node| == |t| && 0 <= lastfree <= |node| && !dummy
      requires forall i :: 0 <= i < |node| && (i == n || t[i].key != Nil) ==> node[i].key != Nil
      requires forall i :: lastfree <= i < |node| ==> i == n || t[i].key != Nil
      ensures Valid()
    {
      hide NodesOK, Apart;
    }

    /** rehash: count all keys, compute the sizes, and resize. */
    method Rehash(key: Value, ghost depth: nat) returns (ok: bool)
      requires Sound() && key != Nil && !InRange(key, |arr|) && !HasNode(node, key) && depth > 0
      modifies this
      ensures ok ==> Valid() && Roomy(key) && forall k :: Lookup(arr, node, k) == Lookup(old(arr), old(node), k)
      ensures ok ==> Optimal(Ints(old(Contents()).Keys + {key}), |arr|, MAXBITS + 1)
      ensures !ok ==> |old(Contents())| >= MAXASIZE
      decreases depth, 1
    {
      ghost var keys := Keys(arr, node);
      ghost var all := keys + {key};
      AbsentKey(arr, node, key);
      assert Contents().Keys == keys;
      hide Keys, Lookup, Optimal, Ints, UpTo, Beyond, NodesOK, Apart, HasNode, NodeKeys;
      var totaluse, na, n := CountKeys(key);
      BeyondCard(all, n);
      BeyondMore(keys, key, n);
      ok := Resize(n, totaluse - na, depth);
      if ok { SubsetSize(NodeKeys(node), Beyond(keys, n)); }
    }

    /** The counting in rehash: the number of keys with the new one, and how
        many of them go to an array part of which size. */
    method CountKeys(key: Value) returns (totaluse: nat, na: nat, n: nat)
      requires Sound() && key != Nil && !InRange(key, |arr|) && !HasNode(node, key)
      ensures var all := Keys(arr, node) + {key};
        && totaluse == |all| && Optimal(Ints(all), n, MAXBITS + 1) && na == |UpTo(Ints(all), n)| && n <= MAXASIZE
    {
      hide NodesOK, ArrKeys, IntKeys, Keys, Ints, UpTo, Optimal, Used;
      ghost var ks, hs := ArrKeys(arr, |arr|), IntKeys(node, 0);
      CountFacts(arr, node, key);
      var nums := new nat[MAXBITS + 1](_ => 0);
      var nasize := NumUseArray(arr, nums);
      totaluse := nasize;
      var inhash, intkeys := NumUseHash(node, nums, ks);
      totaluse, nasize := totaluse + inhash, nasize + intkeys;
      var c := CountInt(key, nums, ks + hs);
      nasize := nasize + c;
      totaluse := totaluse + 1;
      na, n := ComputeSizes(nums, nasize, Ints(Keys(arr, node) + {key}));
    }

    /** One re-insertion of resize: luaH_set, for which there is room. */
    method Reinsert(key: Value, v: Value)
      requires Valid() && key != Nil && v != Nil && Roomy(key) && AllStored(node)
      modifies this
      ensures Valid() && AllStored(node) && |arr| == |old(arr)| && |node| == |old(node)| && dummy == old(dummy)
      ensures NodeKeys(node) <= NodeKeys(old(node)) + {key}
      ensures forall k :: Lookup(arr, node, k) == if k == key then v else Lookup(old(arr), old(node), k)
      decreases 0, 4
    {
      hide NodesOK, Apart, SameBindings, NodeKeys, Lookup, AllStored, View, Assigned, Distinct;
      ghost var t := node;
      var res := SetSlot(key, 0);
      ghost var u := node;
      SoundParts();
      Store(res.slot, key, v);
      StoredAll(t, u, node, key, v);
    }

    /** The new parts are being filled: `b` are the keys that go to nodes. */
    ghost predicate Rebuilding(nasize: nat, nhsize: nat, b: set<Value>)
      reads this
    {
      && Valid() && AllStored(node) && |arr| == nasize && |node| >= nhsize && dummy == (nhsize == 0)
      && NodeKeys(node) <= b && |b| <= nhsize
    }

    lemma RoomFor(key: Value, nasize: nat, nhsize: nat, b: set<Value>)
      requires Rebuilding(nasize, nhsize, b) && Lookup(arr, node, key) == Nil && (InRange(key, nasize) || key in b)
      ensures Roomy(key)
    {
      if key != Nil && !InRange(key, nasize) && !HasNode(node, key) {
        assert key !in NodeKeys(node);
        SmallerSet(NodeKeys(node), b, key);
      }
    }

    /** Re-insert the elements from the vanishing slice of the array part. */
    method ReinsertSlice(vanish: seq<Value>, nasize: nat, nhsize: nat, ghost b: set<Value>, ghost a0: seq<Value>,
                         ghost t0: seq<Node>)
      requires Rebuilding(nasize, nhsize, b) && Apart(a0, t0) && nasize <= |a0| && vanish == a0[nasize..]
      requires b == Beyond(Keys(a0, t0), nasize) && SliceBack(a0, t0, arr, node, nasize)
      modifies this
      ensures Rebuilding(nasize, nhsize, b) && SliceBack(a0, t0, arr, node, |a0|)
      decreases 0, 5
    {
      var i := nasize;
      while i < nasize + |vanish|
        invariant nasize <= i <= nasize + |vanish| && Rebuilding(nasize, nhsize, b)
        invariant SliceBack(a0, t0, arr, node, i)
      {
        SliceStep(a0, t0, nasize, i);
        if vanish[i - nasize] != Nil {
          RoomFor(Num(i + 1), nasize, nhsize, b);
          Reinsert(Num(i + 1), vanish[i - nasize]);
        }
        i := i + 1;
      }
    }

    /** Re-insert the elements from the old hash part. */
    method ReinsertHash(nold: seq<Node>, nasize: nat, nhsize: nat, ghost b: set<Value>, ghost a0: seq<Value>)
      requires Rebuilding(nasize, nhsize, b) && Apart(a0, nold)
      requires b == Beyond(Keys(a0, nold), nasize) && HashBack(a0, nold, arr, node, |nold|)
      modifies this
      ensures Rebuilding(nasize, nhsize, b) && HashBack(a0, nold, arr, node, 0)
      decreases 0, 5
    {
      var i := |nold|;
      while i > 0
        invariant 0 <= i <= |nold| && Rebuilding(nasize, nhsize, b)
        invariant HashBack(a0, nold, arr, node, i)
      {
        i := i - 1;
        HashStep(a0, nold, nasize, i);
        if nold[i].val != Nil {
          RoomFor(nold[i].key, nasize, nhsize, b);
          Reinsert(nold[i].key, nold[i].val);
        }
      }
    }

    /** resize, to parts in which all keys have a place. */
    method Resize(nasize: nat, nhsize: nat, ghost depth: nat) returns (ok: bool)
      requires Sound() && nasize <= MAXASIZE && |Beyond(Keys(arr, node), nasize)| <= nhsize && depth > 0
      modifies this
      ensures ok == (nhsize <= MAXASIZE)
      ensures ok ==> Valid() && |arr| == nasize && |node| >= nhsize && dummy == (nhsize == 0)
      ensures ok ==> forall k :: Lookup(arr, node, k) == Lookup(old(arr), old(node), k)
      ensures ok ==> NodeKeys(node) <= Beyond(Keys(old(arr), old(node)), nasize)
      decreases depth, 0
    {
      var oldasize, nold := |arr|, node;
      ghost var a0, b := arr, Beyond(Keys(arr, node), nasize);
      if nasize > oldasize { SetArrayVector(nasize); }
      ok := SetNodeVector(nhsize);
      if !ok { return; }
      ghost var a1 := arr;
      var vanish := if nasize < oldasize then arr[nasize..] else [];
      if nasize < oldasize { arr := arr[..nasize]; }
      FreshLookup(a0, nold, arr, node, nasize);
      assert Rebuilding(nasize, nhsize, b);
      if nasize < oldasize { ReinsertSlice(vanish, nasize, nhsize, b, a0, nold); }
      SliceToHash(a0, nold, arr, node);
      ReinsertHash(nold, nasize, nhsize, b, a0);
    }

    /** luaH_new, within the sizes that a table may have. */
    constructor (f: Position, narray: nat, nhash: nat)
      requires Hashes(f) && narray <= MAXASIZE && nhash <= MAXASIZE
      ensures Valid() && Contents() == map[] && position == f && |arr| == narray
    {
      position := f;
      arr := [];
      node, dummy, lastfree, rank := [EMPTY], true, 0, [0];
      new;
      SetArrayVector(narray);
      var ok := SetNodeVector(nhash);
      NothingThere(arr, node);
    }

    /** An assignment t[key] = v: luaH_set, and the value into the slot. */
    method Put(key: Value, v: Value) returns (res: Outcome)
      requires Valid()
      modifies this
      ensures res.NilIndex? <==> key == Nil
      ensures res.NilIndex? ==> Valid() && Contents() == old(Contents())
      ensures res.Ok? ==> Valid() && Contents() == Assigned(old(Contents()), key, v)
      ensures res.Overflow? ==> |old(Contents())| >= MAXASIZE
      ensures HasSlot(old(arr), old(node), key) ==> res.Ok? && SameLayout(old(arr), old(node), arr, node)
    {
      ghost var a, t := arr, node;
      assert Apart(a, t);
      hide Lookup, View, NodesOK, SameBindings, NodeKeys, Assigned, HasSlot;
      res := SetSlot(key, 1);
      if !res.Overflow? {
        assert Apart(arr, node);
        hide Apart;
        ViewSame(a, t, arr, node);
        if res.Ok? { Store(res.slot, key, v); }
      }
    }

    /** luaH_resizearray, which only ever makes the array part larger. */
    method ResizeArray(nasize: nat) returns (ok: bool)
      requires Valid() && |arr| <= nasize <= MAXASIZE
      modifies this
      ensures ok ==> Valid() && |arr| == nasize && Contents() == old(Contents())
      ensures !ok ==> |old(node)| > MAXASIZE
    {
      var nsize := if dummy then 0 else |node|;
      ghost var a, t := arr, node;
      BeyondNodes(arr, node, nasize);
      ok := Resize(nasize, nsize, 1);
      if ok { ViewSame(a, t, arr, node); }
    }

    // -------------------------------------------------------------------
    // Traversal

    /** findindex: the place of a key in a traversal, or NULL for an invalid
        key; -1 starts the traversal. */
    method FindIndex(key: Value) returns (i: int, valid: bool)
      requires Sound()
      ensures valid == (key == Nil || InRange(key, |arr|) || HasNode(node, key))
      ensures valid ==> i == PlaceOf(arr, node, key)
    {
      if key == Nil { return -1, true; }
      if key.Num? && 0 < key.n && key.n <= |arr| { return key.n - 1, true; }
      var n := Find(key);
      if n == NULL { return 0, false; }
      PlaceOfNode(arr, node, n);
      return n + |arr|, true;
    }

    /** luaH_next: the next key with a value, and the value. */
    method Next(key: Value) returns (res: Entry)
      requires Sound()
      ensures res.Invalid? <==> !(key == Nil || InRange(key, |arr|) || HasNode(node, key))
      ensures !res.Invalid? ==> FoundFrom(arr, node, res, PlaceOf(arr, node, key) + 1)
    {
      hide *;
      var start, valid := FindIndex(key);
      if !valid { return Invalid; }
      PlaceBounds(arr, node, key);
      res := NextFrom(start + 1);
    }

    /** First the array part, then the hash part. */
    method NextFrom(start: nat) returns (res: Entry)
      requires Sound() && start <= |arr| + |node|
      ensures !res.Invalid? && FoundFrom(arr, node, res, start)
    {
      hide *;
      res := NextInArray(start);
      if res.End? {
        var from: nat := if start < |arr| then 0 else start - |arr|;
        res := NextInNodes(from);
        LaterFound(arr, node, res, start, |arr| + from);
      }
    }

    /** The array part of luaH_next; End if there is no more in it. */
    method NextInArray(start: nat) returns (res: Entry)
      requires Sound() && start <= |arr| + |node|
      ensures var from := if start < |arr| then |arr| else start;
        res.End? ==> FirstFrom(SlotValues(arr, node), start) == FirstFrom(SlotValues(arr, node), from)
      ensures !res.Invalid? && (!res.End? ==> FoundFrom(arr, node, res, start))
    {
      hide NodesOK, HasNode;
      ghost var vs := SlotValues(arr, node);
      var i := start;
      while i < |arr|
        invariant start <= i && (i == start || i <= |arr|)
        invariant i <= |arr| + |node| && FirstFrom(vs, i) == FirstFrom(vs, start)
      {
        if arr[i] != Nil { return Entry(Num(i + 1), arr[i]); }
        i := i + 1;
      }
      res := End;
    }

    /** The hash part of luaH_next. */
    method NextInNodes(start: nat) returns (res: Entry)
      requires Sound() && start <= |node|
      ensures !res.Invalid? && FoundFrom(arr, node, res, |arr| + start)
    {
      ghost var vs := SlotValues(arr, node);
      var i := start;
      hide NodesOK, HasNode, PlaceOf, Distinct;
      while i < |node|
        invariant start <= i <= |node| && FirstFrom(vs, |arr| + i) == FirstFrom(vs, |arr| + start)
      {
        if node[i].val != Nil {
          PlaceOfNode(arr, node, i);
          return Entry(node[i].key, node[i].val);
        }
        i := i + 1;
      }
      res := End;
    }

    /** A traversal by repeated luaH_next, with assignments to keys of the
        table in between: `edits[i]` after the call number `i`. */
    method Traverse(edits: seq<seq<(Value, Value)>>) returns (found: seq<Value>, ghost snaps: seq<seq<Value>>)
      requires Valid()
      modifies this
      ensures SameLayout(old(arr), old(node), arr, node)
      ensures Visited(old(arr), old(node), snaps, found)
      ensures Complete(old(arr), old(node), snaps, found)
    {
      ghost var a, t := arr, node;
      found, snaps := [], [];
      var key := Nil;
      var more := true;
      assert Apart(a, t);
      hide NodesOK, Apart, HasNode, Trail, SameLayout, SlotValues, FoundFrom;
      TrailStart(a, t);
      SameLayoutRefl(a, t);
      while more
        invariant Valid() && SameLayout(a, t, arr, node) && Apart(a, t)
        invariant Trail(a, t, snaps, found, key, more)
        decreases Remaining(a, t, snaps, found, key, more)
      {
        TrailKey(a, t, arr, node, snaps, found, key);
        var e := Next(key);
        TrailStep(a, t, arr, node, snaps, found, key, e);
        snaps := snaps + [SlotValues(arr, node)];
        more := e.Entry?;
        if more {
          key := e.key;
          found := found + [key];
          if |found| <= |edits| { Edit(edits[|found| - 1], a, t); }
        }
      }
      AllVisited(a, t, snaps, found, key);
    }

    /** Assignments to keys that the table has. */
    method Edit(edits: seq<(Value, Value)>, ghost a: seq<Value>, ghost t: seq<Node>)
      requires Valid() && SameLayout(a, t, arr, node)
      modifies this
      ensures Valid() && SameLayout(a, t, arr, node)
    {
      var i := 0;
      while i < |edits|
        invariant 0 <= i <= |edits| && Valid() && SameLayout(a, t, arr, node)
      {
        var (key, v) := edits[i];
        var s := Locate(key);
        if s != NoSlot { var res := Put(key, v); }
        i := i + 1;
      }
    }

    // -------------------------------------------------------------------
    // The length operator

    /** luaH_getnum. */
    method GetNum(k: int) returns (v: Value)
      requires Sound()
      ensures v == Lookup(arr, node, Num(k))
    {
      KeysLookup(arr, node);
      v := Get(Num(k));
    }

    /** unbound_search: by doubling, then by halving; one by one if doubling
        goes beyond the integers. */
    method UnboundSearch(start: nat) returns (n: nat)
      requires Sound() && start <= MAX_INT && (start > 0 ==> Lookup(arr, node, Num(start)) != Nil)
      ensures IsBoundary(arr, node, n)
    {
      var i: nat, j: nat := start, start + 1;
      var v := GetNum(j);
      while v != Nil
        invariant i < j && v == Lookup(arr, node, Num(j)) && (i > 0 ==> Lookup(arr, node, Num(i)) != Nil)
        invariant i <= MAX_INT && j <= MAX_INT + 1
        decreases MAX_INT + 1 - i
      {
        i := j;
        j := j * 2;
        if j > MAX_INT {
          n := LinearSearch();
          return;
        }
        v := GetNum(j);
      }
      while j - i > 1
        invariant i < j && Lookup(arr, node, Num(j)) == Nil && (i > 0 ==> Lookup(arr, node, Num(i)) != Nil)
        decreases j - i
      {
        var m := (i + j) / 2;
        v := GetNum(m);
        if v == Nil { j := m; } else { i := m; }
      }
      n := i;
    }

    method LinearSearch() returns (n: nat)
      requires Sound()
      ensures IsBoundary(arr, node, n)
    {
      var i: nat := 1;
      ghost var left := Ints(Keys(arr, node));
      KeysLookup(arr, node);
      var v := GetNum(i);
      while v != Nil
        invariant i >= 1 && v == Lookup(arr, node, Num(i)) && (i > 1 ==> Lookup(arr, node, Num(i - 1)) != Nil)
        invariant forall k :: k >= i && Lookup(arr, node, Num(k)) != Nil ==> k in left
        decreases |left|
      {
        assert i in left;
        left := left - {i as int};
        i := i + 1;
        v := GetNum(i);
      }
      n := i - 1;
    }

    /** luaH_getn: some boundary of the table. */
    method GetN() returns (n: nat)
      requires Sound()
      ensures IsBoundary(arr, node, n)
    {
      hide NodesOK, Apart, NodeValue, Pow2;
      var j: nat := |arr|;
      if j > 0 && arr[j - 1] == Nil {
        var i: nat := 0;
        while j - i > 1
          invariant 0 <= i < j <= |arr| && arr[j - 1] == Nil && (i > 0 ==> arr[i - 1] != Nil)
          decreases j - i
        {
          var m := (i + j) / 2;
          if arr[m - 1] == Nil { j := m; } else { i := m; }
        }
        return i;
      }
      if dummy {
        NothingInDummy(arr, Num(j + 1));
        return j;
      }
      SizesFit();
      n := UnboundSearch(j);
    }
  }

  lemma ViewLookup(arr: seq<Value>, t: seq<Node>, k: Value)
    requires Apart(arr, t)
    ensures (if k in View(arr, t) then View(arr, t)[k] else Nil) == Lookup(arr, t, k)
  {
    KeysLookup(arr, t);
    hide Lookup, Keys, Apart;
  }

  /** The value in the slot that a search ends at. */
  lemma LookupAt(arr: seq<Value>, t: seq<Node>, k: Value, s: Slot)
    requires Apart(arr, t)
    requires match s
      case ArraySlot(i) => i < |arr| && k == Num(i + 1)
      case NodeSlot(n) => n < |t| && t[n].key == k != Nil
      case NoSlot => !HasSlot(arr, t, k)
    ensures Lookup(arr, t, k) ==
            match s case ArraySlot(i) => arr[i] case NodeSlot(n) => t[n].val case NoSlot => Nil
  {
    if s.NodeSlot? { NodeValueAt(t, s.n); }
  }

  lemma Collides(t: seq<Node>, rank: seq<nat>, f: Position, mp: nat)
    requires NodesOK(t, rank, f) && mp < |t| && t[mp].val != Nil
    ensures |rank| == |t|
    ensures var m := f(t[mp].key, |t|); m < |t| && Reach(t, rank, m, mp)
  {
    assert AtMain(t, rank, f, mp);
  }

  lemma MoveFacts(arr: seq<Value>, t: seq<Node>, rank: seq<nat>, f: Position, prev: nat, mp: nat, n: nat, k: Value)
    requires NodesOK(t, rank, f) && Apart(arr, t) && k != Nil && !InRange(k, |arr|) && !HasNode(t, k)
    requires prev < |t| && mp < |t| && mp == f(k, |t|) != f(t[mp].key, |t|) && t[mp].val != Nil
    requires n < |t| && t[n].key == Nil && t[prev].next == mp && prev != mp
    ensures prev != n && n != mp && prev < |t|
    ensures var u := MovedTo(t, prev, mp, n, k);
      NodesOK(u, rank[n := rank[mp]], f) && Apart(arr, u) && Inserted(t, u, k, mp, n)
  {
    assert prev != n && n != mp by { hide HasNode; }
    assert forall i :: 0 <= i < |t| ==> t[i].key != k;
    hide HasNode, NodesOK, Apart;
    MoveOK(t, rank, f, prev, mp, n, k);
    MoveInserted(arr, t, prev, mp, n, k);
  }

  lemma MoveInserted(arr: seq<Value>, t: seq<Node>, prev: nat, mp: nat, n: nat, k: Value)
    requires Apart(arr, t) && k != Nil && !InRange(k, |arr|) && !HasNode(t, k)
    requires prev < |t| && mp < |t| && n < |t| && t[n].key == Nil && mp != n && prev != n && prev != mp
    requires t[mp].key != Nil
    ensures Apart(arr, MovedTo(t, prev, mp, n, k)) && Inserted(t, MovedTo(t, prev, mp, n, k), k, mp, n)
  {
    MoveBindings(t, prev, mp, n, k);
    MovedApart(arr, t, prev, mp, n, k);
    hide SameBindings, Apart, NodeKeys;
    var u := MovedTo(t, prev, mp, n, k);
    forall i: nat | i < |u| && (i == n || t[i].key != Nil) ensures u[i].key != Nil { MovedNode(t, prev, mp, n, k, i); }
  }

  lemma ChainFacts(arr: seq<Value>, t: seq<Node>, rank: seq<nat>, f: Position, mp: nat, n: nat, k: Value)
    requires NodesOK(t, rank, f) && Apart(arr, t) && k != Nil && !InRange(k, |arr|) && !HasNode(t, k)
    requires mp < |t| && mp == f(k, |t|) == f(t[mp].key, |t|) && t[mp].val != Nil && mp < |rank| && rank[mp] > 0
    requires n < |t| && t[n].key == Nil
    ensures n < |rank| && n != mp
    ensures var u := LinkedIn(t, mp, n, k);
      NodesOK(u, Doubled(rank, mp, n), f) && Apart(arr, u) && Inserted(t, u, k, n, n)
  {
    LinkInOK(t, rank, f, mp, n, k);
    LinkInBindings(t, mp, n, k);
    hide NodesOK, SameBindings, Doubled;
    LinkedApart(arr, t, mp, n, k);
  }

  lemma RaisedNodes(t: seq<Node>, rank: seq<nat>, f: Position)
    requires NodesOK(t, rank, f)
    ensures NodesOK(t, Raised(rank), f) && |Raised(rank)| == |t| && forall i :: 0 <= i < |t| ==> Raised(rank)[i] > 0
  {
    RaisedOK(t, rank);
    forall i: nat | i < |t| && t[i].key != Nil ensures AtMain(t, Raised(rank), f, i) {
      assert AtMain(t, rank, f, i);
    }
  }

  lemma MovedApart(arr: seq<Value>, t: seq<Node>, prev: nat, mp: nat, n: nat, k: Value)
    requires Apart(arr, t) && prev < |t| && mp < |t| && n < |t| && n != mp && prev != mp && prev != n
    requires t[n].key == Nil && k != Nil && !InRange(k, |arr|) && !HasNode(t, k)
    ensures Apart(arr, MovedTo(t, prev, mp, n, k))
    ensures NodeKeys(MovedTo(t, prev, mp, n, k)) <= NodeKeys(t) + {k}
  {
    MovedDistinct(t, prev, mp, n, k);
    var u := MovedTo(t, prev, mp, n, k);
    forall j | 0 <= j < |u| && u[j].key != Nil ensures u[j].key in NodeKeys(t) + {k} {
      assert u[j].key == if j == mp then k else if j == n then t[mp].key else t[j].key;
    }
  }

  lemma LinkedApart(arr: seq<Value>, t: seq<Node>, mp: nat, n: nat, k: Value)
    requires Apart(arr, t) && mp < |t| && n < |t| && n != mp
    requires t[n].key == Nil && k != Nil && !InRange(k, |arr|) && !HasNode(t, k)
    ensures Apart(arr, LinkedIn(t, mp, n, k))
    ensures NodeKeys(LinkedIn(t, mp, n, k)) <= NodeKeys(t) + {k}
  {
    var u := LinkedIn(t, mp, n, k);
    forall j | 0 <= j < |u| && u[j].key != Nil ensures u[j].key in NodeKeys(t) + {k} {
      assert u[j].key == if j == n then k else t[j].key;
    }
  }

  lemma ExponentBound(size: nat, e: nat)
    requires size >= 1 && size <= Pow2(e) && Half(e) < size
    ensures e <= MAXBITS <==> size <= MAXASIZE
  {
    if e < MAXBITS { Pow2Less(e, MAXBITS); }
    if e > MAXBITS { HalfMono(MAXBITS + 1, e); }
  }

  lemma EmptyNodes(t: seq<Node>, rank: seq<nat>, f: Position)
    requires t != [] && |rank| == |t| && Hashes(f) && forall i :: 0 <= i < |t| ==> t[i] == EMPTY
    ensures NodesOK(t, rank, f) && NodeKeys(t) == {}
  {}

  lemma StoreArray(arr: seq<Value>, t: seq<Node>, i: nat, v: Value)
    requires Apart(arr, t) && i < |arr|
    ensures Apart(arr[i := v], t)
    ensures forall x :: Lookup(arr[i := v], t, x) == if x == Num(i + 1) then v else Lookup(arr, t, x)
  {
    var a := arr[i := v];
    forall x ensures Lookup(a, t, x) == if x == Num(i + 1) then v else Lookup(arr, t, x) {
      if InRange(x, |arr|) {
        assert x == Num(x.n) && a[x.n - 1] == if x.n - 1 == i then v else arr[x.n - 1];
      }
    }
  }

  lemma StoreNode(arr: seq<Value>, t: seq<Node>, rank: seq<nat>, f: Position, n: nat, v: Value)
    requires NodesOK(t, rank, f) && Apart(arr, t) && n < |t| && t[n].key != Nil
    ensures var u := t[n := t[n].(val := v)];
      && NodesOK(u, rank, f) && Apart(arr, u) && NodeKeys(u) == NodeKeys(t)
      && forall x :: Lookup(arr, u, x) == if x == t[n].key then v else Lookup(arr, t, x)
  {
    hide *;
    StoreOK(t, rank, f, n, v);
    StoreApart(arr, t, n, v);
    forall x ensures Lookup(arr, t[n := t[n].(val := v)], x) == if x == t[n].key then v else Lookup(arr, t, x) {
      StoreLookup(arr, t, n, v, x);
    }
  }

  lemma StoreApart(arr: seq<Value>, t: seq<Node>, n: nat, v: Value)
    requires Apart(arr, t) && n < |t| && t[n].key != Nil
    ensures var u := t[n := t[n].(val := v)]; Apart(arr, u) && NodeKeys(u) == NodeKeys(t)
  {
    hide Distinct, NodeKeys;
    var u := t[n := t[n].(val := v)];
    assert forall i :: 0 <= i < |u| ==> u[i].key == t[i].key;
    StoreKeys(t, u);
  }

  lemma StoreLookup(arr: seq<Value>, t: seq<Node>, n: nat, v: Value, x: Value)
    requires Apart(arr, t) && n < |t| && t[n].key != Nil
    ensures Lookup(arr, t[n := t[n].(val := v)], x) == if x == t[n].key then v else Lookup(arr, t, x)
  {
    hide NodeValue, HasNode, Distinct;
    if x != Nil { StoreValue(t, n, v, x); }
  }

  lemma StoreKeys(t: seq<Node>, u: seq<Node>)
    requires |t| == |u| && forall i :: 0 <= i < |u| ==> u[i].key == t[i].key
    ensures NodeKeys(u) == NodeKeys(t) && (Distinct(t) ==> Distinct(u))
  {}

  lemma StoreValue(t: seq<Node>, n: nat, v: Value, x: Value)
    requires Distinct(t) && n < |t| && t[n].key != Nil && x != Nil
    ensures NodeValue(t[n := t[n].(val := v)], x) == if x == t[n].key then v else NodeValue(t, x)
  {
    var u := t[n := t[n].(val := v)];
    StoreKeys(t, u);
    if HasNode(t, x) {
      var i: nat :| i < |t| && t[i].key == x;
      NodeValueAt(t, i);
      NodeValueAt(u, i);
    } else {
      assert !HasNode(u, x);
    }
  }

  /** Every key has a value. */
  predicate AllStored(t: seq<Node>) { forall i :: 0 <= i < |t| && t[i].key != Nil ==> t[i].val != Nil }

  lemma StoredAll(t: seq<Node>, u: seq<Node>, w: seq<Node>, key: Value, v: Value)
    requires AllStored(t) && |u| == |w| && Distinct(u) && v != Nil && key != Nil
    requires SameBindings(t, u) && NodeKeys(u) <= NodeKeys(t) + {key}
    requires forall i :: 0 <= i < |w| ==> w[i] == if w[i].key == key then u[i].(val := v) else u[i]
    ensures AllStored(w)
  {
    forall j | 0 <= j < |w| && w[j].key != Nil && w[j].key != key ensures w[j].val != Nil {
      assert w[j] == u[j] && u[j].key in NodeKeys(u);
      assert u[j].key in NodeKeys(t);
      var i :| 0 <= i < |t| && t[i].key == u[j].key;
      var m :| 0 <= m < |u| && u[m].key == t[i].key && u[m].val == t[i].val;
    }
  }

  lemma AbsentKey(arr: seq<Value>, t: seq<Node>, key: Value)
    requires Apart(arr, t) && !InRange(key, |arr|) && !HasNode(t, key)
    ensures key !in Keys(arr, t)
  {
    KeysLookup(arr, t);
  }

  lemma BeyondMore(s: set<Value>, key: Value, n: nat)
    requires key !in s
    ensures |Beyond(s, n)| <= |Beyond(s + {key}, n)|
    ensures !InRange(key, n) ==> |Beyond(s + {key}, n)| == |Beyond(s, n)| + 1
  {
    assert Beyond(s + {key}, n) == if InRange(key, n) then Beyond(s, n) else Beyond(s, n) + {key};
  }

  lemma CountFacts(arr: seq<Value>, t: seq<Node>, key: Value)
    requires Apart(arr, t) && key != Nil && !InRange(key, |arr|) && !HasNode(t, key) && |arr| <= MAXASIZE
    ensures var ks, hs, all := ArrKeys(arr, |arr|), IntKeys(t, 0), Keys(arr, t) + {key};
      && ks !! hs && key !in Keys(arr, t)
      && (key.Num? ==> key.n !in ks + hs)
      && Ints(all) == (if key.Num? then ks + hs + {key.n} else ks + hs)
      && |all| == |ks| + |Used(t, 0)| + 1
      && |UpTo(Ints(all), MAXASIZE)| ==
           |ks| + |UpTo(hs, MAXASIZE)| + (if key.Num? && 1 <= key.n <= MAXASIZE then 1 else 0)
  {
    KeysCard(arr, t);
    KeysInts(arr, t);
    KeysLookup(arr, t);
    var ks, hs, keys := ArrKeys(arr, |arr|), IntKeys(t, 0), Keys(arr, t);
    assert Lookup(arr, t, key) == Nil;
    hide Keys, Lookup, HasNode, Apart;
    IntsAdd(keys, key);
    UpToUnion(ks, hs);
    if key.Num? {
      assert key.n !in Ints(keys) by { IntsIn(keys, key.n); }
      UpToAdd(ks + hs, key.n);
    }
    assert UpTo(ks, MAXASIZE) == ks;
  }

  lemma IntsIn(s: set<Value>, n: int)
    ensures n in Ints(s) <==> Num(n) in s
  {}

  lemma IntsAdd(s: set<Value>, key: Value)
    ensures Ints(s + {key}) == if key.Num? then Ints(s) + {key.n} else Ints(s)
  {}

  lemma UpToUnion(a: set<int>, b: set<int>)
    requires a !! b
    ensures |UpTo(a + b, MAXASIZE)| == |UpTo(a, MAXASIZE)| + |UpTo(b, MAXASIZE)|
  {
    assert UpTo(a + b, MAXASIZE) == UpTo(a, MAXASIZE) + UpTo(b, MAXASIZE);
  }

  lemma SmallerSet(a: set<Value>, b: set<Value>, k: Value)
    requires a <= b && k in b && k !in a
    ensures |a| < |b|
  {
    assert b == a + (b - a);
    assert k in b - a;
  }

  /** What resize has restored when the keys up to `i` are back. */
  ghost predicate SliceBack(a0: seq<Value>, t0: seq<Node>, arr: seq<Value>, t: seq<Node>, i: nat) {
    forall k :: Lookup(arr, t, k) ==
      if (k != Nil && HasNode(t0, k)) || (InRange(k, |a0|) && k.n > i) then Nil else Lookup(a0, t0, k)
  }

  ghost predicate HasBelow(t: seq<Node>, k: Value, j: int) { k != Nil && exists i :: 0 <= i < j && i < |t| && t[i].key == k }

  /** What it has restored when the nodes from `j` on are back. */
  ghost predicate HashBack(a0: seq<Value>, t0: seq<Node>, arr: seq<Value>, t: seq<Node>, j: int) {
    forall k :: Lookup(arr, t, k) == if HasBelow(t0, k, j) then Nil else Lookup(a0, t0, k)
  }

  lemma FreshLookup(a0: seq<Value>, t0: seq<Node>, arr: seq<Value>, t: seq<Node>, n: nat)
    requires Apart(a0, t0) && (forall i :: 0 <= i < |t| ==> t[i] == EMPTY) && |arr| == n
    requires forall i :: 0 <= i < n ==> arr[i] == if i < |a0| then a0[i] else Nil
    ensures Apart(arr, t) && AllStored(t)
    ensures SliceBack(a0, t0, arr, t, n)
  {
    forall k ensures Lookup(arr, t, k) ==
      if (k != Nil && HasNode(t0, k)) || (InRange(k, |a0|) && k.n > n) then Nil else Lookup(a0, t0, k)
    {
      assert k != Nil ==> !HasNode(t, k);
    }
  }

  lemma SliceStep(a0: seq<Value>, t0: seq<Node>, nasize: nat, i: nat)
    requires Apart(a0, t0) && nasize <= i < |a0|
    ensures !HasNode(t0, Num(i + 1)) && Lookup(a0, t0, Num(i + 1)) == a0[i]
    ensures a0[i] != Nil ==> Num(i + 1) in Beyond(Keys(a0, t0), nasize)
    ensures forall k: Value :: k.Num? && k.n == i + 1 ==> k == Num(i + 1)
  {
    KeysLookup(a0, t0);
  }

  lemma HashStep(a0: seq<Value>, t0: seq<Node>, nasize: nat, i: nat)
    requires Apart(a0, t0) && i < |t0|
    ensures t0[i].key != Nil ==> Lookup(a0, t0, t0[i].key) == t0[i].val && !HasBelow(t0, t0[i].key, i)
    ensures t0[i].val != Nil ==>
      t0[i].key != Nil && (InRange(t0[i].key, nasize) || t0[i].key in Beyond(Keys(a0, t0), nasize))
    ensures forall k :: HasBelow(t0, k, i + 1) <==> HasBelow(t0, k, i) || (k != Nil && k == t0[i].key)
  {
    if t0[i].key != Nil { NodeValueAt(t0, i); }
    KeysLookup(a0, t0);
  }

  lemma SliceToHash(a0: seq<Value>, t0: seq<Node>, arr: seq<Value>, t: seq<Node>)
    requires SliceBack(a0, t0, arr, t, if |arr| < |a0| then |a0| else |arr|)
    ensures HashBack(a0, t0, arr, t, |t0|)
  {
    assert forall k :: HasBelow(t0, k, |t0|) <==> k != Nil && HasNode(t0, k);
  }

  lemma NothingThere(arr: seq<Value>, t: seq<Node>)
    requires (forall i :: 0 <= i < |arr| ==> arr[i] == Nil) && forall i :: 0 <= i < |t| ==> t[i] == EMPTY
    ensures Apart(arr, t) && View(arr, t) == map[]
  {
    assert Apart(arr, t);
    KeysLookup(arr, t);
  }

  /** An array part that does not shrink leaves at most the keys of the nodes. */
  lemma BeyondNodes(arr: seq<Value>, t: seq<Node>, n: nat)
    requires Apart(arr, t) && |arr| <= n && t != []
    ensures |Beyond(Keys(arr, t), n)| <= |t|
    ensures t == [EMPTY] ==> Beyond(Keys(arr, t), n) == {}
  {
    var used := Used(t, 0);
    UsedKeysCard(t, used);
    IndexCard(used, |t|);
    forall k | k in Beyond(Keys(arr, t), n) ensures k in UsedKeys(t) {
    }
    SubsetSize(Beyond(Keys(arr, t), n), UsedKeys(t));
  }

  lemma {:induction false} IndexCard(s: set<int>, n: nat)
    requires forall i :: i in s ==> 0 <= i < n
    ensures |s| <= n
    decreases n
  {
    if n == 0 {
      if s != {} {
        var x := Pick(s);
        assert false;
      }
    } else {
      IndexCard(s - {n - 1}, n - 1);
      assert s <= (s - {n - 1}) + {n - 1};
      SubsetSize(s, (s - {n - 1}) + {n - 1});
    }
  }

  // ---------------------------------------------------------------------
  // Traversal

  /** All values, in the order of a traversal. */
  ghost function SlotValues(arr: seq<Value>, t: seq<Node>): (s: seq<Value>)
    ensures |s| == |arr| + |t|
    ensures forall i :: 0 <= i < |arr| ==> s[i] == arr[i]
    ensures forall i :: 0 <= i < |t| ==> s[|arr| + i] == t[i].val
  {
    arr + seq(|t|, i requires 0 <= i < |t| => t[i].val)
  }

  /** The key of a place. */
  ghost function KeyAt(arr: seq<Value>, t: seq<Node>, p: nat): Value
    requires p < |arr| + |t|
  {
    if p < |arr| then Num(p + 1) else t[p - |arr|].key
  }

  /** The place of a key; -1 for nil, with which a traversal starts. */
  ghost function PlaceOf(arr: seq<Value>, t: seq<Node>, k: Value): int {
    if k == Nil then -1
    else if InRange(k, |arr|) then k.n - 1
    else if HasNode(t, k) then var i :| 0 <= i < |t| && t[i].key == k; |arr| + i
    else -1
  }

  lemma PlaceOfNode(arr: seq<Value>, t: seq<Node>, n: nat)
    requires Apart(arr, t) && n < |t| && t[n].key != Nil
    ensures PlaceOf(arr, t, t[n].key) == |arr| + n
  {
    assert HasNode(t, t[n].key);
  }

  lemma PlaceBounds(arr: seq<Value>, t: seq<Node>, k: Value)
    ensures -1 <= PlaceOf(arr, t, k) && PlaceOf(arr, t, k) + 1 <= |arr| + |t|
  {}

  /** The first place from `i` on that has a value; the length if none has. */
  ghost function FirstFrom(s: seq<Value>, i: int): (p: int)
    requires 0 <= i <= |s|
    ensures i <= p <= |s| && (p < |s| ==> s[p] != Nil) && forall j :: i <= j < p ==> s[j] == Nil
    decreases |s| - i
  {
    if i == |s| || s[i] != Nil then i else FirstFrom(s, i + 1)
  }

  /** `res` is the first entry with a value at a place from `from` on. */
  ghost predicate FoundFrom(arr: seq<Value>, t: seq<Node>, res: Entry, from: int)
    requires 0 <= from <= |arr| + |t|
  {
    var s := SlotValues(arr, t);
    var p := FirstFrom(s, from);
    && (res.End? <==> p == |s|)
    && (res.Entry? ==> p < |s| && res.key == KeyAt(arr, t, p) && res.val == s[p] && PlaceOf(arr, t, res.key) == p)
    && !res.Invalid?
  }

  lemma LaterFound(arr: seq<Value>, t: seq<Node>, res: Entry, from: nat, later: nat)
    requires from <= later <= |arr| + |t| && FoundFrom(arr, t, res, later)
    requires FirstFrom(SlotValues(arr, t), from) == FirstFrom(SlotValues(arr, t), later)
    ensures FoundFrom(arr, t, res, from)
  {
    hide FirstFrom, SlotValues, KeyAt, PlaceOf;
  }

  /** The keys of a table, and so their places, have stayed the same. */
  ghost predicate SameLayout(a: seq<Value>, t: seq<Node>, b: seq<Value>, u: seq<Node>) {
    |b| == |a| && |u| == |t| && forall i :: 0 <= i < |t| ==> u[i].key == t[i].key
  }

  lemma LayoutPlaces(a: seq<Value>, t: seq<Node>, b: seq<Value>, u: seq<Node>, k: Value)
    requires SameLayout(a, t, b, u) && Apart(a, t)
    ensures PlaceOf(b, u, k) == PlaceOf(a, t, k)
    ensures forall p :: 0 <= p < |a| + |t| ==> KeyAt(b, u, p) == KeyAt(a, t, p)
  {
    if k != Nil && !InRange(k, |a|) && (HasNode(t, k) || HasNode(u, k)) {
      var i: nat :| i < |t| && t[i].key == k;
      PlaceOfNode(a, t, i);
      assert u[i].key == k;
    }
  }

  /** Where a traversal stands after `n` calls of luaH_next, the values at the
      call number `i` being `snaps[i]`: assignments to existing keys have been
      made in between. */
  ghost function Stand(snaps: seq<seq<Value>>, size: nat, n: nat): (p: int)
    requires n <= |snaps| && forall i :: 0 <= i < |snaps| ==> |snaps[i]| == size
    ensures -1 <= p <= size && (n > 0 ==> p >= 0)
  {
    if n == 0 then -1
    else
      var q := Stand(snaps, size, n - 1);
      if q == size then size else FirstFrom(snaps[n - 1], q + 1)
  }

  /** A traversal never comes back to a place, so no key is found twice. */
  lemma {:induction false} StandIncreases(snaps: seq<seq<Value>>, size: nat, m: nat, n: nat)
    requires m < n <= |snaps| && forall i :: 0 <= i < |snaps| ==> |snaps[i]| == size
    ensures Stand(snaps, size, m) < Stand(snaps, size, n) || Stand(snaps, size, m) == Stand(snaps, size, n) == size
    ensures Stand(snaps, size, n) == size || Stand(snaps, size, n) >= n - 1
    decreases n
  {
    if m < n - 1 { StandIncreases(snaps, size, m, n - 1); }
    if n > 1 { StandIncreases(snaps, size, 0, n - 1); }
  }

  /** A key that has a value at every call is found, and the traversal ends
      after at most as many calls as there are places, and one. */
  lemma {:induction false} TraversalComplete(snaps: seq<seq<Value>>, size: nat, p: nat, n: nat)
    requires n <= |snaps| && forall i :: 0 <= i < |snaps| ==> |snaps[i]| == size
    requires p < size && (forall i :: 0 <= i < n ==> snaps[i][p] != Nil) && Stand(snaps, size, n) >= p
    ensures exists m: nat :: m <= n && Stand(snaps, size, m) == p
    decreases n
  {
    if Stand(snaps, size, n) > p {
      var q := Stand(snaps, size, n - 1);
      if q >= p { TraversalComplete(snaps, size, p, n - 1); }
    }
  }

  lemma TraversalEnds(snaps: seq<seq<Value>>, size: nat)
    requires |snaps| > size && forall i :: 0 <= i < |snaps| ==> |snaps[i]| == size
    ensures Stand(snaps, size, size + 1) == size
  {
    StandIncreases(snaps, size, 0, size + 1);
  }

  lemma LayoutSlots(a: seq<Value>, t: seq<Node>, b: seq<Value>, u: seq<Node>, k: Value)
    requires SameLayout(a, t, b, u)
    ensures HasSlot(b, u, k) == HasSlot(a, t, k)
  {
    if HasNode(t, k) { var i: nat :| i < |t| && t[i].key == k; assert u[i].key == k; }
  }

  lemma {:induction false} StandStep(snaps: seq<seq<Value>>, size: nat, s: seq<Value>)
    requires |s| == size && forall i :: 0 <= i < |snaps| ==> |snaps[i]| == size
    ensures forall n :: 0 <= n <= |snaps| ==> Stand(snaps + [s], size, n) == Stand(snaps, size, n)
  {
    forall n | 0 <= n <= |snaps| ensures Stand(snaps + [s], size, n) == Stand(snaps, size, n) {
      StandPrefix(snaps, size, s, n);
    }
  }

  lemma {:induction false} StandPrefix(snaps: seq<seq<Value>>, size: nat, s: seq<Value>, n: nat)
    requires |s| == size && n <= |snaps| && forall i :: 0 <= i < |snaps| ==> |snaps[i]| == size
    ensures Stand(snaps + [s], size, n) == Stand(snaps, size, n)
    decreases n
  {
    if n > 0 { StandPrefix(snaps, size, s, n - 1); }
  }

  lemma PlaceKey(arr: seq<Value>, t: seq<Node>, k: Value, p: int)
    requires 0 <= p < |arr| + |t| && k == KeyAt(arr, t, p) && PlaceOf(arr, t, k) == p
    ensures HasSlot(arr, t, k)
  {}

  /** The keys found are keys of the table that had a value when they were
      found, and none is found twice. */
  ghost predicate Visited(arr: seq<Value>, t: seq<Node>, snaps: seq<seq<Value>>, found: seq<Value>) {
    && |snaps| == |found| + 1 && (forall i :: 0 <= i < |snaps| ==> |snaps[i]| == |arr| + |t|)
    && (forall i :: 0 <= i < |found| ==> exists p :: 0 <= p < |arr| + |t| && found[i] == KeyAt(arr, t, p) && snaps[i][p] != Nil)
    && forall i, j :: 0 <= i < j < |found| ==> found[i] != found[j]
  }

  /** Every key that had a value at all calls has been found. */
  ghost predicate Complete(arr: seq<Value>, t: seq<Node>, snaps: seq<seq<Value>>, found: seq<Value>) {
    forall p: nat :: p < |arr| + |t| && Always(snaps, p) ==> KeyAt(arr, t, p) in found
  }

  ghost predicate Always(snaps: seq<seq<Value>>, p: nat) {
    forall i :: 0 <= i < |snaps| ==> p < |snaps[i]| && snaps[i][p] != Nil
  }

  /** The course of a traversal that has come to `key`. */
  ghost predicate Trail(a: seq<Value>, t: seq<Node>, snaps: seq<seq<Value>>, found: seq<Value>, key: Value, more: bool) {
    var size := |a| + |t|;
    && Sized(snaps, size) && |snaps| == (if more then |found| else |found| + 1)
    && (forall i :: 0 <= i < |found| ==> FoundAt(a, t, snaps, found, i))
    && (if more then (key == Nil || HasSlot(a, t, key)) && PlaceOf(a, t, key) == Stand(snaps, size, |snaps|) < size
        else Stand(snaps, size, |snaps|) == size)
  }

  ghost predicate Sized(snaps: seq<seq<Value>>, size: nat) { forall i :: 0 <= i < |snaps| ==> |snaps[i]| == size }

  ghost predicate FoundAt(a: seq<Value>, t: seq<Node>, snaps: seq<seq<Value>>, found: seq<Value>, i: nat)
    requires Sized(snaps, |a| + |t|) && i < |found| && i < |snaps|
  {
    var p := Stand(snaps, |a| + |t|, i + 1);
    0 <= p < |a| + |t| && found[i] == KeyAt(a, t, p) && found[i] != Nil
  }

  ghost function Remaining(a: seq<Value>, t: seq<Node>, snaps: seq<seq<Value>>, found: seq<Value>, key: Value, more: bool): nat
    requires Trail(a, t, snaps, found, key, more)
  {
    if more then |a| + |t| - Stand(snaps, |a| + |t|, |snaps|) else 0
  }

  lemma TrailStart(a: seq<Value>, t: seq<Node>)
    ensures Trail(a, t, [], [], Nil, true)
  {}

  lemma SameLayoutRefl(a: seq<Value>, t: seq<Node>)
    ensures SameLayout(a, t, a, t)
  {}

  /** The key at hand is still a key of the table, and at the same place. */
  lemma TrailKey(a: seq<Value>, t: seq<Node>, b: seq<Value>, u: seq<Node>, snaps: seq<seq<Value>>, found: seq<Value>,
                 key: Value)
    requires Trail(a, t, snaps, found, key, true) && SameLayout(a, t, b, u) && Apart(a, t)
    ensures key == Nil || InRange(key, |b|) || HasNode(u, key)
    ensures PlaceOf(b, u, key) == PlaceOf(a, t, key) >= -1
  {
    hide Stand;
    LayoutPlaces(a, t, b, u, key);
    LayoutSlots(a, t, b, u, key);
  }

  lemma TrailStep(a: seq<Value>, t: seq<Node>, b: seq<Value>, u: seq<Node>, snaps: seq<seq<Value>>, found: seq<Value>,
                  key: Value, e: Entry)
    requires Trail(a, t, snaps, found, key, true) && SameLayout(a, t, b, u) && Apart(a, t)
    requires !e.Invalid? && -1 <= PlaceOf(a, t, key) && PlaceOf(b, u, key) == PlaceOf(a, t, key)
    requires PlaceOf(a, t, key) + 1 <= |b| + |u| && FoundFrom(b, u, e, PlaceOf(a, t, key) + 1)
    ensures var s := SlotValues(b, u);
      && (e.End? ==> Trail(a, t, snaps + [s], found, key, false))
      && (e.Entry? ==> Trail(a, t, snaps + [s], found + [e.key], e.key, true))
      && (e.Entry? ==>
            Remaining(a, t, snaps + [s], found + [e.key], e.key, true) < Remaining(a, t, snaps, found, key, true))
  {
    var s, size := SlotValues(b, u), |a| + |t|;
    var snaps1 := snaps + [s];
    StandStep(snaps, size, s);
    var p := Stand(snaps1, size, |snaps1|);
    assert p == FirstFrom(s, PlaceOf(a, t, key) + 1);
    if e.Entry? {
      LayoutPlaces(a, t, b, u, e.key);
      LayoutSlots(a, t, b, u, e.key);
      PlaceKey(b, u, e.key, p);
      TrailMore(a, t, snaps, found, s, e.key, p);
    } else {
      TrailEnd(a, t, snaps, found, s, key);
    }
  }

  lemma TrailMore(a: seq<Value>, t: seq<Node>, snaps: seq<seq<Value>>, found: seq<Value>, s: seq<Value>, k: Value, p: nat)
    requires Sized(snaps, |a| + |t|) && |s| == |a| + |t| && |snaps| == |found|
    requires forall i :: 0 <= i < |found| ==> FoundAt(a, t, snaps, found, i)
    requires Sized(snaps + [s], |a| + |t|) && p == Stand(snaps + [s], |a| + |t|, |snaps| + 1) < |a| + |t|
    requires k == KeyAt(a, t, p) != Nil && HasSlot(a, t, k) && PlaceOf(a, t, k) == p
    ensures Trail(a, t, snaps + [s], found + [k], k, true)
  {
    hide Stand, KeyAt, PlaceOf, HasSlot, FoundAt, Sized;
    var snaps1, found1 := snaps + [s], found + [k];
    forall i | 0 <= i < |found1| ensures FoundAt(a, t, snaps1, found1, i) {
      if i < |found| { FoundLater(a, t, snaps, found, s, k, i); } else { FoundNow(a, t, snaps1, found1, p); }
    }
  }

  lemma FoundNow(a: seq<Value>, t: seq<Node>, snaps: seq<seq<Value>>, found: seq<Value>, p: nat)
    requires Sized(snaps, |a| + |t|) && 0 < |snaps| == |found| && p == Stand(snaps, |a| + |t|, |snaps|) < |a| + |t|
    requires found[|found| - 1] == KeyAt(a, t, p) != Nil
    ensures FoundAt(a, t, snaps, found, |found| - 1)
  {}

  lemma FoundLater(a: seq<Value>, t: seq<Node>, snaps: seq<seq<Value>>, found: seq<Value>, s: seq<Value>, k: Value, i: nat)
    requires Sized(snaps, |a| + |t|) && Sized(snaps + [s], |a| + |t|) && i < |found| && i < |snaps|
    requires FoundAt(a, t, snaps, found, i) && |s| == |a| + |t|
    ensures FoundAt(a, t, snaps + [s], found, i) && FoundAt(a, t, snaps + [s], found + [k], i)
  {
    StandPrefix(snaps, |a| + |t|, s, i + 1);
    hide Stand, KeyAt;
  }

  lemma TrailEnd(a: seq<Value>, t: seq<Node>, snaps: seq<seq<Value>>, found: seq<Value>, s: seq<Value>, k: Value)
    requires Sized(snaps, |a| + |t|) && |s| == |a| + |t| && |snaps| == |found|
    requires forall i :: 0 <= i < |found| ==> FoundAt(a, t, snaps, found, i)
    requires Sized(snaps + [s], |a| + |t|) && Stand(snaps + [s], |a| + |t|, |snaps| + 1) == |a| + |t|
    ensures Trail(a, t, snaps + [s], found, k, false)
  {
    hide Stand, KeyAt, PlaceOf, HasSlot, FoundAt, Sized;
    forall i | 0 <= i < |found| ensures FoundAt(a, t, snaps + [s], found, i) {
      FoundLater(a, t, snaps, found, s, Nil, i);
    }
  }

  lemma AllVisited(arr: seq<Value>, t: seq<Node>, snaps: seq<seq<Value>>, found: seq<Value>, key: Value)
    requires Trail(arr, t, snaps, found, key, false) && Apart(arr, t)
    ensures Visited(arr, t, snaps, found) && Complete(arr, t, snaps, found)
  {
    var size := |arr| + |t|;
    hide Stand, KeyAt, Apart;
    forall i | 0 <= i < |found|
      ensures exists p :: 0 <= p < size && found[i] == KeyAt(arr, t, p) && snaps[i][p] != Nil
    {
      assert FoundAt(arr, t, snaps, found, i);
      StandFound(snaps, size, i);
    }
    forall i, j | 0 <= i < j < |found| ensures found[i] != found[j] {
      assert FoundAt(arr, t, snaps, found, i) && FoundAt(arr, t, snaps, found, j);
      StandIncreases(snaps, size, i + 1, j + 1);
      KeyOnce(arr, t, Stand(snaps, size, i + 1), Stand(snaps, size, j + 1));
    }
    AllComplete(arr, t, snaps, found);
  }

  lemma StandFound(snaps: seq<seq<Value>>, size: nat, i: nat)
    requires Sized(snaps, size) && i < |snaps| && Stand(snaps, size, i + 1) < size
    ensures Stand(snaps, size, i + 1) >= 0 && snaps[i][Stand(snaps, size, i + 1)] != Nil
  {}

  lemma AllComplete(arr: seq<Value>, t: seq<Node>, snaps: seq<seq<Value>>, found: seq<Value>)
    requires var size := |arr| + |t|;
      && Sized(snaps, size) && |snaps| == |found| + 1 && Stand(snaps, size, |snaps|) == size
      && forall i :: 0 <= i < |found| ==> FoundAt(arr, t, snaps, found, i)
    ensures Complete(arr, t, snaps, found)
  {
    hide FoundAt, KeyAt, Stand, Always;
    forall p: nat | p < |arr| + |t| && Always(snaps, p) ensures KeyAt(arr, t, p) in found {
      OneComplete(arr, t, snaps, found, p);
    }
  }

  lemma OneComplete(arr: seq<Value>, t: seq<Node>, snaps: seq<seq<Value>>, found: seq<Value>, p: nat)
    requires var size := |arr| + |t|;
      && Sized(snaps, size) && |snaps| == |found| + 1 && Stand(snaps, size, |snaps|) == size
      && forall i :: 0 <= i < |found| ==> FoundAt(arr, t, snaps, found, i)
    requires p < |arr| + |t| && Always(snaps, p)
    ensures KeyAt(arr, t, p) in found
  {
    var size := |arr| + |t|;
    hide *;
    StandStart(snaps, size);
    AlwaysAt(snaps, p);
    TraversalComplete(snaps, size, p, |snaps|);
    var m: nat :| m <= |snaps| && Stand(snaps, size, m) == p;
    assert m != 0 && m != |snaps|;
    FoundIs(arr, t, snaps, found, m - 1, p);
  }

  lemma StandStart(snaps: seq<seq<Value>>, size: nat)
    requires Sized(snaps, size)
    ensures Stand(snaps, size, 0) == -1 && forall i :: 0 <= i < |snaps| ==> |snaps[i]| == size
  {}

  lemma AlwaysAt(snaps: seq<seq<Value>>, p: nat)
    requires Always(snaps, p)
    ensures forall i :: 0 <= i < |snaps| ==> p < |snaps[i]| && snaps[i][p] != Nil
  {}

  lemma FoundIs(arr: seq<Value>, t: seq<Node>, snaps: seq<seq<Value>>, found: seq<Value>, i: nat, p: nat)
    requires Sized(snaps, |arr| + |t|) && i < |found| && i < |snaps| && FoundAt(arr, t, snaps, found, i)
    requires Stand(snaps, |arr| + |t|, i + 1) == p < |arr| + |t|
    ensures found[i] == KeyAt(arr, t, p)
  {}

  lemma KeyOnce(arr: seq<Value>, t: seq<Node>, p: nat, q: nat)
    requires Apart(arr, t) && p < q < |arr| + |t| && KeyAt(arr, t, p) != Nil
    ensures KeyAt(arr, t, p) != KeyAt(arr, t, q)
  {
    if p < |arr| && q >= |arr| { assert !InRange(t[q - |arr|].key, |arr|); }
  }

  // ---------------------------------------------------------------------
  // Boundaries

  lemma NothingInDummy(arr: seq<Value>, k: Value)
    requires k != Nil && !InRange(k, |arr|)
    ensures Lookup(arr, [EMPTY], k) == Nil
  {
    assert !HasNode([EMPTY], k);
  }

  lemma SizesFit()
    ensures MAXASIZE <= MAX_INT
  {
    assert Pow2(8) == 256 && Pow2(10) == 1024;
    Pow2Add(8, 8);
    Pow2Add(16, 10);
  }

  /** `n` is present, unless it is 0, and `n + 1` is not. */
  ghost predicate IsBoundary(arr: seq<Value>, t: seq<Node>, n: nat) {
    (n > 0 ==> Lookup(arr, t, Num(n)) != Nil) && Lookup(arr, t, Num(n + 1)) == Nil
  }
}
