/** References to values, as lauxlib.c keeps them in a table: the free ones are
    a list through the table itself, which starts at key 0. */
module LuaRefs {
  import opened Options
  import opened LuaVM
  import opened TableSizes
  import opened TableView
  import T = Table

  const FREELIST_REF: int := 0
  const LUA_REFNIL: int := -1

  type Map = map<Value, Value>

  /** lua_rawgeti */
  function Raw(m: Map, k: int): Value { if Num(k) in m then m[Num(k)] else Nil }

  /** lua_tointeger, on what the allocator itself stores. */
  function ToInteger(v: Value): int { if v.Num? then v.n else 0 }

  /** From `head` on, the table links these references, and no more. */
  ghost predicate Linked(m: Map, head: int, free: seq<int>)
    decreases |free|
  {
    Raw(m, head) == (if free == [] then Nil else Num(free[0])) && (free != [] ==> Linked(m, free[0], free[1..]))
  }

  /** Each of 1 to n is either live or free, once. */
  ghost predicate Partition(live: map<int, Value>, free: seq<int>) {
    && (forall i, j :: 0 <= i < j < |free| ==> free[i] != free[j])
    && (forall r :: r in free ==> 1 <= r <= |live| + |free| && r !in live)
    && (forall r :: r in live ==> 1 <= r <= |live| + |free|)
    && (forall r :: 1 <= r <= |live| + |free| ==> r in live || r in free)
  }

  /** The table holds the values of the live references, and links the free ones
      in this order; together they are 1 to n, and no other number but 0 is a
      key. */
  ghost predicate Holds(m: Map, live: map<int, Value>, free: seq<int>) {
    && Partition(live, free) && Linked(m, FREELIST_REF, free)
    && (forall k :: k in m ==> m[k] != Nil)
    && (forall r :: r in live ==> live[r] != Nil && Raw(m, r) == live[r])
    && (forall k: int :: Num(k) in m ==> 0 <= k <= |live| + |free|)
  }

  lemma {:induction false} LinkedMoved(m: Map, w: Map, a: int, b: int, free: seq<int>)
    requires Linked(m, a, free) && Raw(w, b) == Raw(m, a) && forall r :: r in free ==> Raw(w, r) == Raw(m, r)
    ensures Linked(w, b, free)
    decreases |free|
  {
    if free != [] {
      assert free[0] in free;
      LinkedMoved(m, w, free[0], free[0], free[1..]);
    }
  }

  /** What luaL_ref returns: the head of the free list, or a key behind a
      boundary of the table. */
  function NewRef(m: Map, n: nat): int {
    var r := ToInteger(Raw(m, FREELIST_REF));
    if r != 0 then r else n + 1
  }

  /** luaL_ref on a value that is not nil; `n` is the boundary it gets. */
  function AfterRef(m: Map, n: nat, v: Value): Map {
    var r := NewRef(m, n);
    Assigned(if ToInteger(Raw(m, FREELIST_REF)) != 0 then Assigned(m, Num(FREELIST_REF), Raw(m, r)) else m, Num(r), v)
  }

  function AfterUnref(m: Map, r: int): Map {
    Assigned(Assigned(m, Num(r), Raw(m, FREELIST_REF)), Num(FREELIST_REF), Num(r))
  }

  ghost predicate Boundary(m: Map, n: nat) { (n > 0 ==> Raw(m, n) != Nil) && Raw(m, n + 1) == Nil }

  /** With no free reference there is one boundary only: the number of live
      ones. */
  lemma OneBoundary(m: Map, live: map<int, Value>, n: nat)
    requires Holds(m, live, []) && Boundary(m, n)
    ensures n == |live|
  {
    assert n > 0 ==> Num(n) in m;
    assert 1 <= n + 1 <= |live| ==> n + 1 in live;
  }

  lemma AssignedAt(m: Map, r: int, v: Value)
    ensures forall k: int :: Raw(Assigned(m, Num(r), v), k) == if k == r then v else Raw(m, k)
    ensures (forall k :: k in m ==> m[k] != Nil) ==> forall k :: k in Assigned(m, Num(r), v) ==> Assigned(m, Num(r), v)[k] != Nil
  {
  }

  /** A new reference was not in use, and takes nothing from those that are. */
  lemma RefHolds(m: Map, live: map<int, Value>, free: seq<int>, n: nat, v: Value)
    requires Holds(m, live, free) && v != Nil && (free == [] ==> Boundary(m, n))
    ensures var r := NewRef(m, n);
      && r !in live && r == (if free == [] then |live| + 1 else free[0])
      && Holds(AfterRef(m, n, v), live[r := v], if free == [] then [] else free[1..])
  {
    if free == [] { RefGrows(m, live, n, v); } else { RefReuses(m, live, free, n, v); }
  }

  lemma RefGrows(m: Map, live: map<int, Value>, n: nat, v: Value)
    requires Holds(m, live, []) && v != Nil && Boundary(m, n)
    ensures var r := NewRef(m, n);
      r !in live && r == |live| + 1 && Holds(AfterRef(m, n, v), live[r := v], [])
  {
    OneBoundary(m, live, n);
    AssignedAt(m, n + 1, v);
    LinkedMoved(m, AfterRef(m, n, v), FREELIST_REF, FREELIST_REF, []);
  }

  lemma RefReuses(m: Map, live: map<int, Value>, free: seq<int>, n: nat, v: Value)
    requires Holds(m, live, free) && v != Nil && free != []
    ensures NewRef(m, n) == free[0] && free[0] !in live && Holds(AfterRef(m, n, v), live[free[0] := v], free[1..])
  {
    var r := free[0];
    assert r in free;
    var m1 := Assigned(m, Num(FREELIST_REF), Raw(m, r));
    AssignedAt(m, FREELIST_REF, Raw(m, r));
    AssignedAt(m1, r, v);
    assert forall q :: q in free[1..] ==> q in free && q != r;
    LinkedMoved(m, AfterRef(m, n, v), r, FREELIST_REF, free[1..]);
    TakeFree(live, free, v);
  }

  lemma TakeFree(live: map<int, Value>, free: seq<int>, v: Value)
    requires Partition(live, free) && free != []
    ensures Partition(live[free[0] := v], free[1..])
  {
    var w := live[free[0] := v];
    assert free[0] in free;
    assert free == [free[0]] + free[1..];
    assert w.Keys == live.Keys + {free[0]};
    SizeOfMap(live);
    SizeOfMap(w);
    assert forall r :: r in free[1..] ==> r in free && r != free[0];
  }

  lemma GiveBack(live: map<int, Value>, free: seq<int>, r: int)
    requires Partition(live, free) && r in live
    ensures Partition(live - {r}, [r] + free)
  {
    assert (live - {r}).Keys == live.Keys - {r};
    SizeOfMap(live);
    SizeOfMap(live - {r});
  }

  lemma SizeOfMap(m: map<int, Value>)
    ensures |m| == |m.Keys|
  {
  }

  /** A reference that is given up is the next one to be handed out; the others
      keep their values. */
  lemma UnrefHolds(m: Map, live: map<int, Value>, free: seq<int>, r: int)
    requires Holds(m, live, free) && r in live
    ensures Holds(AfterUnref(m, r), live - {r}, [r] + free)
  {
    var m1 := Assigned(m, Num(r), Raw(m, FREELIST_REF));
    AssignedAt(m, r, Raw(m, FREELIST_REF));
    AssignedAt(m1, FREELIST_REF, Num(r));
    LinkedMoved(m, AfterUnref(m, r), FREELIST_REF, r, free);
    assert ([r] + free)[1..] == free;
    GiveBack(live, free, r);
  }

  lemma AssignedSize(m: Map, k: Value, v: Value)
    requires k in m
    ensures |Assigned(m, k, v)| <= |m|
  {
    var w := Assigned(m, k, v);
    assert w.Keys <= m.Keys;
    SubsetSize(w.Keys, m.Keys);
    assert |w| == |w.Keys| && |m| == |m.Keys|;
  }

  /** What luaL_ref does to the table, step by step. */
  lemma RefSteps(m: Map, live: map<int, Value>, free: seq<int>, n: nat, v: Value)
    requires Holds(m, live, free)
    ensures var head := ToInteger(Raw(m, FREELIST_REF));
      && (head != 0 <==> free != [])
      && (head != 0 ==> Num(FREELIST_REF) in m)
      && NewRef(m, n) == (if head != 0 then head else n + 1) >= 1
      && AfterRef(m, n, v) ==
         Assigned(if head != 0 then Assigned(m, Num(FREELIST_REF), Raw(m, head)) else m, Num(NewRef(m, n)), v)
  {
    if free != [] { assert free[0] in free; }
  }

  lemma UnrefSteps(m: Map, live: map<int, Value>, free: seq<int>, r: int)
    requires Holds(m, live, free) && r in live
    ensures r >= 1 && Num(r) in m
    ensures AfterUnref(m, r) == Assigned(Assigned(m, Num(r), Raw(m, FREELIST_REF)), Num(FREELIST_REF), Num(r))
    ensures Holds(AfterUnref(m, r), live - {r}, [r] + free)
  {
    UnrefHolds(m, live, free, r);
  }

  lemma NothingHolds()
    ensures Holds(map[], map[], [])
  {
  }

  // ---------------------------------------------------------------------
  // On a table

  datatype Result = Done(ref: int) | Overflow

  lemma BoundaryOf(t: T.Table, n: nat)
    requires t.Valid() && T.IsBoundary(t.arr, t.node, n)
    ensures Boundary(t.Contents(), n)
  {
    KeysLookup(t.arr, t.node);
  }

  /** A table that is used through luaL_ref and luaL_unref only. */
  class RefTable {
    const t: T.Table
    ghost var live: map<int, Value>
    ghost var free: seq<int>

    ghost predicate Valid()
      reads this, t
    {
      t.Valid() && Holds(t.Contents(), live, free)
    }

    constructor (t: T.Table)
      requires t.Valid() && t.Contents() == map[]
      ensures Valid() && this.t == t && live == map[] && free == []
    {
      this.t := t;
      live, free := map[], [];
      new;
      NothingHolds();
    }

    method GetI(k: int) returns (v: Value)
      requires t.Valid()
      ensures v == Raw(t.Contents(), k)
    {
      v := t.Get(Num(k));
    }

    lemma Known()
      requires Valid()
      ensures t.Valid() && t.Sound() && Holds(t.Contents(), live, free)
    {
    }

    lemma Again()
      requires t.Valid() && Holds(t.Contents(), live, free)
      ensures Valid()
    {
    }

    /** luaL_ref.  It runs out of room only with a table that is full. */
    method Ref(v: Value) returns (res: Result)
      requires Valid()
      modifies this, t
      ensures v == Nil ==> res == Done(LUA_REFNIL) && unchanged(this) && unchanged(t)
      ensures v != Nil && res.Done? ==>
                Valid() && res.ref >= 1 && res.ref !in old(live) && live == old(live)[res.ref := v]
      ensures v != Nil && res.Done? ==>
                if old(free) == [] then res.ref == |old(live)| + 1 && free == []
                else res.ref == old(free)[0] && free == old(free)[1..]
      ensures res.Overflow? ==> |old(t.Contents())| >= MAXASIZE
    {
      hide *;
      if v == Nil { return Done(LUA_REFNIL); }
      Known();
      ghost var m := t.Contents();
      var head := GetI(FREELIST_REF);
      var ref := ToInteger(head);
      ghost var n: nat := 0;
      RefSteps(m, live, free, n, v);
      if ref != 0 {
        AssignedSize(m, Num(FREELIST_REF), Raw(m, ref));
        var next := GetI(ref);
        var out := t.Put(Num(FREELIST_REF), next);
        if out.Overflow? { return Overflow; }
      } else {
        var j := t.GetN();
        BoundaryOf(t, j);
        n := j;
        ref := j;
        ref := ref + 1;
        RefSteps(m, live, free, n, v);
      }
      var out := t.Put(Num(ref), v);
      if out.Overflow? { return Overflow; }
      RefHolds(m, live, free, n, v);
      live, free := live[ref := v], if free == [] then [] else free[1..];
      res := Done(ref);
      Again();
    }

    /** luaL_unref */
    method Unref(ref: int) returns (res: Result)
      requires Valid() && (ref >= 0 ==> ref in live)
      modifies this, t
      ensures ref < 0 ==> res == Done(ref) && unchanged(this) && unchanged(t)
      ensures ref >= 0 && res.Done? ==> Valid() && live == old(live) - {ref} && free == [ref] + old(free)
      ensures res.Overflow? ==> |old(t.Contents())| >= MAXASIZE
    {
      hide *;
      res := Done(ref);
      if ref < 0 { return; }
      Known();
      ghost var m := t.Contents();
      UnrefSteps(m, live, free, ref);
      AssignedSize(m, Num(ref), Raw(m, FREELIST_REF));
      var head := GetI(FREELIST_REF);
      var out := t.Put(Num(ref), head);
      if out.Overflow? { return Overflow; }
      out := t.Put(Num(FREELIST_REF), Num(ref));
      if out.Overflow? { return Overflow; }
      live, free := live - {ref}, [ref] + free;
      Again();
    }

    /** The value of a live reference. */
    method Value(ref: int) returns (v: Value)
      requires Valid() && ref in live
      ensures v == live[ref]
    {
      v := GetI(ref);
    }
  }
}
