/** The map that the two parts of a table stand for. */
module TableView {
  import opened Options
  import opened LuaVM
  import opened TableLinks
  import opened TableSizes

  predicate InRange(k: Value, n: int) { k.Num? && 1 <= k.n <= n }

  // ---------------------------------------------------------------------
  // Looking up a key

  ghost predicate HasNode(t: seq<Node>, k: Value) { exists i :: 0 <= i < |t| && t[i].key == k }

  ghost function NodeValue(t: seq<Node>, k: Value): Value {
    if HasNode(t, k) then var i :| 0 <= i < |t| && t[i].key == k; t[i].val else Nil
  }

  /** The value of a key: nil if it has none. */
  ghost function Lookup(arr: seq<Value>, t: seq<Node>, k: Value): Value {
    if InRange(k, |arr|) then arr[k.n - 1] else if k == Nil then Nil else NodeValue(t, k)
  }

  /** All keys that have a value. */
  ghost function Keys(arr: seq<Value>, t: seq<Node>): set<Value> {
    Nums(ArrKeys(arr, |arr|)) + UsedKeys(t)
  }

  ghost function Nums(s: set<int>): set<Value> { set k | k in s :: Num(k) }

  ghost function UsedKeys(t: seq<Node>): set<Value> { set i | i in Used(t, 0) :: t[i].key }

  /** The keys in the nodes, with or without a value. */
  ghost function NodeKeys(t: seq<Node>): set<Value> { set i | 0 <= i < |t| && t[i].key != Nil :: t[i].key }

  /** The table as a map. */
  ghost function View(arr: seq<Value>, t: seq<Node>): map<Value, Value> {
    map k | k in Keys(arr, t) :: Lookup(arr, t, k)
  }

  /** No key of the array part is in a node, and only keys have values. */
  ghost predicate Apart(arr: seq<Value>, t: seq<Node>) {
    && Distinct(t)
    && (forall i :: 0 <= i < |t| ==> !InRange(t[i].key, |arr|))
    && (forall i :: 0 <= i < |t| && t[i].key == Nil ==> t[i].val == Nil)
  }

  lemma NodeValueAt(t: seq<Node>, i: nat)
    requires Distinct(t) && i < |t| && t[i].key != Nil
    ensures NodeValue(t, t[i].key) == t[i].val
  {
    assert HasNode(t, t[i].key);
  }

  lemma KeysLookup(arr: seq<Value>, t: seq<Node>)
    requires Apart(arr, t)
    ensures forall k :: k in Keys(arr, t) <==> Lookup(arr, t, k) != Nil
  {
    forall k ensures k in Keys(arr, t) <==> Lookup(arr, t, k) != Nil {
      if InRange(k, |arr|) {
        assert k in Nums(ArrKeys(arr, |arr|)) <==> k.n in ArrKeys(arr, |arr|);
      } else if k != Nil && HasNode(t, k) {
        var i :| 0 <= i < |t| && t[i].key == k;
        NodeValueAt(t, i);
        assert i in Used(t, 0) <==> t[i].val != Nil;
      }
    }
  }

  /** Two tables that look up the same are the same map. */
  lemma ViewSame(arr: seq<Value>, t: seq<Node>, arr1: seq<Value>, t1: seq<Node>)
    requires Apart(arr, t) && Apart(arr1, t1) && forall k :: Lookup(arr1, t1, k) == Lookup(arr, t, k)
    ensures View(arr1, t1) == View(arr, t)
  {
    KeysLookup(arr, t);
    KeysLookup(arr1, t1);
    hide Keys, Lookup;
    assert View(arr1, t1).Keys == View(arr, t).Keys;
  }

  /** The map after one assignment. */
  function Assigned(m: map<Value, Value>, k: Value, v: Value): map<Value, Value> {
    if v == Nil then m - {k} else m[k := v]
  }

  lemma ViewAssigned(arr: seq<Value>, t: seq<Node>, arr1: seq<Value>, t1: seq<Node>, key: Value, v: Value)
    requires Apart(arr, t) && Apart(arr1, t1)
    requires forall k :: Lookup(arr1, t1, k) == if k == key then v else Lookup(arr, t, k)
    ensures View(arr1, t1) == Assigned(View(arr, t), key, v)
  {
    KeysLookup(arr, t);
    KeysLookup(arr1, t1);
    hide Keys, Lookup, Apart;
    var m := View(arr, t);
    forall k ensures k in View(arr1, t1) <==> k in Assigned(m, key, v) {}
    forall k | k in View(arr1, t1) ensures View(arr1, t1)[k] == Assigned(m, key, v)[k] {}
  }

  // ---------------------------------------------------------------------
  // Steps that keep what is looked up

  /** `u` binds the same keys to values as `t`. */
  ghost predicate SameBindings(t: seq<Node>, u: seq<Node>) {
    && (forall i {:trigger t[i]} :: 0 <= i < |t| && t[i].val != Nil ==> exists j :: 0 <= j < |u| && u[j].key == t[i].key && u[j].val == t[i].val)
    && (forall j {:trigger u[j]} :: 0 <= j < |u| && u[j].val != Nil ==> exists i :: 0 <= i < |t| && t[i].key == u[j].key && t[i].val == u[j].val)
  }

  lemma SameLookup(arr: seq<Value>, t: seq<Node>, u: seq<Node>)
    requires Apart(arr, t) && Apart(arr, u) && SameBindings(t, u)
    ensures forall k :: Lookup(arr, u, k) == Lookup(arr, t, k)
  {
    forall k | k != Nil ensures NodeValue(u, k) == NodeValue(t, k) {
      if HasNode(t, k) {
        var i :| 0 <= i < |t| && t[i].key == k;
        NodeValueAt(t, i);
        if t[i].val != Nil {
          var j :| 0 <= j < |u| && u[j].key == t[i].key && u[j].val == t[i].val;
          NodeValueAt(u, j);
        }
      }
      if HasNode(u, k) {
        var j :| 0 <= j < |u| && u[j].key == k;
        NodeValueAt(u, j);
        if u[j].val != Nil {
          var i :| 0 <= i < |t| && t[i].key == u[j].key && t[i].val == u[j].val;
          NodeValueAt(t, i);
        }
      }
    }
  }

  lemma TakeBindings(t: seq<Node>, p: nat, k: Value)
    requires p < |t| && t[p].val == Nil
    ensures SameBindings(t, t[p := t[p].(key := k)])
  {
    var u := t[p := t[p].(key := k)];
    forall i | 0 <= i < |t| && t[i].val != Nil
      ensures exists j :: 0 <= j < |u| && u[j].key == t[i].key && u[j].val == t[i].val
    { assert u[i] == t[i]; }
    forall j | 0 <= j < |u| && u[j].val != Nil
      ensures exists i :: 0 <= i < |t| && t[i].key == u[j].key && t[i].val == u[j].val
    { assert u[j] == t[j]; }
  }

  lemma LinkInBindings(t: seq<Node>, mp: nat, n: nat, k: Value)
    requires mp < |t| && n < |t| && mp != n && t[n].val == Nil
    ensures SameBindings(t, LinkedIn(t, mp, n, k))
  {
    var u := LinkedIn(t, mp, n, k);
    forall i | 0 <= i < |t| && t[i].val != Nil
      ensures exists j :: 0 <= j < |u| && u[j].key == t[i].key && u[j].val == t[i].val
    { assert u[i].key == t[i].key && u[i].val == t[i].val; }
    forall j | 0 <= j < |u| && u[j].val != Nil
      ensures exists i :: 0 <= i < |t| && t[i].key == u[j].key && t[i].val == u[j].val
    { assert u[j].key == t[j].key && u[j].val == t[j].val; }
  }

  lemma MoveBindings(t: seq<Node>, prev: nat, mp: nat, n: nat, k: Value)
    requires prev < |t| && mp < |t| && n < |t| && mp != n && prev != n && prev != mp && t[n].val == Nil
    ensures SameBindings(t, MovedTo(t, prev, mp, n, k))
  {
    var u := MovedTo(t, prev, mp, n, k);
    forall i | 0 <= i < |t| && t[i].val != Nil
      ensures exists j :: 0 <= j < |u| && u[j].key == t[i].key && u[j].val == t[i].val
    {
      var j := if i == mp then n else i;
      assert u[j].key == t[i].key && u[j].val == t[i].val;
    }
    forall j | 0 <= j < |u| && u[j].val != Nil
      ensures exists i :: 0 <= i < |t| && t[i].key == u[j].key && t[i].val == u[j].val
    {
      var i := if j == n then mp else j;
      assert t[i].key == u[j].key && t[i].val == u[j].val;
    }
  }

  // ---------------------------------------------------------------------
  // Room

  ghost function Pick<T>(s: set<T>): (x: T)
    requires s != {}
    ensures x in s
  {
    var x :| x in s;
    x
  }

  lemma {:induction false} NumsCard(s: set<int>)
    ensures |Nums(s)| == |s|
    decreases |s|
  {
    if s != {} {
      var x: int := Pick(s);
      NumsCard(s - {x});
      assert Nums(s) == Nums(s - {x}) + {Num(x)};
    } else {
      assert Nums(s) == {};
    }
  }

  /** A vector whose keys are fewer than its nodes has a free node. */
  lemma {:induction false} FreeNode(t: seq<Node>)
    requires |NodeKeys(t)| < |t| && Distinct(t)
    ensures exists i :: 0 <= i < |t| && t[i].key == Nil
  {
    if forall i :: 0 <= i < |t| ==> t[i].key != Nil {
      AllKeys(t);
    }
  }

  lemma {:induction false} AllKeys(t: seq<Node>)
    requires Distinct(t) && forall i :: 0 <= i < |t| ==> t[i].key != Nil
    ensures |NodeKeys(t)| == |t|
    decreases |t|
  {
    if t != [] {
      var n := |t| - 1;
      AllKeys(t[..n]);
      var u := t[..n];
      assert forall i :: 0 <= i < n ==> u[i] == t[i];
      assert NodeKeys(t) == NodeKeys(u) + {t[n].key};
      assert t[n].key !in NodeKeys(u);
    }
  }

  lemma {:induction false} UsedKeysCard(t: seq<Node>, s: set<int>)
    requires Distinct(t) && forall i :: i in s ==> 0 <= i < |t| && t[i].key != Nil
    ensures |(set i | i in s :: t[i].key)| == |s|
    decreases |s|
  {
    var keys := set i | i in s :: t[i].key;
    if s != {} {
      var x := Pick(s);
      UsedKeysCard(t, s - {x});
      assert keys == (set i | i in s - {x} :: t[i].key) + {t[x].key};
    } else {
      assert keys == {};
    }
  }

  lemma KeysCard(arr: seq<Value>, t: seq<Node>)
    requires Apart(arr, t)
    ensures |Keys(arr, t)| == |ArrKeys(arr, |arr|)| + |Used(t, 0)|
  {
    NumsCard(ArrKeys(arr, |arr|));
    UsedKeysCard(t, Used(t, 0));
    assert Nums(ArrKeys(arr, |arr|)) !! UsedKeys(t);
  }

  /** The integer keys among all keys. */
  ghost function Ints(s: set<Value>): set<int> { set k | k in s && k.Num? :: k.n }

  lemma KeysInts(arr: seq<Value>, t: seq<Node>)
    requires Apart(arr, t)
    ensures Ints(Keys(arr, t)) == ArrKeys(arr, |arr|) + IntKeys(t, 0)
    ensures ArrKeys(arr, |arr|) !! IntKeys(t, 0)
  {
    var s := Ints(Keys(arr, t));
    forall k | k in s ensures k in ArrKeys(arr, |arr|) + IntKeys(t, 0) {
      assert Num(k) in Keys(arr, t);
    }
    forall k | k in ArrKeys(arr, |arr|) ensures k in s { assert Num(k) in Nums(ArrKeys(arr, |arr|)); }
    forall k | k in IntKeys(t, 0) ensures k in s { 
      var i :| 0 <= i < |t| && t[i].val != Nil && t[i].key == Num(k);
      assert i in Used(t, 0);
      assert Num(k) in UsedKeys(t);
    }
  }

  /** The keys that do not fit an array part of size `n`. */
  ghost function Beyond(s: set<Value>, n: nat): set<Value> { set k | k in s && !InRange(k, n) }

  lemma BeyondCard(s: set<Value>, n: nat)
    ensures |Beyond(s, n)| == |s| - |UpTo(Ints(s), n)|
  {
    var a := Nums(UpTo(Ints(s), n));
    NumsCard(UpTo(Ints(s), n));
    forall k | k in s && InRange(k, n) ensures k in a { assert k.n in UpTo(Ints(s), n); }
    assert s == Beyond(s, n) + a;
    assert Beyond(s, n) !! a;
  }

  lemma SubsetSize<X>(a: set<X>, b: set<X>)
    requires a <= b
    ensures |a| <= |b|
  {
    assert b == a + (b - a);
  }
}
