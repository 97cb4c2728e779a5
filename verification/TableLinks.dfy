/** The node vector of ltable.c: chained scatter with Brent's variation.  A
    node's chain starts at the main position of its key. */
module TableLinks {
  import opened Options
  import opened LuaVM

  const NULL: int := -1

  datatype Node = Node(key: Value, val: Value, next: int)

  /** Any hash function: the main position of a key among `n` nodes. */
  type Position = (Value, nat) -> nat

  ghost predicate Hashes(f: Position) { forall k, n :: n > 0 ==> f(k, n) < n }

  // ---------------------------------------------------------------------
  // Chains

  /** Chains lead to nodes in use and never run in a circle, since `rank` goes
      down along them; no two nodes have the same successor. */
  ghost predicate Links(t: seq<Node>, rank: seq<nat>) { |rank| == |t| && Descend(t, rank) && OnePrevious(t) && Free(t) }

  ghost predicate Descend(t: seq<Node>, rank: seq<nat>)
    requires |rank| == |t|
  {
    && (forall i :: 0 <= i < |t| ==> NULL <= t[i].next < |t|)
    && (forall i :: 0 <= i < |t| && t[i].next != NULL ==> rank[t[i].next] < rank[i] && t[t[i].next].key != Nil)
  }

  ghost predicate OnePrevious(t: seq<Node>) {
    forall i, j :: 0 <= i < |t| && 0 <= j < |t| && t[i].next == t[j].next != NULL ==> i == j
  }

  ghost predicate Free(t: seq<Node>) {
    forall i :: 0 <= i < |t| && t[i].key == Nil ==> t[i].next == NULL && t[i].val == Nil
  }

  /** `i` lies on the chain from `m`. */
  ghost predicate Reach(t: seq<Node>, rank: seq<nat>, m: int, i: int)
    requires Links(t, rank)
    decreases if 0 <= m < |t| then rank[m] else 0
  {
    0 <= m < |t| && (m == i || (t[m].next != NULL && Reach(t, rank, t[m].next, i)))
  }

  /** The keys are distinct, and each is on the chain from its main position,
      which holds a key that belongs there. */
  ghost predicate Keyed(t: seq<Node>, rank: seq<nat>, f: Position)
    requires Links(t, rank)
  {
    && Hashes(f)
    && Distinct(t)
    && (forall i :: 0 <= i < |t| && t[i].key != Nil ==> AtMain(t, rank, f, i))
  }

  ghost predicate Distinct(t: seq<Node>) {
    forall i, j :: 0 <= i < |t| && 0 <= j < |t| && t[i].key == t[j].key != Nil ==> i == j
  }

  ghost predicate AtMain(t: seq<Node>, rank: seq<nat>, f: Position, i: nat)
    requires Links(t, rank) && i < |t| && Hashes(f)
  {
    var m := f(t[i].key, |t|);
    t[m].key != Nil && f(t[m].key, |t|) == m && Reach(t, rank, m, i)
  }

  ghost predicate NodesOK(t: seq<Node>, rank: seq<nat>, f: Position) {
    t != [] && Links(t, rank) && Keyed(t, rank, f)
  }

  // ---------------------------------------------------------------------
  // Storing a key or a value where no chain changes

  lemma {:induction false} ReachSame(t: seq<Node>, u: seq<Node>, rank: seq<nat>, m: int, i: int)
    requires Links(t, rank) && Links(u, rank) && |u| == |t| && (forall k :: 0 <= k < |t| ==> u[k].next == t[k].next)
    ensures Reach(u, rank, m, i) == Reach(t, rank, m, i)
    decreases if 0 <= m < |t| then rank[m] else 0
  {
    if 0 <= m < |t| && m != i && t[m].next != NULL { ReachSame(t, u, rank, t[m].next, i); }
  }

  lemma SameLinks(t: seq<Node>, u: seq<Node>, rank: seq<nat>)
    requires Links(t, rank) && |u| == |t| && forall i :: 0 <= i < |t| ==> u[i].next == t[i].next && u[i].key == t[i].key
    requires forall i :: 0 <= i < |t| && t[i].key == Nil ==> u[i].val == Nil
    ensures Links(u, rank)
  {
    assert Descend(u, rank) by { hide OnePrevious, Free; }
    assert OnePrevious(u) by { hide Descend, Free; }
    assert Free(u);
  }

  /** Storing a value under a key. */
  lemma StoreOK(t: seq<Node>, rank: seq<nat>, f: Position, p: nat, v: Value)
    requires NodesOK(t, rank, f) && p < |t| && t[p].key != Nil
    ensures NodesOK(t[p := t[p].(val := v)], rank, f)
  {
    var u := t[p := t[p].(val := v)];
    SameLinks(t, u, rank);
    assert Distinct(u);
    hide Links, Distinct;
    forall i: nat | i < |u| && u[i].key != Nil ensures AtMain(u, rank, f, i) {
      assert AtMain(t, rank, f, i);
      ReachSame(t, u, rank, f(t[i].key, |t|), i);
    }
  }

  /** A key that is not in the table takes over its main position, where no
      value is stored: the chain that runs through the node, if one does, goes
      on as before. */
  lemma TakeOK(t: seq<Node>, rank: seq<nat>, f: Position, p: nat, k: Value)
    requires NodesOK(t, rank, f) && k != Nil && p < |t| && p == f(k, |t|) && t[p].val == Nil
    requires forall i :: 0 <= i < |t| ==> t[i].key != k
    ensures NodesOK(t[p := t[p].(key := k)], rank, f)
  {
    var u := t[p := t[p].(key := k)];
    TakeLinks(t, rank, p, k);
    TakeDistinct(t, p, k);
    hide Links, Distinct, Reach;
    forall i: nat | i < |u| && u[i].key != Nil ensures AtMain(u, rank, f, i) {
      if i == p {
        ReachSelf(u, rank, p);
      } else {
        assert AtMain(t, rank, f, i);
        ReachSame(t, u, rank, f(t[i].key, |t|), i);
      }
    }
  }

  lemma TakeDistinct(t: seq<Node>, p: nat, k: Value)
    requires Distinct(t) && p < |t| && forall i :: 0 <= i < |t| ==> t[i].key != k
    ensures Distinct(t[p := t[p].(key := k)])
  {}

  lemma TakeLinks(t: seq<Node>, rank: seq<nat>, p: nat, k: Value)
    requires Links(t, rank) && k != Nil && p < |t|
    ensures Links(t[p := t[p].(key := k)], rank)
  {
    var u := t[p := t[p].(key := k)];
    assert Descend(u, rank) by { hide OnePrevious, Free; }
    assert OnePrevious(u) by { hide Descend, Free; }
    assert Free(u) by { hide Descend, OnePrevious; }
  }

  // ---------------------------------------------------------------------
  // The colliding node is in its main position: the new key goes to a free
  // node, which is linked in after it

  function LinkedIn(t: seq<Node>, mp: nat, n: nat, k: Value): (u: seq<Node>)
    requires mp < |t| && n < |t|
    ensures |u| == |t|
  {
    t[n := Node(k, t[n].val, t[mp].next)][mp := t[mp].(next := n)]
  }

  function Doubled(rank: seq<nat>, mp: nat, n: nat): (r: seq<nat>)
    requires mp < |rank| && n < |rank|
    ensures |r| == |rank|
    ensures forall i :: 0 <= i < |rank| && i != n ==> r[i] == 2 * rank[i]
    ensures r[n] == if rank[mp] > 0 then 2 * rank[mp] - 1 else 0
  {
    seq(|rank|, i requires 0 <= i < |rank| =>
      if i == n then (if rank[mp] > 0 then 2 * rank[mp] - 1 else 0) else 2 * rank[i])
  }

  /** Room in the ranks below `mp`. */
  function Raised(rank: seq<nat>): (r: seq<nat>)
    ensures |r| == |rank| && forall i :: 0 <= i < |rank| ==> r[i] == rank[i] + 1
  {
    seq(|rank|, i requires 0 <= i < |rank| => rank[i] + 1)
  }

  lemma RaisedOK(t: seq<Node>, rank: seq<nat>)
    requires Links(t, rank)
    ensures Links(t, Raised(rank)) && forall m, i :: Reach(t, Raised(rank), m, i) == Reach(t, rank, m, i)
  {
    forall m, i ensures Reach(t, Raised(rank), m, i) == Reach(t, rank, m, i) { RaisedReach(t, rank, m, i); }
  }

  lemma {:induction false} RaisedReach(t: seq<Node>, rank: seq<nat>, m: int, i: int)
    requires Links(t, rank) && Links(t, Raised(rank))
    ensures Reach(t, Raised(rank), m, i) == Reach(t, rank, m, i)
    decreases if 0 <= m < |t| then rank[m] else 0
  {
    if 0 <= m < |t| && m != i && t[m].next != NULL { RaisedReach(t, rank, t[m].next, i); }
  }

  lemma LinkedInLinks(t: seq<Node>, rank: seq<nat>, mp: nat, n: nat, k: Value)
    requires Links(t, rank) && mp < |t| && n < |t| && mp != n && t[n].key == Nil && t[mp].key != Nil && k != Nil
    requires rank[mp] > 0
    ensures Links(LinkedIn(t, mp, n, k), Doubled(rank, mp, n))
  {}

  lemma {:induction false} LinkedInReach(t: seq<Node>, rank: seq<nat>, mp: nat, n: nat, k: Value, m: int, i: int)
    requires Links(t, rank) && mp < |t| && n < |t| && mp != n && t[n].key == Nil && t[mp].key != Nil && k != Nil
    requires rank[mp] > 0 && Reach(t, rank, m, i) && Links(LinkedIn(t, mp, n, k), Doubled(rank, mp, n))
    ensures Reach(LinkedIn(t, mp, n, k), Doubled(rank, mp, n), m, i)
    decreases rank[m]
  {
    var u, r := LinkedIn(t, mp, n, k), Doubled(rank, mp, n);
    if m != i {
      LinkedInReach(t, rank, mp, n, k, t[m].next, i);
      if m == mp {
        assert u[mp].next == n && u[n].next == t[mp].next;
        assert Reach(u, r, n, i);
      }
    }
  }

  lemma LinkInOK(t: seq<Node>, rank: seq<nat>, f: Position, mp: nat, n: nat, k: Value)
    requires NodesOK(t, rank, f) && mp < |t| && n < |t| && mp != n && t[n].key == Nil && t[mp].key != Nil && k != Nil
    requires rank[mp] > 0 && mp == f(k, |t|) == f(t[mp].key, |t|) && forall i :: 0 <= i < |t| ==> t[i].key != k
    ensures NodesOK(LinkedIn(t, mp, n, k), Doubled(rank, mp, n), f)
  {
    var u, r := LinkedIn(t, mp, n, k), Doubled(rank, mp, n);
    LinkedInLinks(t, rank, mp, n, k);
    assert Distinct(u);
    hide Links, Distinct, Reach, Doubled;
    forall i: nat | i < |u| && u[i].key != Nil ensures AtMain(u, r, f, i) {
      if i == n {
        LinkedNew(u, r, mp, n);
      } else {
        assert AtMain(t, rank, f, i);
        LinkedInReach(t, rank, mp, n, k, f(t[i].key, |t|), i);
      }
    }
  }

  lemma LinkedNew(u: seq<Node>, r: seq<nat>, mp: nat, n: nat)
    requires Links(u, r) && mp < |u| && n < |u| && u[mp].next == n
    ensures Reach(u, r, mp, n)
  {
    assert Reach(u, r, n, n);
  }

  // ---------------------------------------------------------------------
  // The colliding node is out of its main position: it moves to a free node,
  // and the new key takes its place

  function MovedTo(t: seq<Node>, prev: nat, mp: nat, n: nat, k: Value): (u: seq<Node>)
    requires prev < |t| && mp < |t| && n < |t|
    ensures |u| == |t|
  {
    t[prev := t[prev].(next := n)][n := t[mp]][mp := Node(k, Nil, NULL)]
  }

  lemma MovedLinks(t: seq<Node>, rank: seq<nat>, prev: nat, mp: nat, n: nat, k: Value)
    requires Links(t, rank) && prev < |t| && mp < |t| && n < |t| && n != mp && prev != mp && prev != n
    requires t[n].key == Nil && t[mp].key != Nil && k != Nil && t[prev].next == mp
    ensures Links(MovedTo(t, prev, mp, n, k), rank[n := rank[mp]])
  {
    MovedDescend(t, rank, prev, mp, n, k);
    assert forall i :: 0 <= i < |t| ==> t[i].next != n;
    MovedOne(t, prev, mp, n, k);
    assert Free(MovedTo(t, prev, mp, n, k));
    hide *;
    LinksMake(MovedTo(t, prev, mp, n, k), rank[n := rank[mp]]);
  }

  lemma LinksMake(t: seq<Node>, rank: seq<nat>)
    requires |rank| == |t| && Descend(t, rank) && OnePrevious(t) && Free(t)
    ensures Links(t, rank)
  {}

  lemma MovedDescend(t: seq<Node>, rank: seq<nat>, prev: nat, mp: nat, n: nat, k: Value)
    requires Links(t, rank) && prev < |t| && mp < |t| && n < |t| && n != mp && prev != mp && prev != n
    requires t[n].key == Nil && t[mp].key != Nil && k != Nil && t[prev].next == mp
    ensures Descend(MovedTo(t, prev, mp, n, k), rank[n := rank[mp]])
  {
    hide Free;
    var u, r := MovedTo(t, prev, mp, n, k), rank[n := rank[mp]];
    forall i | 0 <= i < |u| && u[i].next != NULL
      ensures 0 <= u[i].next < |u| && r[u[i].next] < r[i] && u[u[i].next].key != Nil
    {
      if i == n {
        assert u[i].next == t[mp].next != mp;
      } else if i != prev && i != mp {
        assert u[i].next == t[i].next && t[i].next != n;
      }
    }
  }

  lemma MovedOne(t: seq<Node>, prev: nat, mp: nat, n: nat, k: Value)
    requires OnePrevious(t) && prev < |t| && mp < |t| && n < |t| && n != mp && prev != mp && prev != n
    requires (forall i :: 0 <= i < |t| ==> t[i].next != n) && t[prev].next == mp
    ensures OnePrevious(MovedTo(t, prev, mp, n, k))
  {
    var u := MovedTo(t, prev, mp, n, k);
    forall i, j | 0 <= i < |u| && 0 <= j < |u| && u[i].next == u[j].next != NULL ensures i == j {
      var x, y := if i == n then mp else i, if j == n then mp else j;
      assert i != mp && j != mp;
    }
  }

  lemma {:induction false} MovedReach(t: seq<Node>, rank: seq<nat>, prev: nat, mp: nat, n: nat, k: Value, m: int, i: int)
    requires Links(t, rank) && prev < |t| && mp < |t| && n < |t| && n != mp && prev != mp && prev != n
    requires t[n].key == Nil && t[mp].key != Nil && k != Nil && t[prev].next == mp
    requires Links(MovedTo(t, prev, mp, n, k), rank[n := rank[mp]])
    requires Reach(t, rank, m, i) && m != mp && m != n
    ensures Reach(MovedTo(t, prev, mp, n, k), rank[n := rank[mp]], m, if i == mp then n else i)
    decreases rank[m]
  {
    var u, r := MovedTo(t, prev, mp, n, k), rank[n := rank[mp]];
    if m != i {
      var x := t[m].next;
      if x == mp {
        assert m == prev && u[prev].next == n && u[n].next == t[mp].next;
        if i == mp {
          assert Reach(u, r, n, n);
        } else {
          MovedReach(t, rank, prev, mp, n, k, t[mp].next, i);
          assert Reach(u, r, n, i);
        }
      } else {
        MovedReach(t, rank, prev, mp, n, k, x, i);
        assert u[m].next == x;
      }
    }
  }

  lemma MoveOK(t: seq<Node>, rank: seq<nat>, f: Position, prev: nat, mp: nat, n: nat, k: Value)
    requires NodesOK(t, rank, f) && prev < |t| && mp < |t| && n < |t| && n != mp && prev != mp && prev != n
    requires t[n].key == Nil && t[mp].key != Nil && k != Nil && t[prev].next == mp
    requires mp == f(k, |t|) != f(t[mp].key, |t|) && forall i :: 0 <= i < |t| ==> t[i].key != k
    ensures NodesOK(MovedTo(t, prev, mp, n, k), rank[n := rank[mp]], f)
  {
    var u, r := MovedTo(t, prev, mp, n, k), rank[n := rank[mp]];
    MovedLinks(t, rank, prev, mp, n, k);
    MovedDistinct(t, prev, mp, n, k);
    hide Links, Distinct, Reach, MovedTo;
    forall i: nat | i < |u| && u[i].key != Nil ensures AtMain(u, r, f, i) {
      MovedNode(t, prev, mp, n, k, i);
      if i == mp {
        ReachSelf(u, r, mp);
      } else {
        var j := if i == n then mp else i;
        assert AtMain(t, rank, f, j);
        MovedMain(t, rank, f, prev, mp, n, k, j);
      }
    }
  }

  lemma MovedNode(t: seq<Node>, prev: nat, mp: nat, n: nat, k: Value, i: nat)
    requires prev < |t| && mp < |t| && n < |t| && n != mp && prev != mp && prev != n && i < |t|
    ensures MovedTo(t, prev, mp, n, k)[i].key == if i == mp then k else if i == n then t[mp].key else t[i].key
  {}

  lemma MovedMain(t: seq<Node>, rank: seq<nat>, f: Position, prev: nat, mp: nat, n: nat, k: Value, j: nat)
    requires NodesOK(t, rank, f) && prev < |t| && mp < |t| && n < |t| && n != mp && prev != mp && prev != n
    requires t[n].key == Nil && t[mp].key != Nil && k != Nil && t[prev].next == mp
    requires mp == f(k, |t|) != f(t[mp].key, |t|) && Links(MovedTo(t, prev, mp, n, k), rank[n := rank[mp]])
    requires j < |t| && t[j].key != Nil
    ensures var u, r, m := MovedTo(t, prev, mp, n, k), rank[n := rank[mp]], f(t[j].key, |t|);
      m < |t| && u[m].key == t[m].key != Nil && f(t[m].key, |t|) == m && Reach(u, r, m, if j == mp then n else j)
  {
    var m := f(t[j].key, |t|);
    assert AtMain(t, rank, f, j);
    assert m != mp && m != n;
    hide Links, Distinct, Reach;
    MovedReach(t, rank, prev, mp, n, k, m, j);
  }

  lemma ReachSelf(t: seq<Node>, rank: seq<nat>, m: nat)
    requires Links(t, rank) && m < |t|
    ensures Reach(t, rank, m, m)
  {}

  lemma MovedDistinct(t: seq<Node>, prev: nat, mp: nat, n: nat, k: Value)
    requires Distinct(t) && prev < |t| && mp < |t| && n < |t| && n != mp && prev != mp && prev != n
    requires t[n].key == Nil && forall i :: 0 <= i < |t| ==> t[i].key != k
    ensures Distinct(MovedTo(t, prev, mp, n, k))
  {}
}
