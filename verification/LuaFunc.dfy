/** lfunc.c in place: the open upvalues of a thread are in a list sorted by
    level, and the open upvalues of all threads in a ring through uvhead. */
module LuaFunc {
  import opened Options
  import opened LuaVM
  import U = LuaUpvals

  class UpVal {
    /** Whether `v` points into the stack, and where; else it points to `value`. */
    var open: bool
    var level: nat
    var value: Value
    /** What isdead tells. */
    var dead: bool
    /** The list of the thread. */
    var chain: UpVal?
    /** The ring. */
    var prev: UpVal?
    var next: UpVal?

    constructor (level: nat)
      ensures open && this.level == level && !dead && chain == null
    {
      open, this.level, value, dead := true, level, Nil, false;
      chain, prev, next := null, null, null;
    }

    ghost function View(): U.Uv
      reads `open, `level, `value, `dead
    {
      if open then U.Open(level, dead) else U.Closed(value)
    }
  }

  /** The ring, from uvhead on. */
  ghost predicate Ring(circle: seq<UpVal>)
    reads circle`next, circle`prev
  {
    && |circle| > 0
    && (forall j, k :: 0 <= j < k < |circle| ==> circle[j] != circle[k])
    && (forall k :: 0 <= k < |circle| ==> Linked(circle[k], circle[if k + 1 < |circle| then k + 1 else 0]))
  }

  ghost predicate Linked(x: UpVal, y: UpVal)
    reads x`next, y`prev
  {
    x.next == y && y.prev == x
  }

  function At(list: seq<UpVal>, k: int): UpVal? { if 0 <= k < |list| then list[k] else null }

  ghost predicate Chained(list: seq<UpVal>)
    reads list`chain
  {
    forall k :: 0 <= k < |list| ==> list[k].chain == At(list, k + 1)
  }

  /** Puts a new upvalue behind uvhead. */
  method LinkAfter(head: UpVal, uv: UpVal, ghost circle: seq<UpVal>)
    requires Ring(circle) && circle[0] == head && uv !in circle
    modifies circle`next, circle`prev, uv`next, uv`prev
    ensures Ring([head, uv] + circle[1..])
  {
    uv.prev := head;
    uv.next := head.next;
    var n := uv.next;
    assert Linked(circle[0], circle[if 1 < |circle| then 1 else 0]);
    n.prev := uv;
    head.next := uv;
    ghost var c := [head, uv] + circle[1..];
    assert forall k :: 1 <= k < |circle| ==> c[k + 1] == circle[k];
    forall k | 0 <= k < |c| ensures Linked(c[k], c[if k + 1 < |c| then k + 1 else 0]) {
      if k >= 2 {
        assert old(Linked(circle[k - 1], circle[if k < |circle| then k else 0]));
      }
    }
  }

  /** unlinkupval */
  method UnlinkUpval(uv: UpVal, ghost circle: seq<UpVal>, ghost i: nat)
    requires Ring(circle) && 0 < i < |circle| && circle[i] == uv
    modifies circle`next, circle`prev
    ensures Ring(circle[..i] + circle[i + 1..])
  {
    assert Linked(circle[i - 1], circle[i]);
    assert Linked(circle[i], circle[if i + 1 < |circle| then i + 1 else 0]);
    var p, n := uv.prev, uv.next;
    n.prev := p;
    p.next := n;
    ghost var c := circle[..i] + circle[i + 1..];
    assert forall k :: 0 <= k < i ==> c[k] == circle[k];
    assert forall k :: i <= k < |c| ==> c[k] == circle[k + 1];
    forall k | 0 <= k < |c| ensures Linked(c[k], c[if k + 1 < |c| then k + 1 else 0]) {
      if k < i - 1 {
        assert old(Linked(circle[k], circle[k + 1]));
      } else if k >= i {
        assert old(Linked(circle[k + 1], circle[if k + 2 < |circle| then k + 2 else 0]));
      }
    }
  }

  /** Puts `uv` between `pp` and `p` in the list; returns its new head. */
  method InsertChain(head: UpVal?, ghost list: seq<UpVal>, ghost k: nat, uv: UpVal, pp: UpVal?, p: UpVal?)
    returns (h: UpVal?)
    requires Chained(list) && head == At(list, 0) && uv !in list
    requires k <= |list| && p == At(list, k) && pp == At(list, k - 1)
    requires forall i, j :: 0 <= i < j < |list| ==> list[i] != list[j]
    modifies list`chain, uv`chain
    ensures Chained(list[..k] + [uv] + list[k..]) && h == At(list[..k] + [uv] + list[k..], 0)
  {
    uv.chain := p;
    h := head;
    if pp == null { h := uv; } else { pp.chain := uv; }
    ghost var c := list[..k] + [uv] + list[k..];
    assert forall j :: 0 <= j < k ==> c[j] == list[j];
    assert forall j :: k < j < |c| ==> c[j] == list[j - 1];
  }

  /** What is linked where. */
  ghost predicate ShapeOf(circle: seq<UpVal>, uvhead: UpVal, all: set<UpVal>, open: seq<UpVal>, head: UpVal?) {
    && |circle| > 0 && circle[0] == uvhead && uvhead !in all
    && (forall u :: u in open ==> u in all && u in circle)
    && (forall u :: u in all && u in circle ==> u in open)
    && head == At(open, 0)
  }

  lemma ShapeGrown(circle: seq<UpVal>, uvhead: UpVal, all: set<UpVal>, open: seq<UpVal>, head: UpVal?, k: nat, uv: UpVal)
    requires ShapeOf(circle, uvhead, all, open, At(open, 0)) && k <= |open| && uv !in all && uv !in circle
    requires head == At(open[..k] + [uv] + open[k..], 0)
    ensures ShapeOf([uvhead, uv] + circle[1..], uvhead, all + {uv}, open[..k] + [uv] + open[k..], head)
  {
    forall u | u in open[..k] + [uv] + open[k..] ensures u == uv || u in open {
    }
    forall u | u in open ensures u in open[..k] + [uv] + open[k..] {
      assert open == open[..k] + open[k..];
    }
    forall u | u in circle && u != uvhead ensures u in circle[1..] {
    }
  }

  /** The ring without its node `i`, and the list without its head. */
  lemma ShapeShrunk(circle: seq<UpVal>, uvhead: UpVal, all: set<UpVal>, open: seq<UpVal>, i: nat, rest: set<UpVal>)
    requires ShapeOf(circle, uvhead, all, open, At(open, 0)) && open != []
    requires forall j, k :: 0 <= j < k < |open| ==> open[j] != open[k]
    requires forall j, k :: 0 <= j < k < |circle| ==> circle[j] != circle[k]
    requires 0 < i < |circle| && circle[i] == open[0] && (rest == all || rest == all - {open[0]})
    ensures ShapeOf(circle[..i] + circle[i + 1..], uvhead, rest, open[1..], At(open, 1))
  {
    var c := circle[..i] + circle[i + 1..];
    forall u | u in open[1..] ensures u in rest && u in c {
      var j :| 0 <= j < |open[1..]| && open[1..][j] == u;
      assert u == open[j + 1] && u != open[0] && u in open;
      var k :| 0 <= k < |circle| && circle[k] == u;
      assert c[if k < i then k else k - 1] == u;
    }
    forall u | u in rest && u in c ensures u in open[1..] {
      var k :| 0 <= k < |c| && c[k] == u;
      assert u == circle[if k < i then k else k + 1] && u != open[0];
      var j :| 0 <= j < |open| && open[j] == u;
      assert open[1..][j - 1] == u;
    }
  }

  /** Takes the k-th node, `p`, out of the list; returns its new head. */
  method UnlinkChain(head: UpVal?, ghost list: seq<UpVal>, ghost k: nat, pp: UpVal?, p: UpVal) returns (h: UpVal?)
    requires Chained(list) && head == At(list, 0)
    requires k < |list| && p == list[k] && pp == At(list, k - 1)
    requires forall i, j :: 0 <= i < j < |list| ==> list[i] != list[j]
    modifies list`chain
    ensures Chained(list[..k] + list[k + 1..]) && h == At(list[..k] + list[k + 1..], 0)
    ensures p.chain == old(p.chain) == At(list[..k] + list[k + 1..], k)
  {
    h := head;
    if pp == null { h := p.chain; } else { pp.chain := p.chain; }
    ghost var c := list[..k] + list[k + 1..];
    assert forall j :: 0 <= j < k ==> c[j] == list[j];
    assert forall j :: k <= j < |c| ==> c[j] == list[j + 1];
  }

  /** The ring without its node `i`, and the list without its node `k`. */
  lemma ShapeWithout(circle: seq<UpVal>, uvhead: UpVal, all: set<UpVal>, open: seq<UpVal>, k: nat, i: nat, head: UpVal?)
    requires ShapeOf(circle, uvhead, all, open, At(open, 0)) && k < |open|
    requires forall j, l :: 0 <= j < l < |open| ==> open[j] != open[l]
    requires forall j, l :: 0 <= j < l < |circle| ==> circle[j] != circle[l]
    requires 0 < i < |circle| && circle[i] == open[k] && head == At(open[..k] + open[k + 1..], 0)
    ensures ShapeOf(circle[..i] + circle[i + 1..], uvhead, all - {open[k]}, open[..k] + open[k + 1..], head)
  {
    var c, o := circle[..i] + circle[i + 1..], open[..k] + open[k + 1..];
    forall u | u in o ensures u in all - {open[k]} && u in c {
      var j :| 0 <= j < |o| && o[j] == u;
      assert u == open[if j < k then j else j + 1] && u != open[k] && u in open;
      var l :| 0 <= l < |circle| && circle[l] == u;
      assert c[if l < i then l else l - 1] == u;
    }
    forall u | u in all - {open[k]} && u in c ensures u in o {
      var l :| 0 <= l < |c| && c[l] == u;
      assert u == circle[if l < i then l else l + 1];
      var j :| 0 <= j < |open| && open[j] == u;
      assert o[if j < k then j else j - 1] == u;
    }
  }

  lemma RingPlace(circle: seq<UpVal>, uvhead: UpVal, all: set<UpVal>, open: seq<UpVal>, head: UpVal?, k: nat)
    returns (i: nat)
    requires ShapeOf(circle, uvhead, all, open, head) && Ring(circle) && k < |open|
    ensures 0 < i < |circle| && circle[i] == open[k]
    ensures forall j, l :: 0 <= j < l < |circle| ==> circle[j] != circle[l]
  {
    assert open[k] in open;
    i :| 0 <= i < |circle| && circle[i] == open[k];
  }

  lemma Cut(list: seq<UpVal>, k: nat)
    requires k < |list|
    ensures At(list[..k] + list[k + 1..], k - 1) == At(list, k - 1)
  {
  }

  lemma ChainTail(list: seq<UpVal>)
    requires Chained(list) && list != []
    ensures Chained(list[1..]) && list[0].chain == At(list, 1)
  {
  }

  lemma RingIndex(circle: seq<UpVal>, uvhead: UpVal, all: set<UpVal>, open: seq<UpVal>, head: UpVal?) returns (i: nat)
    requires ShapeOf(circle, uvhead, all, open, head) && Ring(circle) && head != null
    ensures open != [] && head == open[0] && At(open, 0) == head
    ensures 0 < i < |circle| && circle[i] == head
    ensures forall j, k :: 0 <= j < k < |circle| ==> circle[j] != circle[k]
  {
    assert head == open[0] && open[0] in open;
    i :| 0 <= i < |circle| && circle[i] == head;
  }

  /** A thread.  `closures` are the Lua functions that have been made, each with
      its upvalues; `all` are the upvalues of this thread that have not been
      freed, `open` its list, and `circle` the ring, which other threads share. */
  class LuaState {
    var stack: seq<Value>
    var openupval: UpVal?
    const uvhead: UpVal
    var closures: seq<seq<UpVal>>
    ghost var all: set<UpVal>
    ghost var open: seq<UpVal>
    ghost var circle: seq<UpVal>

    ghost function Abs(): U.State<UpVal>
      reads this, all
    {
      U.State(stack, map u | u in all :: u.View(), open, closures)
    }

    ghost predicate Shape()
      reads this
    {
      ShapeOf(circle, uvhead, all, open, openupval)
    }

    ghost predicate Valid()
      reads this, all, circle, open
    {
      Shape() && Ring(circle) && Chained(open) && U.WF(Abs())
    }

    constructor (n: nat)
      ensures Valid() && Abs() == U.State(seq(n, k => Nil), map[], [], [])
    {
      stack := seq(n, k => Nil);
      openupval := null;
      closures, all, open := [], {}, [];
      var h := new UpVal(0);
      h.next, h.prev := h, h;
      uvhead := h;
      circle := [h];
    }

    method GetUpval(c: nat, b: nat) returns (v: Value)
      requires Valid() && b < |U.Upvals(Abs(), c)|
      ensures U.Enabled(Abs(), U.GetUp(c, b)) && U.Step(Abs(), U.GetUp(c, b)) == (Abs(), Some(v))
    {
      hide U.WF, U.OpenOK, U.Step, U.Enabled, U.Upvals;
      U.GetUpStep(Abs(), c, b);
      U.HeldUpval(Abs(), c, b);
      var uv := closures[c][b];
      v := if uv.open then stack[uv.level] else uv.value;
    }

    /** setobj(L, uv->v, ra) */
    method Assign(uv: UpVal, v: Value)
      requires uv in all && (uv.open ==> uv.level < |stack|) && U.OpenOK(Abs())
      modifies `stack, uv`value
      ensures Abs() == U.Set(old(Abs()), uv, v)
    {
      hide U.OpenOK;
      ghost var s := Abs();
      if uv.open { stack := stack[uv.level := v]; } else { uv.value := v; }
      assert Abs().uvs == U.Set(s, uv, v).uvs;
    }

    method SetUpval(c: nat, b: nat, v: Value)
      requires Valid() && b < |U.Upvals(Abs(), c)|
      modifies `stack, all`value
      ensures Valid() && U.Enabled(old(Abs()), U.SetUp(c, b, v)) && Abs() == U.Step(old(Abs()), U.SetUp(c, b, v)).0
    {
      hide *;
      ghost var s := Abs();
      Kept();
      U.SetUpStep(s, c, b, v);
      U.HeldUpval(s, c, b);
      InAbs(closures[c][b]);
      Assign(closures[c][b], v);
      Again();
    }

    lemma Kept()
      requires Valid()
      ensures Shape() && Ring(circle) && Chained(open) && U.WF(Abs())
      ensures Abs().closures == closures && Abs().stack == stack && Abs().open == open && Abs().uvs.Keys == all
    {
    }

    lemma Again()
      requires Shape() && Ring(circle) && Chained(open) && U.WF(Abs())
      ensures Valid()
    {
    }

    lemma Grown(s: U.State<UpVal>, uv: UpVal, level: nat)
      requires stack == s.stack && closures == s.closures && all == s.uvs.Keys + {uv}
      requires forall u :: u in s.uvs && u != uv ==> u.View() == s.uvs[u]
      requires uv.open && uv.level == level && !uv.dead
      ensures Abs() == U.State(s.stack, s.uvs[uv := U.Open(level, false)], open, s.closures)
    {
      assert Abs().uvs == s.uvs[uv := U.Open(level, false)];
    }

    lemma Views()
      ensures forall u :: u in all ==> Abs().uvs[u] == u.View()
    {
    }

    lemma InAbs(uv: UpVal)
      requires uv in Abs().uvs
      ensures uv in all && Abs().uvs[uv].Open? == uv.open && (uv.open ==> Abs().uvs[uv] == U.Open(uv.level, uv.dead))
    {
    }

    method SetLocal(a: nat, v: Value)
      requires Valid() && a < |stack|
      modifies `stack
      ensures Valid() && Abs() == U.Step(old(Abs()), U.SetLocal(a, v)).0
    {
      hide U.WF;
      ghost var s := Abs();
      U.StepWF(s, U.SetLocal(a, v));
      stack := stack[a := v];
      assert Abs().uvs == s.uvs;
    }

    /** The k-th upvalue of the list. */
    lemma Nth(k: nat)
      requires Valid() && k < |open|
      ensures U.OpenOK(Abs()) && open[k].open && open[k] in all && open[k].level == U.Level(Abs(), k) < |stack|
      ensures open[k].chain == At(open, k + 1)
    {
      U.ListAt(Abs(), k);
    }

    lemma Start()
      requires Valid()
      ensures openupval == At(open, 0) && At(open, |open|) == null && At(open, -1) == null && (forall k :: 0 <= k < |open| ==> At(open, k) == open[k])
      ensures U.OpenOK(Abs()) && U.Descending(Abs())
    {
    }

    /** The loop of luaF_findupval: the first upvalue that is not above the
        level, and the one before it. */
    method FindPlace(level: nat) returns (pp: UpVal?, p: UpVal?, ghost k: nat)
      requires Valid()
      ensures U.OpenOK(Abs()) && U.Descending(Abs()) && k <= |open| == |Abs().open|
      ensures p == At(open, k) && pp == At(open, k - 1) && (p != null <==> k < |open|)
      ensures k == U.Walk(Abs(), level, 0) == U.Walk(Abs(), level, k)
      ensures p != null ==> p == open[k] && p in all && p.level == U.Level(Abs(), k)
    {
      hide *;
      Kept();
      Start();
      pp, p, k := null, openupval, 0;
      while p != null && p.level >= level
        invariant 0 <= k <= |open| && p == At(open, k) && pp == At(open, k - 1)
        invariant U.Walk(Abs(), level, 0) == U.Walk(Abs(), level, k)
        decreases |open| - k
      {
        Nth(k);
        if p.level == level { break; }
        U.WalkOn(Abs(), level, k);
        pp, p := p, p.chain;
        k := k + 1;
      }
      if k < |open| { Nth(k); }
      U.WalkOn(Abs(), level, k);
    }

    /** luaF_findupval */
    method FindUpval(level: nat) returns (uv: UpVal)
      requires Valid() && level < |stack|
      modifies `openupval, `all, `open, `circle, all`dead, all`chain, circle`next, circle`prev
      ensures Valid() && U.Names(old(Abs()), level, uv) && Abs() == U.FindUpval(old(Abs()), level, uv)
      ensures fresh(all - old(all)) && (forall i :: 0 <= i < |circle| ==> circle[i] in old(circle) || fresh(circle[i]))
    {
      hide *;
      var pp, p;
      ghost var k;
      pp, p, k := FindPlace(level);
      if p != null && p.level == level {
        Revive(p, k);
        return p;
      }
      uv := NewOpen(level, pp, p, k);
    }

    method Revive(p: UpVal, ghost k: nat)
      requires Valid() && k < |open| && p == open[k]
      requires k == U.Walk(Abs(), p.level, k) == U.Walk(Abs(), p.level, 0)
      modifies p`dead
      ensures Valid() && U.Names(old(Abs()), p.level, p) && Abs() == U.FindUpval(old(Abs()), p.level, p)
    {
      hide U.WF, U.FindUpval, U.Names, U.Walk, U.OpenOK, U.Descending, Ring, Chained;
      ghost var s := Abs();
      Nth(k);
      U.FindOld(s, p.level, k);
      if p.dead { p.dead := false; }
      assert Abs().uvs == s.uvs[p := U.Open(p.level, false)];
    }

    /** A new upvalue, put between `pp` and `p` in the list. */
    method NewOpen(level: nat, pp: UpVal?, p: UpVal?, ghost k: nat) returns (uv: UpVal)
      requires Valid() && level < |stack| && k <= |open| && p == At(open, k) && pp == At(open, k - 1)
      requires k == U.Walk(Abs(), level, 0) && (k < |open| ==> U.Level(Abs(), k) != level)
      modifies `openupval, `all, `open, `circle, all`chain, circle`next, circle`prev
      ensures Valid() && U.Names(old(Abs()), level, uv) && Abs() == U.FindUpval(old(Abs()), level, uv)
      ensures all == old(all) + {uv} && fresh(uv) && (forall i :: 0 <= i < |circle| ==> circle[i] in old(circle) || circle[i] == uv)
    {
      hide *;
      ghost var s := Abs();
      Kept();
      Members();
      Views();
      uv := new UpVal(level);
      U.FindNew(s, level, uv, k);
      openupval := InsertChain(openupval, open, k, uv, pp, p);
      ghost var list := open[..k] + [uv] + open[k..];
      assert Chained(list);
      LinkAfter(uvhead, uv, circle);
      assert Chained(list);
      assert forall u :: u in s.uvs ==> u != uv && u.View() == s.uvs[u];
      ShapeGrown(circle, uvhead, all, open, openupval, k, uv);
      Adopt(s, uv, level, list, [uvhead, uv] + circle[1..]);
    }

    ghost method Adopt(s: U.State<UpVal>, uv: UpVal, level: nat, list: seq<UpVal>, ring: seq<UpVal>)
      requires stack == s.stack && closures == s.closures && all == s.uvs.Keys
      requires forall u :: u in s.uvs && u != uv ==> u.View() == s.uvs[u]
      requires uv.open && uv.level == level && !uv.dead
      requires ShapeOf(ring, uvhead, all + {uv}, list, openupval) && Ring(ring) && Chained(list)
      requires U.WF(U.State(s.stack, s.uvs[uv := U.Open(level, false)], list, s.closures))
      modifies `open, `all, `circle
      ensures all == old(all) + {uv} && circle == ring
      ensures Valid() && Abs() == U.State(s.stack, s.uvs[uv := U.Open(level, false)], list, s.closures)
    {
      hide *;
      open := list;
      all := all + {uv};
      circle := ring;
      Grown(s, uv, level);
      Made();
    }

    lemma Made()
      requires ShapeOf(circle, uvhead, all, open, openupval) && Ring(circle) && Chained(open) && U.WF(Abs())
      ensures Valid()
    {
    }

    lemma Members()
      requires Valid()
      ensures ShapeOf(circle, uvhead, all, open, openupval)
      ensures |circle| > 0 && circle[0] == uvhead && forall u :: u in open ==> u in all
      ensures forall j, k :: 0 <= j < k < |open| ==> open[j] != open[k]
    {
      forall j, k | 0 <= j < k < |open| ensures open[j] != open[k] { U.DistinctOpen(Abs(), j, k); }
    }

    /** luaF_close */
    method Close(level: nat)
      requires Valid()
      modifies `openupval, `all, `open, `circle, all`open, all`value, circle`next, circle`prev
      ensures Valid() && Abs() == U.Close(old(Abs()), level)
      ensures all <= old(all) && (forall k :: 0 <= k < |circle| ==> circle[k] in old(circle))
    {
      hide *;
      ghost var s := Abs();
      Kept();
      while openupval != null && openupval.level >= level
        invariant Valid() && U.WF(s) && U.WF(Abs()) && U.Close(Abs(), level) == U.Close(s, level)
        invariant all <= old(all) && (forall k :: 0 <= k < |circle| ==> circle[k] in old(circle))
        decreases |open|
      {
        First();
        U.CloseOn(Abs(), level);
        CloseFirst();
      }
      First();
      U.CloseOn(Abs(), level);
    }

    lemma First()
      requires Valid()
      ensures Abs().open == open && U.OpenOK(Abs()) && (openupval == null <==> open == [])
      ensures open != [] ==> openupval == open[0] && openupval in all && openupval.level == U.Level(Abs(), 0)
    {
      if open != [] { U.ListAt(Abs(), 0); }
    }

    method CloseFirst()
      requires Valid() && openupval != null
      modifies `openupval, `all, `open, `circle, openupval`open, openupval`value, circle`next, circle`prev
      ensures open == old(open)[1..] && old(open) != []
      ensures Valid() && U.WF(old(Abs())) && old(Abs()).open != [] && Abs() == U.CloseFirst(old(Abs())) && U.WF(Abs())
      ensures all <= old(all) && (forall k :: 0 <= k < |circle| ==> circle[k] in old(circle))
    {
      hide *;
      ghost var s := Abs();
      Kept();
      Members();
      Views();
      var uv := openupval;
      ghost var i := RingIndex(circle, uvhead, all, open, uv);
      Nth(0);
      InAbs(uv);
      U.CloseFirstIs(s);
      ChainTail(open);
      openupval := uv.chain;
      UnlinkUpval(uv, circle, i);
      ghost var rest := if uv.dead then all - {uv} else all;
      ShapeShrunk(circle, uvhead, all, open, i, rest);
      if !uv.dead {
        uv.value := stack[uv.level];
        uv.open := false;
      }
      Release(s, uv, rest, circle[..i] + circle[i + 1..]);
    }

    ghost method Release(s: U.State<UpVal>, uv: UpVal, rest: set<UpVal>, ring: seq<UpVal>)
      requires stack == s.stack && closures == s.closures && open == s.open != [] && uv == open[0]
      requires forall u :: u in s.uvs && u != uv ==> u.View() == s.uvs[u]
      requires U.WF(s) && uv in s.uvs && s.uvs[uv].Open? && s.uvs[uv].dead == uv.dead && s.uvs[uv].level < |stack|
      requires rest == if uv.dead then s.uvs.Keys - {uv} else s.uvs.Keys
      requires !uv.dead ==> !uv.open && uv.value == stack[s.uvs[uv].level]
      requires ShapeOf(ring, uvhead, rest, open[1..], openupval) && Ring(ring) && Chained(open[1..])
      modifies `open, `all, `circle
      ensures all == rest && circle == ring && open == old(open)[1..]
      ensures Valid() && Abs() == U.CloseFirst(s) && U.WF(Abs())
    {
      hide *;
      U.CloseFirstIs(s);
      open := open[1..];
      all := rest;
      circle := ring;
      Shrunk(s, uv);
      Made();
    }

    lemma Shrunk(s: U.State<UpVal>, uv: UpVal)
      requires stack == s.stack && closures == s.closures && uv in s.uvs
      requires forall u :: u in s.uvs && u != uv ==> u.View() == s.uvs[u]
      requires all == if uv.dead then s.uvs.Keys - {uv} else s.uvs.Keys
      requires !uv.dead ==> !uv.open
      ensures Abs() == U.State(s.stack, if uv.dead then s.uvs - {uv} else s.uvs[uv := U.Closed(uv.value)], open, s.closures)
    {
      assert Abs().uvs == if uv.dead then s.uvs - {uv} else s.uvs[uv := U.Closed(uv.value)];
    }

    ghost predicate InReach(c: nat, src: U.Source)
      reads `stack, `closures
    {
      match src
      case Local(b) => b < |stack|
      case Up(b) => c < |closures| && b < |closures[c]|
    }

    method CaptureOne(c: nat, src: U.Source) returns (uv: UpVal)
      requires Valid() && InReach(c, src)
      modifies `openupval, `all, `open, `circle, all`dead, all`chain, circle`next, circle`prev
      ensures Valid() && U.WF(old(Abs())) && U.CanCapture(old(Abs()), U.Upvals(old(Abs()), c), src, uv)
      ensures Abs() == U.Capture(old(Abs()), U.Upvals(old(Abs()), c), src, uv)
      ensures forall u :: u in all ==> u in old(all) || fresh(u)
      ensures forall i :: 0 <= i < |circle| ==> circle[i] in old(circle) || fresh(circle[i])
    {
      hide U.WF, U.OpenOK, U.Descending, U.Names, U.FindUpval, Valid, Ring, Chained;
      Kept();
      match src {
        case Local(b) => uv := FindUpval(b);
        case Up(b) => uv := closures[c][b];
      }
    }

    /** The program gives up its last reference to a closure. */
    method Drop(c: nat)
      requires Valid() && c < |closures|
      modifies `closures
      ensures Valid() && U.WF(old(Abs())) && U.Enabled(old(Abs()), U.Drop(c))
      ensures Abs() == U.Step(old(Abs()), U.Drop(c)).0
    {
      hide *;
      Kept();
      Views();
      U.DropStep(Abs(), c);
      ghost var t := Abs();
      closures := closures[c := []];
      Extended(t);
      Again();
    }

    /** The whites are flipped: these upvalues have not been marked. */
    method Condemn(dead: set<UpVal>)
      requires Valid() && U.Enabled(Abs(), U.Condemn(dead))
      modifies all`dead
      ensures Valid() && U.WF(old(Abs())) && Abs() == U.Step(old(Abs()), U.Condemn(dead)).0
    {
      hide *;
      Kept();
      ghost var s := Abs();
      U.CondemnStep(s, dead);
      Views();
      AreOpen(dead);
      forall u | u in dead { u.dead := true; }
      NowDead(s, dead);
      Again();
    }

    lemma AreOpen(dead: set<UpVal>)
      requires Valid() && U.Enabled(Abs(), U.Condemn(dead))
      ensures forall u :: u in dead ==> u in all && u.open && Abs().uvs[u].Open? && u.level == Abs().uvs[u].level
    {
    }

    lemma NowDead(s: U.State<UpVal>, dead: set<UpVal>)
      requires stack == s.stack && closures == s.closures && open == s.open && all == s.uvs.Keys
      requires U.WF(s) && U.Enabled(s, U.Condemn(dead))
      requires forall u :: u in all ==>
        if u in dead then u.open && u.level == s.uvs[u].level && u.dead else u.View() == s.uvs[u]
      ensures Abs() == U.Condemned(s, dead)
    {
      assert Abs().uvs == U.Condemned(s, dead).uvs;
    }

    lemma IsDead(k: nat)
      requires Valid() && k < |open|
      ensures open[k] in Abs().uvs && Abs().uvs[open[k]] == U.Open(open[k].level, open[k].dead)
      ensures Abs().open == open
    {
      U.ListAt(Abs(), k);
    }

    /** unlinkupval and luaF_freeupval for the k-th of the list, which is dead;
        returns the next. */
    method FreeOpen(pp: UpVal?, p: UpVal, ghost k: nat) returns (next: UpVal?)
      requires Valid() && k < |open| && p == open[k] && pp == At(open, k - 1) && p.dead
      modifies `openupval, `all, `open, `circle, open`chain, circle`next, circle`prev
      ensures Valid() && U.WF(old(Abs())) && |old(Abs()).open| == |old(open)| && U.WF(Abs())
      ensures Abs() == U.Without(old(Abs()), k) && open == old(open)[..k] + old(open)[k + 1..]
      ensures next == At(open, k) && pp == At(open, k - 1)
      ensures all <= old(all) && (forall i :: 0 <= i < |circle| ==> circle[i] in old(circle))
    {
      hide *;
      ghost var s := Abs();
      Kept();
      Members();
      Views();
      Nth(k);
      IsDead(k);
      U.WithoutIs(s, k);
      U.WithoutWF(s, k);
      Cut(open, k);
      ghost var i := RingPlace(circle, uvhead, all, open, openupval, k);
      openupval := UnlinkChain(openupval, open, k, pp, p);
      next := p.chain;
      ghost var list := open[..k] + open[k + 1..];
      assert Chained(list);
      UnlinkUpval(p, circle, i);
      assert Chained(list);
      ShapeWithout(circle, uvhead, all, open, k, i, openupval);
      Forget(s, k, circle[..i] + circle[i + 1..]);
    }

    ghost method Forget(s: U.State<UpVal>, k: nat, ring: seq<UpVal>)
      requires stack == s.stack && closures == s.closures && open == s.open && all == s.uvs.Keys && k < |open|
      requires forall u :: u in s.uvs ==> u.View() == s.uvs[u]
      requires U.WF(s) && U.WF(U.Without(s, k))
      requires ShapeOf(ring, uvhead, all - {open[k]}, open[..k] + open[k + 1..], openupval)
      requires Ring(ring) && Chained(open[..k] + open[k + 1..])
      modifies `open, `all, `circle
      ensures all == old(all) - {old(open)[k]} && circle == ring && open == old(open)[..k] + old(open)[k + 1..]
      ensures Valid() && Abs() == U.Without(s, k) && U.WF(Abs())
    {
      hide *;
      U.WithoutIs(s, k);
      all := all - {open[k]};
      open := open[..k] + open[k + 1..];
      circle := ring;
      Forgotten(s, k);
      Made();
    }

    lemma Forgotten(s: U.State<UpVal>, k: nat)
      requires stack == s.stack && closures == s.closures && k < |s.open| && all == s.uvs.Keys - {s.open[k]}
      requires forall u :: u in s.uvs ==> u.View() == s.uvs[u]
      ensures Abs() == U.State(s.stack, s.uvs - {s.open[k]}, open, s.closures)
    {
      assert Abs().uvs == s.uvs - {s.open[k]};
    }

    /** One turn of sweeplist: a dead upvalue is freed, another passed. */
    method SweepNode(pp: UpVal?, p: UpVal, ghost k: nat) returns (pp1: UpVal?, p1: UpVal?, ghost k1: nat)
      requires Valid() && k < |open| && p == open[k] && pp == At(open, k - 1)
      modifies `openupval, `all, `open, `circle, open`chain, circle`next, circle`prev
      ensures Valid() && U.WF(old(Abs())) && U.WF(Abs()) && k1 <= |open| == |Abs().open|
      ensures |old(Abs()).open| == |old(open)| && U.SweepFrom(Abs(), k1) == U.SweepFrom(old(Abs()), k)
      ensures p1 == At(open, k1) && pp1 == At(open, k1 - 1) && |open| - k1 < |old(open)| - k
      ensures all <= old(all) && (forall i :: 0 <= i < |circle| ==> circle[i] in old(circle))
      ensures forall i :: 0 <= i < |open| ==> open[i] in all
    {
      hide *;
      Kept();
      Start();
      Members();
      Nth(k);
      U.SweepOn(Abs(), k);
      IsDead(k);
      if p.dead {
        p1 := FreeOpen(pp, p, k);
        pp1, k1 := pp, k;
        Kept();
        Members();
      } else {
        pp1, p1, k1 := p, p.chain, k + 1;
      }
    }

    /** sweeplist on the list of open upvalues. */
    method SweepOpen()
      requires Valid()
      modifies `openupval, `all, `open, `circle, all`chain, circle`next, circle`prev
      ensures Valid() && U.WF(old(Abs())) && Abs() == U.Step(old(Abs()), U.SweepOpen).0
    {
      hide *;
      ghost var s := Abs();
      Kept();
      Start();
      Members();
      var pp: UpVal?, p := null, openupval;
      ghost var k := 0;
      while p != null
        invariant Valid() && U.WF(s) && U.WF(Abs()) && 0 <= k <= |open| == |Abs().open|
        invariant p == At(open, k) && pp == At(open, k - 1)
        invariant U.SweepFrom(Abs(), k) == U.SweepFrom(s, 0)
        invariant all <= old(all) && (forall i :: 0 <= i < |circle| ==> circle[i] in old(circle))
        invariant forall i :: 0 <= i < |open| ==> open[i] in all
        decreases |open| - k
      {
        InList(k);
        pp, p, k := SweepNode(pp, p, k);
      }
      InList(k);
      U.SweepOn(Abs(), k);
      U.SweepStep(s);
    }

    lemma InList(k: nat)
      requires k <= |open|
      ensures At(open, k) != null <==> k < |open|
      ensures k < |open| ==> At(open, k) == open[k]
    {
    }

    /** OP_CLOSURE: `c` is the running closure. */
    method MakeClosure(c: nat, srcs: seq<U.Source>) returns (ghost ids: seq<UpVal>)
      requires Valid()
      requires forall i :: 0 <= i < |srcs| ==> InReach(c, srcs[i])
      modifies this, all, circle
      ensures Valid() && U.WF(old(Abs())) && U.Enabled(old(Abs()), U.MakeClosure(c, srcs, ids))
      ensures Abs() == U.Step(old(Abs()), U.MakeClosure(c, srcs, ids)).0
    {
      hide *;
      ghost var s, from := Abs(), U.Upvals(Abs(), c);
      Kept();
      U.NoCaptures(s, from, srcs);
      var ups: seq<UpVal> := [];
      var j := 0;
      while j < |srcs|
        invariant 0 <= j <= |srcs| && Valid() && U.WF(s) && stack == s.stack && closures == s.closures
        invariant U.CanCaptures(s, from, srcs[..j], ups) && Abs() == U.Captures(s, from, srcs[..j], ups)
        invariant forall u :: u in all ==> u in old(all) || fresh(u)
        invariant forall i :: 0 <= i < |circle| ==> circle[i] in old(circle) || fresh(circle[i])
      {
        Reach(c, srcs[j], s);
        var uv := CaptureOne(c, srcs[j]);
        U.CapturesOn(s, from, srcs, j, ups, uv);
        ups := ups + [uv];
        j := j + 1;
      }
      Kept();
      assert srcs[..j] == srcs;
      U.MakeClosureStep(s, c, srcs, ups);
      Views();
      ghost var t := Abs();
      closures := closures + [ups];
      ids := ups;
      Extended(t);
      Again();
    }

    lemma Extended(t: U.State<UpVal>)
      requires stack == t.stack && open == t.open && all == t.uvs.Keys
      requires forall u :: u in all ==> t.uvs[u] == u.View()
      ensures Abs() == U.State(t.stack, t.uvs, t.open, closures)
    {
      assert Abs().uvs == t.uvs;
    }

    lemma Reach(c: nat, src: U.Source, s: U.State<UpVal>)
      requires Valid() && s.closures == closures && s.stack == stack
      ensures U.Upvals(Abs(), c) == U.Upvals(s, c)
    {
    }
  }
}
