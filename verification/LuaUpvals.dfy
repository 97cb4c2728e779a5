/** What the upvalues of lfunc.c mean: closures that capture a variable share
    one cell with the stack slot, and keep it when the slot goes away. */
module LuaUpvals {
  import opened Options
  import opened LuaVM

  // ---------------------------------------------------------------------
  // Upvalues as the source keeps them

  /** An open upvalue points into the stack; `dead` is what isdead tells. */
  datatype Uv = Open(level: nat, dead: bool) | Closed(v: Value)

  /** `open` is the list at L->openupval. */
  datatype State<Id(==)> = State(stack: seq<Value>, uvs: map<Id, Uv>, open: seq<Id>, closures: seq<seq<Id>>)

  predicate OpenOK<Id(==)>(s: State<Id>) {
    && (forall k :: 0 <= k < |s.open| ==> s.open[k] in s.uvs && s.uvs[s.open[k]].Open?)
    && (forall id :: id in s.uvs && s.uvs[id].Open? ==> id in s.open && s.uvs[id].level < |s.stack|)
  }

  function Level<Id(==)>(s: State<Id>, k: nat): nat
    requires k < |s.open| && OpenOK(s)
  {
    s.uvs[s.open[k]].level
  }

  /** The list is strictly descending, so that no level has two upvalues. */
  predicate Descending<Id(==)>(s: State<Id>)
    requires OpenOK(s)
  {
    forall j, k :: 0 <= j < k < |s.open| ==> Level(s, j) > Level(s, k)
  }

  predicate Held<Id(==)>(s: State<Id>, id: Id) { id in s.uvs && (s.uvs[id].Open? ==> !s.uvs[id].dead) }

  predicate WF<Id(==)>(s: State<Id>) {
    && OpenOK(s) && Descending(s)
    && (forall c, i :: 0 <= c < |s.closures| && 0 <= i < |s.closures[c]| ==> Held(s, s.closures[c][i]))
  }

  lemma Parts<Id>(s: State<Id>)
    requires WF(s)
    ensures OpenOK(s) && Descending(s)
  {
  }

  /** The k-th open upvalue. */
  lemma ListAt<Id>(s: State<Id>, k: nat)
    requires WF(s) && k < |s.open|
    ensures OpenOK(s) && s.open[k] in s.uvs && s.uvs[s.open[k]].Open?
    ensures s.uvs[s.open[k]].level == Level(s, k) < |s.stack|
  {
  }

  lemma DistinctOpen<Id>(s: State<Id>, j: nat, k: nat)
    requires WF(s) && j < k < |s.open|
    ensures s.open[j] != s.open[k]
  {
    assert Level(s, j) > Level(s, k);
  }

  /** Where the walk of luaF_findupval and of luaF_close gets to. */
  function Walk<Id(==)>(s: State<Id>, level: nat, k: nat): (n: nat)
    requires OpenOK(s) && Descending(s) && k <= |s.open|
    ensures k <= n <= |s.open|
    ensures forall j :: k <= j < n ==> Level(s, j) > level
    ensures forall j :: n <= j < |s.open| ==> Level(s, j) <= level
    decreases |s.open| - k
  {
    if k < |s.open| && Level(s, k) > level then Walk(s, level, k + 1) else k
  }

  /** `id` is what luaF_findupval returns for a level: the upvalue of that
      level, or one that is new. */
  predicate Names<Id(==)>(s: State<Id>, level: nat, id: Id)
    requires OpenOK(s) && Descending(s)
  {
    var k := Walk(s, level, 0);
    if k < |s.open| && Level(s, k) == level then id == s.open[k] else id !in s.uvs
  }

  /** luaF_findupval: the upvalue of the level is brought back to life, or the
      new one is put in its place in the list. */
  function FindUpval<Id(==)>(s: State<Id>, level: nat, id: Id): State<Id>
    requires OpenOK(s) && Descending(s)
  {
    var k := Walk(s, level, 0);
    var uvs := s.uvs[id := Open(level, false)];
    if k < |s.open| && Level(s, k) == level then s.(uvs := uvs)
    else s.(uvs := uvs, open := s.open[..k] + [id] + s.open[k..])
  }

  /** One round of luaF_close: a dead upvalue is freed, a live one takes over
      the value. */
  function CloseFirst<Id(==)>(s: State<Id>): State<Id>
    requires OpenOK(s) && s.open != []
  {
    var id := s.open[0];
    var uv := s.uvs[id];
    s.(uvs := if uv.dead then s.uvs - {id} else s.uvs[id := Closed(s.stack[uv.level])], open := s.open[1..])
  }

  lemma CloseFirstIs<Id>(s: State<Id>)
    requires WF(s) && s.open != []
    ensures var id := s.open[0];
      && OpenOK(s) && id in s.uvs && s.uvs[id].Open? && s.uvs[id].level < |s.stack|
      && CloseFirst(s) ==
         State(s.stack, if s.uvs[id].dead then s.uvs - {id} else s.uvs[id := Closed(s.stack[s.uvs[id].level])],
               s.open[1..], s.closures)
    ensures WF(CloseFirst(s))
  {
    CloseFirstWF(s);
  }

  lemma CloseOn<Id>(s: State<Id>, level: nat)
    requires WF(s)
    ensures s.open == [] || Level(s, 0) < level ==> Close(s, level) == s
    ensures s.open != [] && Level(s, 0) >= level ==>
              WF(CloseFirst(s)) && Close(s, level) == Close(CloseFirst(s), level)
  {
    if s.open != [] { CloseFirstWF(s); }
  }

  lemma CloseFirstWF<Id>(s: State<Id>)
    requires WF(s) && s.open != []
    ensures WF(CloseFirst(s))
  {
    var t := CloseFirst(s);
    forall k | 0 <= k < |t.open| ensures t.open[k] == s.open[k + 1] && t.open[k] != s.open[0] && t.open[k] in t.uvs {
      assert Level(s, 0) > Level(s, k + 1);
    }
    forall id | id in t.uvs && t.uvs[id].Open? ensures id in t.open {
      var k :| 0 <= k < |s.open| && s.open[k] == id;
      assert k > 0 && t.open[k - 1] == id;
    }
    forall j, k | 0 <= j < k < |t.open| ensures Level(t, j) > Level(t, k) {
      assert Level(s, j + 1) > Level(s, k + 1);
    }
    forall c, i | 0 <= c < |t.closures| && 0 <= i < |t.closures[c]| ensures Held(t, t.closures[c][i]) {
      assert Held(s, s.closures[c][i]);
    }
  }

  /** luaF_close */
  function Close<Id(==)>(s: State<Id>, level: nat): (t: State<Id>)
    requires WF(s)
    ensures WF(t) && t.stack == s.stack && t.closures == s.closures
    decreases |s.open|
  {
    if s.open == [] || Level(s, 0) < level then s
    else
      CloseFirstWF(s);
      Close(CloseFirst(s), level)
  }

  /** The k-th of the list is unlinked and freed. */
  function Without<Id(==)>(s: State<Id>, k: nat): State<Id>
    requires OpenOK(s) && k < |s.open|
  {
    s.(uvs := s.uvs - {s.open[k]}, open := s.open[..k] + s.open[k + 1..])
  }

  lemma WithoutWF<Id>(s: State<Id>, k: nat)
    requires WF(s) && k < |s.open| && s.uvs[s.open[k]].dead
    ensures WF(Without(s, k))
  {
    var t := Without(s, k);
    assert forall j :: 0 <= j < k ==> t.open[j] == s.open[j];
    assert forall j :: k <= j < |t.open| ==> t.open[j] == s.open[j + 1];
    forall j | 0 <= j < |s.open| && j != k ensures s.open[j] != s.open[k] {
      if j < k { DistinctOpen(s, j, k); } else { DistinctOpen(s, k, j); }
    }
    forall id | id in t.uvs && t.uvs[id].Open? ensures id in t.open {
      var j :| 0 <= j < |s.open| && s.open[j] == id;
      assert t.open[if j < k then j else j - 1] == id;
    }
    assert OpenOK(t);
    assert forall j :: 0 <= j < |t.open| ==> Level(t, j) == Level(s, if j < k then j else j + 1);
    forall c, i | 0 <= c < |t.closures| && 0 <= i < |t.closures[c]| ensures Held(t, t.closures[c][i]) {
      assert Held(s, s.closures[c][i]);
    }
  }

  /** sweeplist on the list of open upvalues: the dead are freed. */
  function SweepFrom<Id(==)>(s: State<Id>, k: nat): (t: State<Id>)
    requires WF(s) && k <= |s.open|
    ensures WF(t) && t.stack == s.stack && t.closures == s.closures
    decreases |s.open| - k
  {
    if k == |s.open| then s
    else if s.uvs[s.open[k]].dead then
      WithoutWF(s, k);
      SweepFrom(Without(s, k), k)
    else SweepFrom(s, k + 1)
  }

  lemma SweepOn<Id>(s: State<Id>, k: nat)
    requires WF(s) && k <= |s.open|
    ensures k == |s.open| ==> SweepFrom(s, k) == s
    ensures k < |s.open| ==> s.open[k] in s.uvs && s.uvs[s.open[k]].Open?
    ensures k < |s.open| && !s.uvs[s.open[k]].dead ==> SweepFrom(s, k) == SweepFrom(s, k + 1)
    ensures k < |s.open| && s.uvs[s.open[k]].dead ==>
              WF(Without(s, k)) && SweepFrom(s, k) == SweepFrom(Without(s, k), k)
  {
    if k < |s.open| && s.uvs[s.open[k]].dead { WithoutWF(s, k); }
  }

  lemma WithoutIs<Id>(s: State<Id>, k: nat)
    requires WF(s) && k < |s.open|
    ensures OpenOK(s)
    ensures Without(s, k) == State(s.stack, s.uvs - {s.open[k]}, s.open[..k] + s.open[k + 1..], s.closures)
  {
  }

  /** The value that an upvalue stands for: *uv->v. */
  function Get<Id(==)>(s: State<Id>, id: Id): Value
    requires OpenOK(s) && id in s.uvs
  {
    match s.uvs[id]
    case Open(l, _) => s.stack[l]
    case Closed(v) => v
  }

  function Set<Id(==)>(s: State<Id>, id: Id, v: Value): (t: State<Id>)
    requires OpenOK(s) && id in s.uvs
  {
    match s.uvs[id]
    case Open(l, _) => s.(stack := s.stack[l := v])
    case Closed(_) => s.(uvs := s.uvs[id := Closed(v)])
  }

  lemma SetWF<Id>(s: State<Id>, id: Id, v: Value)
    requires WF(s) && id in s.uvs
    ensures WF(Set(s, id, v))
  {
    var t := Set(s, id, v);
    assert forall j :: 0 <= j < |s.open| ==> Level(t, j) == Level(s, j);
    forall c, i | 0 <= c < |t.closures| && 0 <= i < |t.closures[c]| ensures Held(t, t.closures[c][i]) {
      assert Held(s, s.closures[c][i]);
    }
  }

  lemma FindUpvalWF<Id>(s: State<Id>, level: nat, id: Id)
    requires WF(s) && level < |s.stack| && Names(s, level, id)
    ensures WF(FindUpval(s, level, id))
    ensures id in s.uvs ==> s.uvs[id].Open? && s.uvs[id].level == level
  {
    var t := FindUpval(s, level, id);
    var k := Walk(s, level, 0);
    if k < |s.open| && Level(s, k) == level {
      assert forall j :: 0 <= j < |s.open| ==> Level(t, j) == Level(s, j);
    } else {
      Inserted(s, k, level, id);
    }
  }

  /** The walk has passed all levels above, and the next is not this one. */
  lemma FindNew<Id>(s: State<Id>, level: nat, id: Id, k: nat)
    requires WF(s) && level < |s.stack| && id !in s.uvs
    requires k == Walk(s, level, 0) && (k < |s.open| ==> Level(s, k) != level)
    ensures Names(s, level, id) && k <= |s.open|
    ensures FindUpval(s, level, id) ==
            State(s.stack, s.uvs[id := Open(level, false)], s.open[..k] + [id] + s.open[k..], s.closures)
    ensures WF(FindUpval(s, level, id))
  {
    FindUpvalWF(s, level, id);
  }

  lemma FindOld<Id>(s: State<Id>, level: nat, k: nat)
    requires WF(s) && k < |s.open| && Level(s, k) == level && k == Walk(s, level, k) == Walk(s, level, 0)
    ensures Names(s, level, s.open[k])
    ensures FindUpval(s, level, s.open[k]) ==
            State(s.stack, s.uvs[s.open[k] := Open(level, false)], s.open, s.closures)
    ensures WF(FindUpval(s, level, s.open[k]))
  {
    FindUpvalWF(s, level, s.open[k]);
  }

  lemma WalkOn<Id>(s: State<Id>, level: nat, k: nat)
    requires WF(s) && k <= |s.open|
    ensures k < |s.open| && Level(s, k) > level ==> Walk(s, level, k) == Walk(s, level, k + 1)
    ensures k == |s.open| || Level(s, k) <= level ==> Walk(s, level, k) == k
  {
  }

  function Inserting<Id(==)>(s: State<Id>, k: nat, level: nat, id: Id): State<Id>
    requires k <= |s.open|
  {
    s.(uvs := s.uvs[id := Open(level, false)], open := s.open[..k] + [id] + s.open[k..])
  }

  lemma InsertedOpen<Id>(s: State<Id>, k: nat, level: nat, id: Id)
    requires OpenOK(s) && level < |s.stack| && id !in s.uvs && k <= |s.open|
    ensures var t := Inserting(s, k, level, id);
      && OpenOK(t) && |t.open| == |s.open| + 1 && Level(t, k) == level
      && (forall j :: 0 <= j < k ==> Level(t, j) == Level(s, j))
      && (forall j :: k < j < |t.open| ==> Level(t, j) == Level(s, j - 1))
  {
    var t := Inserting(s, k, level, id);
    assert forall j :: 0 <= j < k ==> t.open[j] == s.open[j];
    assert forall j :: k < j < |t.open| ==> t.open[j] == s.open[j - 1];
    assert t.open[k] == id;
    forall i | i in t.uvs && t.uvs[i].Open? ensures i in t.open {
      if i != id {
        var j :| 0 <= j < |s.open| && s.open[j] == i;
        assert t.open[if j < k then j else j + 1] == i;
      }
    }
  }

  lemma Inserted<Id>(s: State<Id>, k: nat, level: nat, id: Id)
    requires WF(s) && level < |s.stack| && id !in s.uvs && k <= |s.open|
    requires forall j :: 0 <= j < k ==> Level(s, j) > level
    requires forall j :: k <= j < |s.open| ==> Level(s, j) < level
    ensures WF(Inserting(s, k, level, id))
  {
    hide OpenOK, Level;
    var t := Inserting(s, k, level, id);
    InsertedOpen(s, k, level, id);
    forall c, i | 0 <= c < |t.closures| && 0 <= i < |t.closures[c]| ensures Held(t, t.closures[c][i]) {
      assert Held(s, s.closures[c][i]);
    }
  }

  // ---------------------------------------------------------------------
  // Programs

  /** What OP_CLOSURE captures: a register, or an upvalue of the running
      closure. */
  datatype Source = Local(b: nat) | Up(b: nat)

  predicate CanCapture<Id(==)>(s: State<Id>, from: seq<Id>, src: Source, id: Id)
    requires WF(s)
  {
    match src
    case Local(b) => b < |s.stack| && Names(s, b, id)
    case Up(b) => b < |from| && id == from[b]
  }

  function Capture<Id(==)>(s: State<Id>, from: seq<Id>, src: Source, id: Id): (t: State<Id>)
    requires WF(s) && CanCapture(s, from, src, id)
    ensures WF(t) && t.stack == s.stack && t.closures == s.closures
  {
    match src
    case Local(b) => FindUpvalWF(s, b, id); FindUpval(s, b, id)
    case Up(_) => s
  }

  /** The loop of OP_CLOSURE; `ids` are the upvalues of the new closure. */
  predicate CanCaptures<Id(==)>(s: State<Id>, from: seq<Id>, srcs: seq<Source>, ids: seq<Id>)
    requires WF(s)
    ensures CanCaptures(s, from, srcs, ids) ==> |ids| == |srcs|
    decreases |srcs|, 0
  {
    var n := |srcs| - 1;
    if n < 0 then ids == []
    else |ids| == n + 1 && CanCaptures(s, from, srcs[..n], ids[..n])
         && CanCapture(Captures(s, from, srcs[..n], ids[..n]), from, srcs[n], ids[n])
  }

  function Captures<Id(==)>(s: State<Id>, from: seq<Id>, srcs: seq<Source>, ids: seq<Id>): (t: State<Id>)
    requires WF(s) && CanCaptures(s, from, srcs, ids)
    ensures WF(t) && t.stack == s.stack && t.closures == s.closures
    decreases |srcs|
  {
    var n := |srcs| - 1;
    if n < 0 then s else Capture(Captures(s, from, srcs[..n], ids[..n]), from, srcs[n], ids[n])
  }

  lemma NoCaptures<Id>(s: State<Id>, from: seq<Id>, srcs: seq<Source>)
    requires WF(s)
    ensures CanCaptures(s, from, srcs[..0], []) && Captures(s, from, srcs[..0], []) == s
  {
  }

  /** One more turn of the loop. */
  lemma CapturesOn<Id>(s: State<Id>, from: seq<Id>, srcs: seq<Source>, j: nat, ids: seq<Id>, id: Id)
    requires WF(s) && j < |srcs| && CanCaptures(s, from, srcs[..j], ids)
    requires CanCapture(Captures(s, from, srcs[..j], ids), from, srcs[j], id)
    ensures CanCaptures(s, from, srcs[..j + 1], ids + [id])
    ensures Captures(s, from, srcs[..j + 1], ids + [id]) == Capture(Captures(s, from, srcs[..j], ids), from, srcs[j], id)
  {
    assert srcs[..j + 1][..j] == srcs[..j] && (ids + [id])[..j] == ids;
  }

  predicate AllHeld<Id(==)>(s: State<Id>, ids: seq<Id>) { forall i :: 0 <= i < |ids| ==> Held(s, ids[i]) }

  lemma CaptureHeld<Id>(s: State<Id>, from: seq<Id>, src: Source, id: Id)
    requires WF(s) && CanCapture(s, from, src, id) && AllHeld(s, from)
    ensures Held(Capture(s, from, src, id), id)
    ensures forall i :: Held(s, i) ==> Held(Capture(s, from, src, id), i)
  {
    hide Walk, Names;
  }

  lemma {:induction false} CapturesHeld<Id>(s: State<Id>, from: seq<Id>, srcs: seq<Source>, ids: seq<Id>)
    requires WF(s) && CanCaptures(s, from, srcs, ids) && AllHeld(s, from)
    ensures AllHeld(Captures(s, from, srcs, ids), ids)
    ensures forall id :: Held(s, id) ==> Held(Captures(s, from, srcs, ids), id)
    decreases |srcs|
  {
    hide WF, Held, Capture, CanCapture;
    var n := |srcs| - 1;
    if n >= 0 {
      CapturesHeld(s, from, srcs[..n], ids[..n]);
      var t := Captures(s, from, srcs[..n], ids[..n]);
      CaptureHeld(t, from, srcs[n], ids[n]);
      var w := Capture(t, from, srcs[n], ids[n]);
      forall i | 0 <= i < n ensures Held(w, ids[i]) { assert Held(t, ids[..n][i]); }
    }
  }

  /** One step of a program.  `c` is a closure, in order of creation.  After
      `Drop` the program has no reference to a closure any more, and the
      collector frees it; `Condemn` is the marking of a cycle coming to its end,
      which finds upvalues dead that no closure holds, and `SweepOpen` is the
      sweep of the thread's list. */
  datatype Op<Id> =
    | GetLocal(a: nat)
    | SetLocal(a: nat, v: Value)
    | GetUp(c: nat, b: nat)
    | SetUp(c: nat, b: nat, v: Value)
    | MakeClosure(c: nat, srcs: seq<Source>, ids: seq<Id>)
    | CloseFrom(a: nat)
    | Drop(c: nat)
    | Condemn(dead: set<Id>)
    | SweepOpen

  /** The upvalues of a closure; the main function has none. */
  function Upvals<Id(==)>(s: State<Id>, c: nat): seq<Id> { if c < |s.closures| then s.closures[c] else [] }

  /** What the registers and closures at hand allow.  The collector condemns no
      upvalue that a closure holds. */
  predicate Enabled<Id(==)>(s: State<Id>, op: Op<Id>)
    requires WF(s)
  {
    match op
    case GetLocal(a) => a < |s.stack|
    case SetLocal(a, _) => a < |s.stack|
    case GetUp(c, b) => b < |Upvals(s, c)|
    case SetUp(c, b, _) => b < |Upvals(s, c)|
    case MakeClosure(c, srcs, ids) => CanCaptures(s, Upvals(s, c), srcs, ids)
    case CloseFrom(_) => true
    case Drop(c) => c < |s.closures|
    case SweepOpen => true
    case Condemn(dead) =>
      forall id :: id in dead ==> id in s.uvs && s.uvs[id].Open? && forall c :: 0 <= c < |s.closures| ==> id !in s.closures[c]
  }

  function Condemned<Id(==)>(s: State<Id>, dead: set<Id>): State<Id>
    requires WF(s) && Enabled(s, Condemn(dead))
  {
    s.(uvs := map id | id in s.uvs :: if id in dead then Open(s.uvs[id].level, true) else s.uvs[id])
  }

  /** The new state, and the value that was read. */
  function Step<Id(==)>(s: State<Id>, op: Op<Id>): (r: (State<Id>, Option<Value>))
    requires WF(s) && Enabled(s, op)
  {
    match op
    case GetLocal(a) => (s, Some(s.stack[a]))
    case SetLocal(a, v) => (s.(stack := s.stack[a := v]), None)
    case GetUp(c, b) => assert Held(s, Upvals(s, c)[b]); (s, Some(Get(s, Upvals(s, c)[b])))
    case SetUp(c, b, v) => assert Held(s, Upvals(s, c)[b]); (Set(s, Upvals(s, c)[b], v), None)
    case MakeClosure(c, srcs, ids) =>
      var t := Captures(s, Upvals(s, c), srcs, ids);
      (t.(closures := t.closures + [ids]), None)
    case CloseFrom(a) => (Close(s, a), None)
    case Drop(c) => (s.(closures := s.closures[c := []]), None)
    case Condemn(dead) => (Condemned(s, dead), None)
    case SweepOpen => (SweepFrom(s, 0), None)
  }

  lemma StepWF<Id>(s: State<Id>, op: Op<Id>)
    requires WF(s) && Enabled(s, op)
    ensures WF(Step(s, op).0)
  {
    var t := Step(s, op).0;
    match op
    case SetLocal(a, v) =>
      assert forall j :: 0 <= j < |s.open| ==> Level(t, j) == Level(s, j);
      forall c, i | 0 <= c < |t.closures| && 0 <= i < |t.closures[c]| ensures Held(t, t.closures[c][i]) {
        assert Held(s, s.closures[c][i]);
      }
    case SetUp(c, b, v) =>
      assert Held(s, Upvals(s, c)[b]);
      SetWF(s, Upvals(s, c)[b], v);
    case MakeClosure(c, srcs, ids) => MakeClosureWF(s, c, srcs, ids);
    case Condemn(dead) =>
      assert forall j :: 0 <= j < |s.open| ==> Level(t, j) == Level(s, j);
      forall c, i | 0 <= c < |t.closures| && 0 <= i < |t.closures[c]| ensures Held(t, t.closures[c][i]) {
        assert Held(s, s.closures[c][i]) && s.closures[c][i] in s.closures[c];
      }
    case Drop(d) =>
      assert forall j :: 0 <= j < |s.open| ==> Level(t, j) == Level(s, j);
      forall c, i | 0 <= c < |t.closures| && 0 <= i < |t.closures[c]| ensures Held(t, t.closures[c][i]) {
        assert Held(s, s.closures[c][i]);
      }
    case _ =>
  }

  lemma MakeClosureWF<Id>(s: State<Id>, c: nat, srcs: seq<Source>, ids: seq<Id>)
    requires WF(s) && CanCaptures(s, Upvals(s, c), srcs, ids)
    ensures var t := Captures(s, Upvals(s, c), srcs, ids); WF(t.(closures := t.closures + [ids]))
  {
    CapturesHeld(s, Upvals(s, c), srcs, ids);
    var t := Captures(s, Upvals(s, c), srcs, ids);
    var w := t.(closures := t.closures + [ids]);
    assert forall j :: 0 <= j < |t.open| ==> Level(w, j) == Level(t, j);
    forall d, i | 0 <= d < |w.closures| && 0 <= i < |w.closures[d]| ensures Held(w, w.closures[d][i]) {
      if d < |t.closures| { assert Held(t, t.closures[d][i]); } else { assert Held(t, ids[i]); }
    }
  }

  // ---------------------------------------------------------------------
  // Variables as shared cells

  /** Each stack slot names a cell, and a closure the cells it has captured. */
  datatype Cells = Cells(slots: seq<nat>, store: seq<Value>, closures: seq<seq<nat>>)

  predicate CellsOK(m: Cells) {
    && (forall k :: 0 <= k < |m.slots| ==> m.slots[k] < |m.store|)
    && (forall j, k :: 0 <= j < k < |m.slots| ==> m.slots[j] != m.slots[k])
    && (forall c, i :: 0 <= c < |m.closures| && 0 <= i < |m.closures[c]| ==> m.closures[c][i] < |m.store|)
  }

  function CellUpvals(m: Cells, c: nat): seq<nat> { if c < |m.closures| then m.closures[c] else [] }

  function CellOf(m: Cells, from: seq<nat>, src: Source): nat {
    match src
    case Local(b) => if b < |m.slots| then m.slots[b] else 0
    case Up(b) => if b < |from| then from[b] else 0
  }

  /** Slots from `a` on are given up: they get new cells, so that what is stored
      there later is not seen by closures. */
  function Renewed(m: Cells, a: nat): (t: Cells)
    requires CellsOK(m)
    ensures CellsOK(t)
  {
    if a >= |m.slots| then m
    else
      var n := |m.slots| - a;
      Cells(m.slots[..a] + seq(n, k => |m.store| + k),
            m.store + seq(n, k requires 0 <= k < n => m.store[m.slots[a + k]]),
            m.closures)
  }

  /** The same program, on cells. */
  function CellStep<Id>(m: Cells, op: Op<Id>): (r: (Cells, Option<Value>))
    requires CellsOK(m)
  {
    match op
    case GetLocal(a) => (m, if a < |m.slots| then Some(m.store[m.slots[a]]) else None)
    case SetLocal(a, v) => (if a < |m.slots| then m.(store := m.store[m.slots[a] := v]) else m, None)
    case GetUp(c, b) =>
      (m, if b < |CellUpvals(m, c)| then Some(m.store[CellUpvals(m, c)[b]]) else None)
    case SetUp(c, b, v) =>
      (if b < |CellUpvals(m, c)| then m.(store := m.store[CellUpvals(m, c)[b] := v]) else m, None)
    case MakeClosure(c, srcs, _) =>
      (m.(closures := m.closures + [seq(|srcs|, i requires 0 <= i < |srcs| => CellOf(m, CellUpvals(m, c), srcs[i]))]), None)
    case CloseFrom(a) => (Renewed(m, a), None)
    case Drop(c) => (if c < |m.closures| then m.(closures := m.closures[c := []]) else m, None)
    case Condemn(_) => (m, None)
    case SweepOpen => (m, None)
  }

  /** `f` tells the cell of each upvalue. */
  ghost predicate Related<Id>(s: State<Id>, m: Cells, f: map<Id, nat>) {
    && CellsOK(m)
    && |s.stack| == |m.slots| && (forall k :: 0 <= k < |s.stack| ==> s.stack[k] == m.store[m.slots[k]])
    && (forall id :: id in s.uvs ==> id in f && CellFits(s, m, id, f[id]))
    && (forall x, y :: x in s.uvs && y in s.uvs && s.uvs[x].Closed? && s.uvs[y].Closed? && f[x] == f[y] ==> x == y)
    && |s.closures| == |m.closures|
    && (forall c :: 0 <= c < |s.closures| ==> CapturesMatch(s.closures[c], m.closures[c], f))
  }

  ghost predicate CellFits<Id>(s: State<Id>, m: Cells, id: Id, c: nat)
    requires id in s.uvs
  {
    match s.uvs[id]
    case Open(l, _) => l < |m.slots| && c == m.slots[l]
    case Closed(v) => c < |m.store| && c !in m.slots && v == m.store[c]
  }

  ghost predicate CapturesMatch<Id>(ids: seq<Id>, cells: seq<nat>, f: map<Id, nat>) {
    |ids| == |cells| && forall i :: 0 <= i < |ids| ==> ids[i] in f && f[ids[i]] == cells[i]
  }

  /** An upvalue that a closure holds. */
  lemma HeldUpval<Id>(s: State<Id>, c: nat, b: nat)
    requires WF(s) && b < |Upvals(s, c)|
    ensures OpenOK(s) && c < |s.closures| && Upvals(s, c) == s.closures[c] && Held(s, s.closures[c][b])
    ensures var id := s.closures[c][b];
      id in s.uvs && (s.uvs[id].Open? ==> s.uvs[id].level < |s.stack|)
  {
    assert Held(s, s.closures[c][b]);
  }

  lemma DropStep<Id>(s: State<Id>, c: nat)
    requires WF(s) && c < |s.closures|
    ensures Enabled(s, Drop(c)) && Step(s, Drop(c)).0 == State(s.stack, s.uvs, s.open, s.closures[c := []])
    ensures WF(State(s.stack, s.uvs, s.open, s.closures[c := []]))
  {
    StepWF(s, Drop(c));
  }

  lemma SweepStep<Id>(s: State<Id>)
    requires WF(s)
    ensures Enabled(s, SweepOpen) && Step(s, SweepOpen).0 == SweepFrom(s, 0)
  {
  }

  lemma CondemnStep<Id>(s: State<Id>, dead: set<Id>)
    requires WF(s) && Enabled(s, Condemn(dead))
    ensures Step(s, Condemn(dead)).0 == Condemned(s, dead) && WF(Condemned(s, dead))
    ensures dead <= s.uvs.Keys
  {
    StepWF(s, Condemn(dead));
  }

  lemma GetUpStep<Id>(s: State<Id>, c: nat, b: nat)
    requires WF(s) && b < |Upvals(s, c)|
    ensures c < |s.closures| && OpenOK(s) && Upvals(s, c) == s.closures[c] && s.closures[c][b] in s.uvs
    ensures Enabled(s, GetUp(c, b)) && Step(s, GetUp(c, b)) == (s, Some(Get(s, s.closures[c][b])))
  {
    HeldUpval(s, c, b);
  }

  lemma SetUpStep<Id>(s: State<Id>, c: nat, b: nat, v: Value)
    requires WF(s) && b < |Upvals(s, c)|
    ensures c < |s.closures| && OpenOK(s) && Upvals(s, c) == s.closures[c] && s.closures[c][b] in s.uvs
    ensures Enabled(s, SetUp(c, b, v)) && Step(s, SetUp(c, b, v)).0 == Set(s, s.closures[c][b], v)
    ensures WF(Set(s, s.closures[c][b], v))
  {
    HeldUpval(s, c, b);
    SetWF(s, s.closures[c][b], v);
  }

  lemma MakeClosureStep<Id>(s: State<Id>, c: nat, srcs: seq<Source>, ids: seq<Id>)
    requires WF(s) && CanCaptures(s, Upvals(s, c), srcs, ids)
    ensures Enabled(s, MakeClosure(c, srcs, ids))
    ensures var t := Captures(s, Upvals(s, c), srcs, ids);
      && Step(s, MakeClosure(c, srcs, ids)).0 == State(t.stack, t.uvs, t.open, t.closures + [ids])
      && WF(State(t.stack, t.uvs, t.open, t.closures + [ids]))
  {
    MakeClosureWF(s, c, srcs, ids);
  }

  // ---------------------------------------------------------------------
  // Each step keeps the relation

  lemma HeldRelated<Id>(s: State<Id>, m: Cells, f: map<Id, nat>, c: nat, b: nat)
    requires WF(s) && Related(s, m, f) && b < |Upvals(s, c)|
    ensures b < |CellUpvals(m, c)| && Upvals(s, c)[b] in s.uvs
    ensures f[Upvals(s, c)[b]] == CellUpvals(m, c)[b] && CellFits(s, m, Upvals(s, c)[b], CellUpvals(m, c)[b])
  {
    assert Held(s, s.closures[c][b]);
    assert CapturesMatch(s.closures[c], m.closures[c], f);
  }

  lemma SlotWritten<Id>(s: State<Id>, m: Cells, f: map<Id, nat>, a: nat, v: Value)
    requires WF(s) && Related(s, m, f) && a < |s.stack|
    ensures Related(s.(stack := s.stack[a := v]), m.(store := m.store[m.slots[a] := v]), f)
  {
    var t, n := s.(stack := s.stack[a := v]), m.(store := m.store[m.slots[a] := v]);
    forall id | id in t.uvs ensures CellFits(t, n, id, f[id]) {
      assert CellFits(s, m, id, f[id]);
    }
  }

  lemma UpvalWritten<Id>(s: State<Id>, m: Cells, f: map<Id, nat>, id: Id, v: Value)
    requires WF(s) && Related(s, m, f) && id in s.uvs
    ensures CellFits(s, m, id, f[id]) && f[id] < |m.store|
    ensures Related(Set(s, id, v), m.(store := m.store[f[id] := v]), f)
  {
    assert CellFits(s, m, id, f[id]);
    match s.uvs[id]
    case Open(l, _) => SlotWritten(s, m, f, l, v);
    case Closed(_) =>
      var t, n := Set(s, id, v), m.(store := m.store[f[id] := v]);
      forall i | i in t.uvs ensures CellFits(t, n, i, f[i]) {
        assert CellFits(s, m, i, f[i]);
      }
  }

  lemma Found<Id>(s: State<Id>, m: Cells, f: map<Id, nat>, level: nat, id: Id) returns (g: map<Id, nat>)
    requires WF(s) && Related(s, m, f) && level < |s.stack| && Names(s, level, id)
    ensures Related(FindUpval(s, level, id), m, g) && id in g && g[id] == m.slots[level]
    ensures forall i :: i in s.uvs ==> i in g && g[i] == f[i]
  {
    FindUpvalWF(s, level, id);
    var t := FindUpval(s, level, id);
    g := f[id := m.slots[level]];
    forall i | i in t.uvs ensures i in g && CellFits(t, m, i, g[i]) && (i in s.uvs ==> g[i] == f[i]) {
      if i in s.uvs { assert CellFits(s, m, i, f[i]); }
    }
    forall c | 0 <= c < |t.closures| ensures CapturesMatch(t.closures[c], m.closures[c], g) {
      assert CapturesMatch(s.closures[c], m.closures[c], f);
      forall i | 0 <= i < |t.closures[c]| ensures t.closures[c][i] in s.uvs { assert Held(s, s.closures[c][i]); }
    }
  }

  lemma CaptureRelated<Id>(s: State<Id>, m: Cells, f: map<Id, nat>, c: nat, src: Source, id: Id)
    returns (g: map<Id, nat>)
    requires WF(s) && Related(s, m, f) && CanCapture(s, Upvals(s, c), src, id)
    ensures Related(Capture(s, Upvals(s, c), src, id), m, g)
    ensures id in g && g[id] == CellOf(m, CellUpvals(m, c), src)
    ensures forall i :: i in s.uvs ==> i in g && g[i] == f[i]
  {
    match src
    case Local(b) => g := Found(s, m, f, b, id);
    case Up(b) =>
      g := f;
      HeldRelated(s, m, f, c, b);
  }

  lemma {:induction false} CapturesRelated<Id>(s: State<Id>, m: Cells, f: map<Id, nat>, c: nat, srcs: seq<Source>,
                                               ids: seq<Id>)
    returns (g: map<Id, nat>)
    requires WF(s) && Related(s, m, f) && CanCaptures(s, Upvals(s, c), srcs, ids)
    ensures Related(Captures(s, Upvals(s, c), srcs, ids), m, g)
    ensures forall i :: 0 <= i < |srcs| ==> ids[i] in g && g[ids[i]] == CellOf(m, CellUpvals(m, c), srcs[i])
    decreases |srcs|
  {
    hide Related, WF, CellOf, Capture, CanCapture;
    var n := |srcs| - 1;
    g := f;
    if n >= 0 {
      var from := Upvals(s, c);
      var t := Captures(s, from, srcs[..n], ids[..n]);
      var h := CapturesRelated(s, m, f, c, srcs[..n], ids[..n]);
      assert Upvals(t, c) == from;
      CapturesKept(s, c, srcs[..n], ids[..n]);
      g := CaptureRelated(t, m, h, c, srcs[n], ids[n]);
      forall i | 0 <= i < n ensures ids[i] in g && g[ids[i]] == CellOf(m, CellUpvals(m, c), srcs[i]) {
        assert ids[..n][i] in h && srcs[..n][i] == srcs[i];
        assert Held(t, ids[..n][i]);
      }
    }
  }

  lemma CapturesKept<Id>(s: State<Id>, c: nat, srcs: seq<Source>, ids: seq<Id>)
    requires WF(s) && CanCaptures(s, Upvals(s, c), srcs, ids)
    ensures AllHeld(Captures(s, Upvals(s, c), srcs, ids), ids)
  {
    forall i | 0 <= i < |Upvals(s, c)| ensures Held(s, Upvals(s, c)[i]) { assert Held(s, s.closures[c][i]); }
    CapturesHeld(s, Upvals(s, c), srcs, ids);
  }

  lemma Appended<Id>(t: State<Id>, m: Cells, g: map<Id, nat>, ids: seq<Id>, cells: seq<nat>)
    requires WF(t) && Related(t, m, g) && AllHeld(t, ids) && |cells| == |ids|
    requires forall i :: 0 <= i < |ids| ==> ids[i] in g && g[ids[i]] == cells[i]
    ensures Related(State(t.stack, t.uvs, t.open, t.closures + [ids]), m.(closures := m.closures + [cells]), g)
  {
    var w, n := State(t.stack, t.uvs, t.open, t.closures + [ids]), m.(closures := m.closures + [cells]);
    forall i | 0 <= i < |ids| ensures cells[i] < |m.store| {
      assert Held(t, ids[i]) && CellFits(t, m, ids[i], g[ids[i]]);
    }
    forall id | id in w.uvs ensures CellFits(w, n, id, g[id]) { assert CellFits(t, m, id, g[id]); }
    forall d | 0 <= d < |w.closures| ensures CapturesMatch(w.closures[d], n.closures[d], g) {
      if d < |t.closures| { assert CapturesMatch(t.closures[d], m.closures[d], g); }
    }
  }

  lemma MakeClosureCells<Id>(m: Cells, c: nat, srcs: seq<Source>, ids: seq<Id>) returns (cells: seq<nat>)
    requires CellsOK(m)
    ensures |cells| == |srcs| && forall i :: 0 <= i < |srcs| ==> cells[i] == CellOf(m, CellUpvals(m, c), srcs[i])
    ensures CellStep(m, MakeClosure(c, srcs, ids)) == (m.(closures := m.closures + [cells]), None)
  {
    cells := CellStep(m, MakeClosure(c, srcs, ids)).0.closures[|m.closures|];
  }

  lemma ClosureRelated<Id>(s: State<Id>, m: Cells, f: map<Id, nat>, c: nat, srcs: seq<Source>, ids: seq<Id>)
    returns (g: map<Id, nat>)
    requires WF(s) && Related(s, m, f) && CanCaptures(s, Upvals(s, c), srcs, ids)
    ensures Related(Step(s, MakeClosure(c, srcs, ids)).0, CellStep(m, MakeClosure(c, srcs, ids)).0, g)
  {
    hide WF, Step, CellStep, CellOf, CanCaptures, Captures;
    g := CapturesRelated(s, m, f, c, srcs, ids);
    CapturesKept(s, c, srcs, ids);
    MakeClosureStep(s, c, srcs, ids);
    var cells := MakeClosureCells(m, c, srcs, ids);
    Appended(Captures(s, Upvals(s, c), srcs, ids), m, g, ids, cells);
  }

  /** What luaF_close does with an upvalue: one of the levels it is given is
      closed, or freed if it is dead. */
  predicate Shut<Id(==)>(s: State<Id>, a: nat, id: Id, t: State<Id>) {
    if id !in s.uvs then id !in t.uvs
    else
      match s.uvs[id]
      case Open(l, dead) =>
        if l < a then id in t.uvs && t.uvs[id] == s.uvs[id]
        else if dead then id !in t.uvs
        else l < |s.stack| && id in t.uvs && t.uvs[id] == Closed(s.stack[l])
      case Closed(_) => id in t.uvs && t.uvs[id] == s.uvs[id]
  }

  lemma {:induction false} CloseEffect<Id>(s: State<Id>, a: nat, id: Id)
    requires WF(s)
    ensures Shut(s, a, id, Close(s, a))
    decreases |s.open|
  {
    if s.open == [] || Level(s, 0) < a {
      if id in s.uvs && s.uvs[id].Open? {
        var k :| 0 <= k < |s.open| && s.open[k] == id;
        assert k == 0 || Level(s, 0) > Level(s, k);
      }
    } else {
      CloseFirstWF(s);
      CloseEffect(CloseFirst(s), a, id);
    }
  }

  lemma OnePerLevel<Id>(s: State<Id>, x: Id, y: Id)
    requires WF(s) && x in s.uvs && y in s.uvs && s.uvs[x].Open? && s.uvs[y].Open? && s.uvs[x].level == s.uvs[y].level
    ensures x == y
  {
    var j :| 0 <= j < |s.open| && s.open[j] == x;
    var k :| 0 <= k < |s.open| && s.open[k] == y;
    assert Level(s, j) == Level(s, k);
  }

  lemma ShutFits<Id>(s: State<Id>, m: Cells, f: map<Id, nat>, a: nat, id: Id)
    requires WF(s) && Related(s, m, f) && id in Close(s, a).uvs
    ensures id in s.uvs && CellFits(s, m, id, f[id])
    ensures CellFits(Close(s, a), Renewed(m, a), id, f[id])
  {
    hide WF;
    CloseEffect(s, a, id);
  }

  lemma RenewedKeeps(m: Cells, a: nat)
    requires CellsOK(m)
    ensures var n := Renewed(m, a);
      && CellsOK(n) && |n.slots| == |m.slots| && n.closures == m.closures
      && forall k :: 0 <= k < |m.slots| ==> n.store[n.slots[k]] == m.store[m.slots[k]]
  {
  }

  lemma CloseRelated<Id>(s: State<Id>, m: Cells, f: map<Id, nat>, a: nat)
    requires WF(s) && Related(s, m, f)
    ensures Related(Close(s, a), Renewed(m, a), f)
  {
    hide WF, Close, Renewed, CellFits, CellsOK, CapturesMatch;
    var t, n := Close(s, a), Renewed(m, a);
    RenewedKeeps(m, a);
    forall id | id in t.uvs ensures id in f && CellFits(t, n, id, f[id]) { ShutFits(s, m, f, a, id); }
    forall x, y | x in t.uvs && y in t.uvs && t.uvs[x].Closed? && t.uvs[y].Closed? && f[x] == f[y] ensures x == y {
      ShutApart(s, m, f, a, x, y);
    }
  }

  lemma ShutApart<Id>(s: State<Id>, m: Cells, f: map<Id, nat>, a: nat, x: Id, y: Id)
    requires WF(s) && Related(s, m, f) && x in Close(s, a).uvs && y in Close(s, a).uvs
    requires Close(s, a).uvs[x].Closed? && Close(s, a).uvs[y].Closed?
    requires x in f && y in f && f[x] == f[y]
    ensures x == y
  {
    hide WF, Close, Renewed;
    ShutFits(s, m, f, a, x);
    ShutFits(s, m, f, a, y);
    CloseEffect(s, a, x);
    CloseEffect(s, a, y);
    if s.uvs[x].Open? && s.uvs[y].Open? { OnePerLevel(s, x, y); }
  }

  lemma DropRelated<Id>(s: State<Id>, m: Cells, f: map<Id, nat>, c: nat)
    requires WF(s) && Related(s, m, f) && c < |s.closures|
    ensures Related(s.(closures := s.closures[c := []]), m.(closures := m.closures[c := []]), f)
  {
    var t, n := s.(closures := s.closures[c := []]), m.(closures := m.closures[c := []]);
    forall id | id in t.uvs ensures CellFits(t, n, id, f[id]) { assert CellFits(s, m, id, f[id]); }
    forall d | 0 <= d < |t.closures| ensures CapturesMatch(t.closures[d], n.closures[d], f) {
      if d != c { assert CapturesMatch(s.closures[d], m.closures[d], f); }
    }
  }

  /** The sweep frees exactly the dead upvalues of the list. */
  lemma {:induction false} SweepEffect<Id>(s: State<Id>, k: nat, id: Id)
    requires WF(s) && k <= |s.open|
    requires forall j :: 0 <= j < k ==> !s.uvs[s.open[j]].dead
    ensures var t := SweepFrom(s, k);
      && (id in t.uvs <==> id in s.uvs && !(s.uvs[id].Open? && s.uvs[id].dead))
      && (id in t.uvs ==> t.uvs[id] == s.uvs[id])
    decreases |s.open| - k
  {
    if k == |s.open| {
      if id in s.uvs && s.uvs[id].Open? { assert id in s.open; }
    } else if s.uvs[s.open[k]].dead {
      WithoutWF(s, k);
      forall j | 0 <= j < k ensures s.open[j] != s.open[k] { DistinctOpen(s, j, k); }
      SweepEffect(Without(s, k), k, id);
    } else {
      SweepEffect(s, k + 1, id);
    }
  }

  lemma SweepRelated<Id>(s: State<Id>, m: Cells, f: map<Id, nat>)
    requires WF(s) && Related(s, m, f)
    ensures Related(SweepFrom(s, 0), m, f)
  {
    hide WF, SweepFrom;
    var t := SweepFrom(s, 0);
    forall id | id in t.uvs ensures id in s.uvs && t.uvs[id] == s.uvs[id] && CellFits(t, m, id, f[id]) {
      SweepEffect(s, 0, id);
      assert CellFits(s, m, id, f[id]);
    }
  }

  lemma StepRelated<Id>(s: State<Id>, m: Cells, f: map<Id, nat>, op: Op<Id>) returns (g: map<Id, nat>)
    requires WF(s) && Related(s, m, f) && Enabled(s, op)
    ensures Related(Step(s, op).0, CellStep(m, op).0, g)
    ensures Step(s, op).1 == CellStep(m, op).1
  {
    g := f;
    match op
    case GetLocal(_) =>
    case SetLocal(a, v) => SlotWritten(s, m, f, a, v);
    case GetUp(c, b) => HeldRelated(s, m, f, c, b);
    case SetUp(c, b, v) =>
      HeldRelated(s, m, f, c, b);
      UpvalWritten(s, m, f, Upvals(s, c)[b], v);
    case MakeClosure(c, srcs, ids) => g := ClosureRelated(s, m, f, c, srcs, ids);
    case CloseFrom(a) => CloseRelated(s, m, f, a);
    case Condemn(dead) =>
      var t := Condemned(s, dead);
      forall id | id in t.uvs ensures CellFits(t, m, id, f[id]) { assert CellFits(s, m, id, f[id]); }
    case Drop(c) => DropRelated(s, m, f, c);
    case SweepOpen => SweepRelated(s, m, f);
  }

  // ---------------------------------------------------------------------
  // Whole runs

  predicate CanRun<Id(==)>(s: State<Id>, ops: seq<Op<Id>>)
    requires WF(s)
    decreases |ops|
  {
    ops == [] || (Enabled(s, ops[0]) && (StepWF(s, ops[0]); CanRun(Step(s, ops[0]).0, ops[1..])))
  }

  /** What a run reads, in order. */
  function Reads<Id(==)>(s: State<Id>, ops: seq<Op<Id>>): seq<Option<Value>>
    requires WF(s) && CanRun(s, ops)
    decreases |ops|
  {
    if ops == [] then []
    else
      StepWF(s, ops[0]);
      [Step(s, ops[0]).1] + Reads(Step(s, ops[0]).0, ops[1..])
  }

  function CellReads<Id>(m: Cells, ops: seq<Op<Id>>): seq<Option<Value>>
    decreases |ops|
  {
    if ops == [] then []
    else if !CellsOK(m) then [None]
    else [CellStep(m, ops[0]).1] + CellReads(CellStep(m, ops[0]).0, ops[1..])
  }

  lemma {:induction false} RunRelated<Id>(s: State<Id>, m: Cells, f: map<Id, nat>, ops: seq<Op<Id>>)
    requires WF(s) && Related(s, m, f) && CanRun(s, ops)
    ensures Reads(s, ops) == CellReads(m, ops)
    decreases |ops|
  {
    if ops != [] {
      StepWF(s, ops[0]);
      var g := StepRelated(s, m, f, ops[0]);
      RunRelated(Step(s, ops[0]).0, CellStep(m, ops[0]).0, g, ops[1..]);
    }
  }

  /** For every run from a stack with no upvalues, closures read what they would
      if each variable were one cell that they share with its stack slot. */
  lemma SharedCells<Id>(stack: seq<Value>, ops: seq<Op<Id>>)
    requires CanRun(State(stack, map[], [], []), ops)
    ensures Reads(State(stack, map[], [], []), ops) ==
            CellReads(Cells(seq(|stack|, k => k), stack, []), ops)
  {
    RunRelated(State(stack, map[], [], []), Cells(seq(|stack|, k => k), stack, []), map[], ops);
  }

  // ---------------------------------------------------------------------
  // The death of an upvalue

  /** The walk ends at an upvalue of the level, if there is one. */
  lemma WalkFinds<Id>(s: State<Id>, id: Id)
    requires WF(s) && id in s.uvs && s.uvs[id].Open?
    ensures Names(s, s.uvs[id].level, id) && FindUpval(s, s.uvs[id].level, id).open == s.open
  {
    var level := s.uvs[id].level;
    var k :| 0 <= k < |s.open| && s.open[k] == id;
    assert Level(s, k) == level && Walk(s, level, 0) <= k;
  }

  /** When the only closure that holds an open upvalue is dropped, the collector
      may find the upvalue dead.  Until it is swept, another capture of its level
      brings it back to life; a close of its level, and the sweep, free it. */
  lemma DroppedMayDie<Id>(s: State<Id>, c: nat, id: Id)
    requires WF(s) && c < |s.closures| && id in s.uvs && s.uvs[id].Open?
    requires forall d :: 0 <= d < |s.closures| && d != c ==> id !in s.closures[d]
    ensures var t := s.(closures := s.closures[c := []]);
      WF(t) && Step(s, Drop(c)).0 == t && Enabled(t, Condemn({id}))
    ensures var u, level := Condemned(s.(closures := s.closures[c := []]), {id}), s.uvs[id].level;
      && WF(u) && u.uvs[id] == Open(level, true)
      && Names(u, level, id) && FindUpval(u, level, id) == u.(uvs := u.uvs[id := Open(level, false)])
      && (forall a: nat :: a <= level ==> id !in Close(u, a).uvs)
      && id !in SweepFrom(u, 0).uvs
  {
    var t := s.(closures := s.closures[c := []]);
    StepWF(s, Drop(c));
    StepWF(t, Condemn({id}));
    var u := Condemned(t, {id});
    WalkFinds(u, id);
    SweepEffect(u, 0, id);
    forall a: nat | a <= s.uvs[id].level ensures id !in Close(u, a).uvs { CloseEffect(u, a, id); }
  }

  lemma RunStep<Id>(s: State<Id>, op: Op<Id>, rest: seq<Op<Id>>)
    requires WF(s) && Enabled(s, op) && WF(Step(s, op).0) && CanRun(Step(s, op).0, rest)
    ensures CanRun(s, [op] + rest) && Reads(s, [op] + rest) == [Step(s, op).1] + Reads(Step(s, op).0, rest)
  {
    assert ([op] + rest)[1..] == rest;
  }

  /** A stack of one slot, and its upvalue. */
  function Slot(v: Value, dead: bool, closures: seq<seq<nat>>): State<nat> {
    State([v], map[7 := Open(0, dead)], [7], closures)
  }

  function Bare(v: Value): State<nat> { State([v], map[], [], []) }

  predicate OneSlot(s: State<nat>, v: Value) { WF(s) && (s == Bare(v) || s == Slot(v, true, s.closures)) }

  lemma FirstNamed(s: State<nat>, v: Value)
    requires OneSlot(s, v)
    ensures Names(s, 0, 7) && FindUpval(s, 0, 7) == Slot(v, false, s.closures)
  {
    if s.open != [] {
      WalkFinds(s, 7);
      assert s.uvs[7 := Open(0, false)] == map[7 := Open(0, false)];
    } else {
      FindNew(s, 0, 7, 0);
    }
  }

  lemma CaptureFirst(s: State<nat>, v: Value)
    requires OneSlot(s, v)
    ensures Enabled(s, MakeClosure(0, [Local(0)], [7]))
    ensures Step(s, MakeClosure(0, [Local(0)], [7])) == (Slot(v, false, s.closures + [[7]]), None)
  {
    hide WF, Names, FindUpval, Captures, CanCaptures, Walk;
    var from, srcs := Upvals(s, 0), [Local(0)];
    FirstNamed(s, v);
    NoCaptures(s, from, srcs);
    CapturesOn(s, from, srcs, 0, [], 7);
    assert srcs[..1] == srcs && [] + [7] == [7];
    MakeClosureStep(s, 0, srcs, [7]);
  }

  lemma Dropping(v: Value)
    ensures WF(Slot(v, false, [[7]])) && Enabled(Slot(v, false, [[7]]), Drop(0))
    ensures Step(Slot(v, false, [[7]]), Drop(0)) == (Slot(v, false, [[]]), None)
  {
    var cs: seq<seq<nat>> := [[7]];
    assert Held(Slot(v, false, cs), 7) && cs[0 := []] == [[]];
  }

  lemma Dying(v: Value)
    ensures WF(Slot(v, false, [[]])) && Enabled(Slot(v, false, [[]]), Condemn({7}))
    ensures Step(Slot(v, false, [[]]), Condemn({7})) == (Slot(v, true, [[]]), None)
    ensures OneSlot(Slot(v, true, [[]]), v) && OneSlot(Bare(v), v)
  {
    StepWF(Slot(v, false, [[]]), Condemn({7}));
    assert Condemned(Slot(v, false, [[]]), {7}).uvs == Slot(v, true, [[]]).uvs;
  }

  lemma ReadAgain(v: Value)
    ensures WF(Slot(v, false, [[], [7]])) && Enabled(Slot(v, false, [[], [7]]), GetUp(1, 0))
    ensures Step(Slot(v, false, [[], [7]]), GetUp(1, 0)) == (Slot(v, false, [[], [7]]), Some(v))
    ensures CanRun(Slot(v, false, [[], [7]]), []) && Reads(Slot(v, false, [[], [7]]), []) == []
  {
    assert Held(Slot(v, false, [[], [7]]), 7);
  }

  lemma SlotWF(s: State<nat>, v: Value)
    requires OneSlot(s, v)
    ensures WF(s) && Slot(v, true, [[]]).closures == [[]] && Bare(v).closures == []
  {
  }

  function Capturing(): Op<nat> { MakeClosure(0, [Local(0)], [7]) }

  /** A run in which an upvalue dies, is brought back by another capture, and is
      read through the new closure. */
  lemma RevivingRun(v: Value)
    ensures var ops := [Capturing()] + ([Drop(0)] + ([Condemn({7})] + ([Capturing()] + ([GetUp(1, 0)] + []))));
      && WF(Bare(v)) && CanRun(Bare(v), ops)
      && Reads(Bare(v), ops) == [None] + ([None] + ([None] + ([None] + ([Some(v)] + []))))
  {
    hide WF, Enabled, Step, CanRun, Reads, OneSlot, Slot, Bare;
    var s0, s1, s2: State<nat> := Bare(v), Slot(v, false, [[7]]), Slot(v, false, [[]]);
    var s3, s4: State<nat> := Slot(v, true, [[]]), Slot(v, false, [[], [7]]);
    Dropping(v);
    Dying(v);
    ReadAgain(v);
    SlotWF(s0, v);
    SlotWF(s3, v);
    CaptureFirst(s0, v);
    CaptureFirst(s3, v);
    assert s0.closures + [[7]] == [[7]] && s3.closures + [[7]] == [[], [7]];
    RunStep(s4, GetUp(1, 0), []);
    RunStep(s3, Capturing(), [GetUp(1, 0)] + []);
    RunStep(s2, Condemn({7}), [Capturing()] + ([GetUp(1, 0)] + []));
    RunStep(s1, Drop(0), [Condemn({7})] + ([Capturing()] + ([GetUp(1, 0)] + [])));
    RunStep(s0, Capturing(), [Drop(0)] + ([Condemn({7})] + ([Capturing()] + ([GetUp(1, 0)] + []))));
  }
}
