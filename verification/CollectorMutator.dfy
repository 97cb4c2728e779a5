/** The mutator of lgc.c's heap: stores with their write barriers, allocation,
    string interning; and safety over every run. */
module CollectorMutator {
  import opened Options
  import opened Collector
  import opened CollectorInvariant
  import opened CollectorSafety

  // ---------------------------------------------------------------------
  // Reachability, as the mutator sees it

  ghost predicate Path(s: State, p: seq<Ref>) {
    && p != []
    && p[0] in Roots(s)
    && forall i, j :: 0 <= i < j < |p| && j == i + 1 ==> Edge(s, p[i], p[j])
  }

  ghost predicate Edge(s: State, a: Ref, b: Ref) { a in s.heap && b in Kids(s.heap[a]) }

  ghost predicate Reachable(s: State, r: Ref) { exists p :: Path(s, p) && p[|p| - 1] == r }

  ghost predicate ReachableValue(s: State, v: Value) { v.Obj? ==> Reachable(s, v.r) }

  lemma {:induction false} PathLive(s: State, p: seq<Ref>)
    requires LiveClosed(s) && Path(s, p)
    ensures Live(s, p[|p| - 1])
    decreases |p|
  {
    if |p| > 1 {
      var q := p[..|p| - 1];
      PathLive(s, q);
      assert Edge(s, p[|p| - 2], p[|p| - 1]);
      CleanedRefs(s.heap[q[|q| - 1]]);
    }
  }

  /** Whatever the mutator can reach is in the heap and not dead. */
  lemma ReachableLive(s: State, r: Ref)
    requires LiveClosed(s) && Reachable(s, r)
    ensures Live(s, r)
  {
    var p :| Path(s, p) && p[|p| - 1] == r;
    PathLive(s, p);
  }

  // ---------------------------------------------------------------------
  // Barriers

  function BarrierForward(s: State, o: Ref, v: Ref): State
    requires s.heap.Keys == s.marks.Keys && o in s.heap && v in s.heap && IsWhite(s.marks[v])
  {
    if s.gcstate == Propagate then ReallyMark(s, v)
    else SetMark(s, o, MakeWhite(s.marks[o], s.white1))
  }

  function BarrierBack(s: State, t: Ref): State
    requires s.heap.Keys == s.marks.Keys && t in s.heap
  {
    SetMark(s, t, Black2Gray(s.marks[t])).(grayagain := [t] + s.grayagain)
  }

  /** The condition under which the barrier macros call the collector. */
  predicate BarrierFires(s: State, o: Ref, v: Value)
    requires s.heap.Keys == s.marks.Keys
  {
    v.Obj? && v.r in s.heap && o in s.heap && IsWhite(s.marks[v.r]) && IsBlack(s.marks[o])
  }

  function Barrier(s: State, o: Ref, v: Value): State
    requires s.heap.Keys == s.marks.Keys
  {
    if !BarrierFires(s, o, v) then s
    else if s.heap[o].Table? then BarrierBack(s, o)
    else BarrierForward(s, o, v.r)
  }

  /** A table goes back to gray, to be traversed again; behind any other object
      the target is marked, or outside of the mark phase the object itself turns
      white.  Then the barrier does not fire again. */
  lemma BarrierDoes(s: State, o: Ref, v: Value)
    requires Shape(s) && MarksOK(s) && BarrierFires(s, o, v)
    ensures var t := Barrier(s, o, v);
      && t == s.(marks := t.marks, gray := t.gray, grayagain := t.grayagain) && t.marks.Keys == s.marks.Keys
      && !BarrierFires(t, o, v)
      && if s.heap[o].Table? then
           && t.gray == s.gray && t.grayagain == [o] + s.grayagain
           && IsGray(t.marks[o]) && forall x :: x in s.marks && x != o ==> t.marks[x] == s.marks[x]
         else if s.gcstate == Propagate then
           t.grayagain == s.grayagain && NonWhite(t, v.r) && t.marks[o] == s.marks[o]
         else
           && t.gray == s.gray && t.grayagain == s.grayagain
           && Clean(t.marks[o], s.white1) && forall x :: x in s.marks && x != o ==> t.marks[x] == s.marks[x]
  {
    if !s.heap[o].Table? && s.gcstate == Propagate {
      hide ReallyMark;
      ReallyMarkMarks(s, v.r);
      assert Marked(s, Barrier(s, o, v));
    }
  }

  // ---------------------------------------------------------------------
  // Mutator actions

  predicate SameKind(a: GCObject, b: GCObject) {
    match a
    case TString => false
    case Udata(_, _) => b.Udata?
    case UpVal(_) => b.UpVal?
    case CClosure(_, _) => b.CClosure?
    case LClosure(_, _, _) => b.LClosure?
    case Table(_, _, _) => b.Table?
    case Thread(_, _, _) => b.Thread?
    case Proto(_, _, _, _, _) => b.Proto?
  }

  function Pushed(o: GCObject, v: Value): GCObject
    requires o.Thread?
  {
    var t := Top(o);
    Thread(o.gt, o.stack[..t] + [v] + (if t < |o.stack| then o.stack[t + 1..] else []), t + 1)
  }

  function PushValue(s: State, v: Value): State
    requires s.cur in s.heap && s.heap[s.cur].Thread?
  {
    s.(heap := s.heap[s.cur := Pushed(s.heap[s.cur], v)])
  }

  /** luaC_link and its variants: `at` is where the object enters rootgc. */
  function Link(s: State, r: Ref, at: nat): State
    requires at <= |s.rootgc|
  {
    s.(rootgc := s.rootgc[..at] + [r] + s.rootgc[at..],
       sweepgc := if s.sweepgc <= at then s.sweepgc else s.sweepgc + 1)
  }

  datatype Event =
    | Collect
    | Alloc(r: Ref, obj: GCObject, at: nat)
    | Intern(r: Ref)
    | Store(target: Ref, content: GCObject, v: Value)
    | SetMetatable(tag: nat, m: Option<Ref>)
    | Resume(th: Ref)
    | ResizeStrings(buckets: seq<seq<Ref>>)
    | SetRegistry(table: Ref)
    | Fix(str: Ref)

  /** What the mutator may do: it touches only what it can reach, and one store
      brings in at most one new reference.  The registry is set while the state
      is being opened, before the first cycle; luaS_fix is called for a string
      that has just been made or found. */
  ghost predicate Enabled(s: State, e: Event) {
    match e
    case Collect => true
    case Alloc(r, o, at) =>
      && r !in s.heap
      && (forall x :: x in Refs(o) ==> Reachable(s, x))
      && Typed(s, o)
      && (if o.TString? then at < |s.strt|
          else if o.Udata? then 0 < at <= |s.rootgc| && s.rootgc[at - 1] == s.mainthread
          else at == 0)
    case Intern(r) => r in s.heap && s.heap[r].TString?
    case Store(o, content, v) =>
      && Reachable(s, o) && o in s.heap && SameKind(s.heap[o], content)
      && ReachableValue(s, v)
      && Typed(s, content)
      && forall x :: x in Refs(content) ==> x in Refs(s.heap[o]) || v == Obj(x)
    case SetMetatable(tag, m) => tag < |s.mt| && (m.Some? ==> Reachable(s, m.value))
    case Resume(th) => Reachable(s, th) && th in s.heap && s.heap[th].Thread?
    case ResizeStrings(buckets) => s.gcstate != SweepString && buckets != [] && Split(buckets, Strings(s))
    case SetRegistry(t) => s.gcstate == Pause && Reachable(s, t) && t in s.heap && s.heap[t].Table?
    case Fix(r) => Live(s, r) && s.heap[r].TString?
  }

  /** A new object, white and linked, before anything refers to it. */
  function Inserted(s: State, r: Ref, o: GCObject, at: nat): State
    requires if o.TString? then at < |s.strt| else at <= |s.rootgc|
  {
    var s1 := s.(heap := s.heap[r := o], marks := s.marks[r := NewMark(s.white1)]);
    if o.TString? then s1.(strt := s.strt[at := [r] + s.strt[at]]) else Link(s1, r, at)
  }

  function Allocated(s: State, r: Ref, o: GCObject, at: nat): State
    requires s.cur in s.heap && s.heap[s.cur].Thread? && r !in s.heap
    requires if o.TString? then at < |s.strt| else at <= |s.rootgc|
  {
    PushValue(Inserted(s, r, o, at), Obj(r))
  }

  function Interned(s: State, r: Ref): State
    requires s.cur in s.heap && s.heap[s.cur].Thread? && r in s.marks
  {
    var m := s.marks[r];
    PushValue(SetMark(s, r, if IsDead(m, s.white1) then ChangeWhite(m) else m), Obj(r))
  }

  function Stored(s: State, o: Ref, content: GCObject, v: Value): State
    requires s.heap.Keys == s.marks.Keys && o in s.heap
  {
    Barrier(s.(heap := s.heap[o := content]), o, v)
  }

  predicate Ready(s: State) {
    && s.heap.Keys == s.marks.Keys
    && s.cur in s.heap && s.heap[s.cur].Thread?
    && s.sweepgc <= |s.rootgc|
    && (s.gcstate == SweepString ==> s.sweepstrgc < |s.strt|)
    && (s.gcstate == Propagate ==> forall x :: x in s.gray + s.grayagain ==> x in s.heap)
  }

  /** singlestep. */
  function SingleStep(s: State): State
    requires Ready(s)
  {
    match s.gcstate
    case Pause => MarkRoot(s)
    case Propagate =>
      assert forall x :: x in s.gray ==> x in s.gray + s.grayagain;
      assert forall x :: x in s.grayagain ==> x in s.gray + s.grayagain;
      if s.gray != [] then PropagateMark(s) else Atomic(s)
    case SweepString => SweepStringStep(s)
    case Sweep => SweepStep(s)
    case Finalize => s.(gcstate := Pause)
  }

  ghost function Apply(s: State, e: Event): State
    requires Ready(s) && Enabled(s, e)
  {
    match e
    case Collect => SingleStep(s)
    case Alloc(r, o, at) => Allocated(s, r, o, at)
    case Intern(r) => Interned(s, r)
    case Store(o, content, v) => Stored(s, o, content, v)
    case SetMetatable(tag, m) => s.(mt := s.mt[tag := m])
    case Resume(th) => s.(cur := th)
    case ResizeStrings(buckets) => s.(strt := buckets)
    case SetRegistry(t) => s.(registry := Obj(t))
    case Fix(r) => SetMark(s, r, s.marks[r].(fixed := true))
  }

  lemma InvReady(s: State)
    requires Inv(s)
    ensures Ready(s)
  {
    if s.gcstate == Propagate { MarkInvFacts(s, {}); }
  }

  /** `t` keeps the roots and every object reachable in `s`, as the mutator
      reads them. */
  ghost predicate Keeps(s: State, t: State) {
    Roots(s) == Roots(t) && forall x :: Reachable(s, x) ==> Kept(s, t, x)
  }

  ghost predicate Kept(s: State, t: State, x: Ref) {
    && x in s.heap && x in t.heap
    && Kids(t.heap[x]) == Kids(s.heap[x])
    && ReadsSame(s.heap[x], t.heap[x])
  }

  lemma KeptSame(s: State, t: State, x: Ref)
    requires x in s.heap && x in t.heap && t.heap[x] == s.heap[x]
    ensures Kept(s, t, x)
  {}

  lemma KeptKids(s: State, t: State, x: Ref)
    requires SameKids(s, t) && x in s.heap
    ensures Kept(s, t, x)
  {}

  /** One step of the collector keeps the invariant, and all that can be
      reached reads as before. */
  lemma SingleStepKeeps(s: State)
    requires Inv(s) && Ready(s)
    ensures Inv(SingleStep(s))
    ensures Keeps(s, SingleStep(s))
  {
    StepKeepsInv(s);
    StepKeepsRoots(s);
    assert LiveClosed(s);
    hide Inv, SingleStep, Ready, LiveClosed, Reachable, Kept, Roots;
    forall x | Reachable(s, x) ensures Kept(s, SingleStep(s), x) {
      ReachableLive(s, x);
      StepKeepsLive(s, x);
    }
  }

  lemma StepKeepsRoots(s: State)
    requires Inv(s) && Ready(s)
    ensures Roots(SingleStep(s)) == Roots(s)
  {
    hide MarkInv, PropagateMark, MarkAll, AtomicMark, SweepSeq, Linked, LiveClosed, Sweeping;
    match s.gcstate
    case Pause =>
    case Propagate =>
      if s.gray == [] {
        InvMark(s);
        AtomicMarkCloses(s);
      }
    case SweepString => SweepSeqFrame(s, s.strt[s.sweepstrgc]);
    case Sweep => SweepSeqFrame(s, s.rootgc[s.sweepgc..SweepEnd(s)]);
    case Finalize =>
  }

  lemma {:induction false} SweepSeqFrame(s: State, l: seq<Ref>)
    ensures var t := SweepSeq(s, l).0; t == s.(heap := t.heap, marks := t.marks)
    decreases |l|
  {
    if l != [] {
      SweepSeqFrame(s, l[1..]);
      SweepSeqFrame(Free(s, l[0]), l[1..]);
      if l[0] in s.marks { SweepSeqFrame(SetMark(s, l[0], MakeWhite(s.marks[l[0]], s.white1)), l[1..]); }
    }
  }

  lemma StepKeepsInv(s: State)
    requires Inv(s) && Ready(s)
    ensures Inv(SingleStep(s))
  {
    hide Inv, MarkInv, MarkRoot, Atomic, SweepStringStep, SweepStep, PropagateMark;
    match s.gcstate
    case Pause => assert AllClean(s) by { InvClean(s); } MarkRootKeeps(s);
    case Propagate => if s.gray != [] { PropagateKeepsInv(s); } else { AtomicKeeps(s); }
    case SweepString => SweepStringKeeps(s);
    case Sweep => SweepStepKeeps(s);
    case Finalize => FinalizeKeeps(s);
  }

  lemma InvClean(s: State)
    requires Inv(s) && (s.gcstate == Pause || s.gcstate == Finalize)
    ensures AllClean(s)
  {}

  lemma PropagateKeepsInv(s: State)
    requires Inv(s) && s.gcstate == Propagate && s.gray != []
    ensures s.heap.Keys == s.marks.Keys && forall x :: x in s.gray ==> x in s.heap
    ensures Inv(PropagateMark(s))
  {
    assert MarkInv(s, {}) && RootsMarked(s);
    hide Inv, MarkInv;
    PropagateMarkKeeps(s);
    MarkInvIsInv(PropagateMark(s));
  }

  lemma FinalizeKeeps(s: State)
    requires Inv(s) && s.gcstate == Finalize
    ensures Inv(s.(gcstate := Pause))
  {
    var t := s.(gcstate := Pause);
    assert Roots(t) == Roots(s);
    assert forall x :: Live(s, x) <==> Live(t, x);
    assert Strings(t) == Strings(s) && NonStrings(t) == NonStrings(s);
    forall r | Live(t, r) ensures Typed(t, t.heap[r]) { assert Live(s, r) && Typed(s, s.heap[r]); }
  }

  lemma StepKeepsLive(s: State, x: Ref)
    requires Inv(s) && Ready(s) && Live(s, x)
    ensures Kept(s, SingleStep(s), x)
  {
    assert x in s.heap;
    hide Inv, MarkInv, Live, SweepStringStep, SweepStep, MarkAll, PropagateMark, AtomicMark, Kept, SameKids;
    match s.gcstate
    case Pause => KeptSame(s, SingleStep(s), x);
    case Propagate =>
      if s.gray != [] {
        assert forall y :: y in s.gray ==> y in s.gray + s.grayagain;
        PropagateMarkKids(s);
      } else {
        AtomicKids(s);
      }
      KeptKids(s, SingleStep(s), x);
    case SweepString =>
      SweepStringKeeps(s);
      LiveIn(SweepStringStep(s), x);
      KeptSame(s, SingleStep(s), x);
    case Sweep =>
      SweepStepKeeps(s);
      LiveIn(SweepStep(s), x);
      KeptSame(s, SingleStep(s), x);
    case Finalize => KeptSame(s, SingleStep(s), x);
  }

  lemma LiveIn(s: State, x: Ref)
    requires Live(s, x)
    ensures x in s.heap
  {}

  // ---------------------------------------------------------------------
  // The mutator keeps the invariant

  /** The conjuncts of the invariant that depend on the phase. */
  ghost predicate PhaseInv(s: State)
    requires Shape(s)
  {
    match s.gcstate
    case Pause | Finalize => AllClean(s)
    case Propagate => NoDead(s) && TriColorInv(s, {}) && RootsMarked(s)
    case SweepString | Sweep => Sweeping(s)
  }

  lemma InvParts(s: State)
    ensures Inv(s) <==> Shape(s) && Linked(s) && MarksOK(s) && LiveClosed(s) && PhaseInv(s)
  {}

  // --- changing the contents of one object

  /** `t` is `s` with new contents of the same kind for `o`, referring to
      nothing new but live objects. */
  ghost predicate Rewritten(s: State, t: State, o: Ref) {
    && o in s.heap && t.heap.Keys == s.heap.Keys
    && t == s.(heap := s.heap[o := t.heap[o]])
    && SameKind(s.heap[o], t.heap[o])
    && Typed(s, t.heap[o])
    && forall x :: x in Refs(t.heap[o]) ==> x in Refs(s.heap[o]) || Live(s, x)
  }

  lemma RewriteKeeps(s: State, t: State, o: Ref)
    requires Shape(s) && Linked(s) && MarksOK(s) && LiveClosed(s) && Rewritten(s, t, o)
    ensures Shape(t) && Linked(t) && MarksOK(t) && LiveClosed(t)
  {
    hide *;
    RewriteShape(s, t, o);
    RewriteKinds(s, t, o);
    SameLinked(s, t);
    RewriteClosed(s, t, o);
    RewriteMarks(s, t, o);
  }

  lemma RewriteKinds(s: State, t: State, o: Ref)
    requires Rewritten(s, t, o)
    ensures Strings(t) == Strings(s) && NonStrings(t) == NonStrings(s) && t.rootgc == s.rootgc && t.strt == s.strt
  {}

  lemma RewriteMarks(s: State, t: State, o: Ref)
    requires Rewritten(s, t, o) && MarksOK(s)
    ensures MarksOK(t)
  {}

  lemma RewriteClosed(s: State, t: State, o: Ref)
    requires LiveClosed(s) && Rewritten(s, t, o)
    ensures LiveClosed(t)
  {
    assert Roots(t) == Roots(s);
    assert forall x :: Live(s, x) <==> Live(t, x);
    forall r, x | Live(t, r) && x in Refs(t.heap[r]) ensures Live(t, x) {
      if r != o || x in Refs(s.heap[o]) { assert Live(s, r) && Live(s, x); }
    }
  }

  lemma SameLinked(s: State, t: State)
    requires Linked(s) && Strings(t) == Strings(s) && NonStrings(t) == NonStrings(s)
    requires t.rootgc == s.rootgc && t.strt == s.strt
    ensures Linked(t)
  {}

  lemma RewriteShape(s: State, t: State, o: Ref)
    requires Shape(s) && Rewritten(s, t, o)
    ensures Shape(t)
  {
    assert forall x :: x in s.heap ==> t.heap[x].TString? == s.heap[x].TString?;
    forall r | Live(t, r) ensures Typed(t, t.heap[r]) { assert Live(s, r) && Typed(s, s.heap[r]); }
  }

  /** Outside the mark phase new contents do not matter; inside it they do
      only for a black object. */
  lemma RewriteWorkLists(s: State, t: State, o: Ref)
    requires WorkLists(s) && Rewritten(s, t, o)
    ensures WorkLists(t)
  {
    hide Typed;
    assert IsContainer(t.heap[o]) == IsContainer(s.heap[o]);
  }

  lemma RewritePhase(s: State, t: State, o: Ref)
    requires Shape(s) && PhaseInv(s) && Rewritten(s, t, o) && Shape(t)
    ensures s.gcstate != Propagate ==> PhaseInv(t)
    ensures s.gcstate == Propagate ==> NoDead(t) && TriColorInv(t, {o}) && RootsMarked(t)
    ensures s.gcstate == Propagate && !IsBlack(s.marks[o]) ==> PhaseInv(t)
  {
    assert forall x :: NonWhite(s, x) <==> NonWhite(t, x);
    assert forall x :: Unswept(s, x) ==> Unswept(t, x);
    if s.gcstate == Propagate {
      RewriteWorkLists(s, t, o);
      assert TriColor(t, {o});
    }
  }

  // --- changing the mark of one live object

  /** `t` is `s` with another mark on `o`, which does not make it dead. */
  ghost predicate Remarked(s: State, t: State, o: Ref, m: Mark) {
    && o in s.heap && o in s.marks && t == SetMark(s, o, m).(grayagain := t.grayagain)
    && !IsDead(m, s.white1) && m.fixed == s.marks[o].fixed
    && !(m.w0 && m.w1) && (m.black ==> !IsWhite(m))
    && (Live(s, o) || s.heap[o].TString?)
  }

  lemma RemarkKeeps(s: State, t: State, o: Ref, m: Mark)
    requires Shape(s) && Linked(s) && MarksOK(s) && LiveClosed(s) && Remarked(s, t, o, m)
    ensures Shape(t) && Linked(t) && MarksOK(t) && LiveClosed(t)
  {
    assert MarksOK(t);
    assert Strings(t) == Strings(s) && NonStrings(t) == NonStrings(s) && t.rootgc == s.rootgc && t.strt == s.strt;
    hide *;
    SameLinked(s, t);
    RemarkClosed(s, t, o, m);
    RemarkShape(s, t, o, m);
  }

  lemma RemarkClosed(s: State, t: State, o: Ref, m: Mark)
    requires LiveClosed(s) && Remarked(s, t, o, m)
    ensures LiveClosed(t)
  {
    assert Roots(t) == Roots(s);
    forall r, x | Live(t, r) && x in Refs(t.heap[r]) ensures Live(t, x) { assert Live(s, r) && Live(s, x); }
  }

  lemma RemarkShape(s: State, t: State, o: Ref, m: Mark)
    requires Shape(s) && Remarked(s, t, o, m)
    ensures Shape(t)
  {
    forall r | Live(t, r) ensures Typed(t, t.heap[r]) {
      if !s.heap[r].TString? { assert Live(s, r) && Typed(s, s.heap[r]); }
    }
  }

  lemma BackKeeps(s: State, o: Ref)
    requires Shape(s) && Linked(s) && MarksOK(s) && LiveClosed(s) && o in s.heap && IsBlack(s.marks[o])
    requires s.heap[o].Table?
    requires if s.gcstate == Propagate then NoDead(s) && TriColorInv(s, {o}) && RootsMarked(s) else PhaseInv(s)
    ensures Inv(BarrierBack(s, o))
  {
    var t := BarrierBack(s, o);
    assert Remarked(s, t, o, Black2Gray(s.marks[o])) by { assert Live(s, o); }
    assert s.heap.Keys == s.marks.Keys;
    BackPhase(s, o);
    hide *;
    RemarkKeeps(s, t, o, Black2Gray(s.marks[o]));
    InvParts(t);
  }

  lemma BackPhase(s: State, o: Ref)
    requires Shape(s) && MarksOK(s) && o in s.heap && IsBlack(s.marks[o]) && s.heap[o].Table?
    requires if s.gcstate == Propagate then NoDead(s) && TriColorInv(s, {o}) && RootsMarked(s) else PhaseInv(s)
    ensures var t := BarrierBack(s, o); Shape(t) ==> PhaseInv(t)
  {
    var t := BarrierBack(s, o);
    if Shape(t) {
      if s.gcstate == Propagate {
        assert s.heap.Keys == s.marks.Keys && NoDead(t);
        hide Shape, NoDead, TriColorInv, MarksOK;
        BackColors(s, o);
      } else if s.gcstate == SweepString || s.gcstate == Sweep {
        assert Sweeping(s);
        hide PhaseInv, MarksOK, TriColorInv;
        BackSweeping(s, o);
        assert PhaseInv(t) by { SweepingPhase(t); }
      }
    }
  }

  lemma SweepingPhase(s: State)
    requires Shape(s) && Sweeping(s) && (s.gcstate == SweepString || s.gcstate == Sweep)
    ensures PhaseInv(s)
  {}

  lemma BackSweeping(s: State, o: Ref)
    requires Shape(s) && Sweeping(s) && o in s.heap && IsBlack(s.marks[o]) && Shape(BarrierBack(s, o))
    ensures Sweeping(BarrierBack(s, o))
  {
    var t := BarrierBack(s, o);
    assert forall x :: Unswept(s, x) ==> Unswept(t, x);
  }

  lemma BackColors(s: State, o: Ref)
    requires s.heap.Keys == s.marks.Keys && MarksOK(s) && TriColorInv(s, {o}) && RootsMarked(s)
    requires o in s.heap && IsBlack(s.marks[o]) && s.heap[o].Table?
    ensures var t := BarrierBack(s, o); TriColorInv(t, {}) && RootsMarked(t)
  {
    var t := BarrierBack(s, o);
    BackWorkLists(s, o);
    hide WorkLists;
    assert forall x :: NonWhite(s, x) <==> NonWhite(t, x);
    assert TriColor(t, {});
  }

  lemma BackWorkLists(s: State, o: Ref)
    requires s.heap.Keys == s.marks.Keys && MarksOK(s) && WorkLists(s)
    requires o in s.heap && IsBlack(s.marks[o]) && s.heap[o].Table?
    ensures WorkLists(BarrierBack(s, o))
  {
    var t := BarrierBack(s, o);
    var l, m := s.gray + s.grayagain, t.gray + t.grayagain;
    assert o !in l;
    assert m == s.gray + [o] + s.grayagain;
    assert forall x :: x in m <==> x == o || x in l;
    forall i, j | 0 <= i < j < |m| ensures m[i] != m[j] {
      var i', j' := if i < |s.gray| then i else i - 1, if j < |s.gray| then j else j - 1;
      if i != |s.gray| && j != |s.gray| { assert m[i] == l[i'] && m[j] == l[j']; }
      else if i == |s.gray| { assert m[j] == l[j']; } else { assert m[i] == l[i']; }
    }
  }

  lemma ForwardKeepsSweep(s: State, o: Ref)
    requires Shape(s) && Linked(s) && MarksOK(s) && LiveClosed(s) && o in s.heap && IsBlack(s.marks[o])
    requires s.gcstate != Propagate && PhaseInv(s)
    ensures Inv(SetMark(s, o, MakeWhite(s.marks[o], s.white1)))
  {
    var t := SetMark(s, o, MakeWhite(s.marks[o], s.white1));
    assert Live(s, o);
    RemarkKeeps(s, t, o, MakeWhite(s.marks[o], s.white1));
    InvParts(t);
    assert forall x :: Unswept(s, x) ==> Unswept(t, x);
  }

  lemma ForwardKeepsMark(s: State, o: Ref, v: Ref)
    requires MarkInv(s, {o}) && RootsMarked(s) && s.gcstate == Propagate
    requires s.heap.Keys == s.marks.Keys && o in s.heap && IsBlack(s.marks[o])
    requires v in s.heap && IsWhite(s.marks[v])
    requires forall x :: x in Refs(s.heap[o]) ==> x == v || NonWhite(s, x)
    ensures Inv(ReallyMark(s, v))
  {
    assert NonWhite(s, s.mainthread) && forall x :: x in ValRefs(s.registry) ==> NonWhite(s, x);
    MarkInvFacts(s, {o});
    hide *;
    var t := ReallyMark(s, v);
    ReallyMarkMarks(s, v);
    MarkedKeepsMarkInv(s, t, {o});
    MarkedKeepsNonWhite(s, t);
    MarkedFrame(s, t);
    CloseOpen(t, o);
    RootsMarkedIntro(t);
    MarkInvIsInv(t);
  }

  lemma RootsMarkedIntro(s: State)
    requires NonWhite(s, s.mainthread) && forall x :: x in ValRefs(s.registry) ==> NonWhite(s, x)
    ensures RootsMarked(s)
  {}

  /** The asserts at the head of both barriers: neither object is dead, and the
      collector is marking or sweeping. */
  lemma BarrierAsserts(s: State, o: Ref, v: Value)
    requires Inv(s) && s.heap.Keys == s.marks.Keys && Reachable(s, o) && ReachableValue(s, v) && BarrierFires(s, o, v)
    ensures !IsDead(s.marks[o], s.white1) && !IsDead(s.marks[v.r], s.white1)
    ensures s.gcstate != Finalize && s.gcstate != Pause
  {
    ReachableLive(s, o);
    ReachableLive(s, v.r);
  }

  /** The state between a store and its barrier. */
  lemma StoreBase(s: State, o: Ref, content: GCObject, v: Value)
    requires Inv(s) && Ready(s) && Enabled(s, Store(o, content, v))
    ensures var t := s.(heap := s.heap[o := content]);
      && Shape(t) && Linked(t) && MarksOK(t) && LiveClosed(t) && t.heap.Keys == t.marks.Keys
      && (v.Obj? ==> v.r in t.heap)
      && (s.gcstate != Propagate || !IsBlack(s.marks[o]) ==> PhaseInv(t))
      && (s.gcstate == Propagate ==> NoDead(t) && TriColorInv(t, {o}) && RootsMarked(t))
      && (s.gcstate == Propagate && IsBlack(s.marks[o]) ==>
            forall x :: x in Refs(content) ==> v == Obj(x) || NonWhite(t, x))
  {
    var t := s.(heap := s.heap[o := content]);
    ReachableLive(s, o);
    if v.Obj? { ReachableLive(s, v.r); }
    StoredRefs(s, o, content, v);
    InvParts(s);
    if s.gcstate == Propagate && IsBlack(s.marks[o]) { StoredBlack(s, o, content, v); }
    assert v.Obj? ==> v.r in t.heap;
    hide *;
    RewriteKeeps(s, t, o);
    RewritePhase(s, t, o);
    MarksKeys(t);
  }

  lemma MarksKeys(s: State)
    requires Shape(s)
    ensures s.heap.Keys == s.marks.Keys
  {}

  lemma StoredRefs(s: State, o: Ref, content: GCObject, v: Value)
    requires Inv(s) && Ready(s) && Enabled(s, Store(o, content, v)) && (v.Obj? ==> Live(s, v.r))
    ensures Rewritten(s, s.(heap := s.heap[o := content]), o)
  {}

  lemma StoredBlack(s: State, o: Ref, content: GCObject, v: Value)
    requires Inv(s) && Ready(s) && Enabled(s, Store(o, content, v)) && s.gcstate == Propagate && IsBlack(s.marks[o])
    ensures var t := s.(heap := s.heap[o := content]);
            forall x :: x in Refs(content) ==> v == Obj(x) || NonWhite(t, x)
  {
    var t := s.(heap := s.heap[o := content]);
    forall x | x in Refs(content) && v != Obj(x) ensures NonWhite(t, x) { assert NonWhite(s, x); }
  }

  /** A store followed by its barrier keeps the invariant. */
  lemma StoreKeeps(s: State, o: Ref, content: GCObject, v: Value)
    requires Inv(s) && Ready(s) && Enabled(s, Store(o, content, v))
    ensures Inv(Stored(s, o, content, v))
  {
    var t := s.(heap := s.heap[o := content]);
    StoreBase(s, o, content, v);
    hide Inv, Shape, Linked, MarksOK, LiveClosed, PhaseInv, TriColorInv, RootsMarked, ReallyMark;
    InvParts(t);
    if BarrierFires(t, o, v) {
      assert Barrier(t, o, v) == if t.heap[o].Table? then BarrierBack(t, o) else BarrierForward(t, o, v.r);
      if t.heap[o].Table? { BackKeeps(t, o); }
      else if s.gcstate == Propagate { MarkInvIntro(t, {o}); ForwardKeepsMark(t, o, v.r); }
      else { ForwardKeepsSweep(t, o); }
    } else if s.gcstate == Propagate && IsBlack(s.marks[o]) {
      assert forall x :: x in Refs(t.heap[o]) ==> NonWhite(t, x);
      MarkInvIntro(t, {o});
      CloseOpen(t, o);
      MarkInvIsInv(t);
    }
  }

  // --- pushing, allocating, interning

  lemma PushKeeps(s: State, v: Value)
    requires Inv(s) && Ready(s) && (v.Obj? ==> Live(s, v.r))
    ensures Inv(PushValue(s, v))
  {
    var t := PushValue(s, v);
    var o := s.heap[s.cur];
    PushedRefs(o, v);
    InvParts(s);
    assert Rewritten(s, t, s.cur);
    assert s.gcstate == Propagate ==> !IsBlack(s.marks[s.cur]);
    hide *;
    RewriteKeeps(s, t, s.cur);
    RewritePhase(s, t, s.cur);
    InvParts(t);
  }

  lemma PushedRefs(o: GCObject, v: Value)
    requires o.Thread?
    ensures forall x :: x in Refs(Pushed(o, v)) ==> x in Refs(o) || v == Obj(x)
  {
    var p := Pushed(o, v);
    forall x | x in Refs(p) ensures x in Refs(o) || v == Obj(x) {
      ValsRefsIn(p.stack, x);
      ValsRefsIn(o.stack, x);
    }
  }

  lemma InternKeeps(s: State, r: Ref)
    requires Inv(s) && Ready(s) && Enabled(s, Intern(r))
    ensures Inv(Interned(s, r))
  {
    var m := s.marks[r];
    var m' := if IsDead(m, s.white1) then ChangeWhite(m) else m;
    var t := SetMark(s, r, m');
    InvParts(s);
    InternPhase(s, r, m');
    InternMark(s, r, m');
    assert Remarked(s, t, r, m');
    assert Ready(t) && Interned(s, r) == PushValue(t, Obj(r));
    hide *;
    RemarkKeeps(s, t, r, m');
    InvParts(t);
    PushKeeps(t, Obj(r));
  }

  lemma InternMark(s: State, r: Ref, m: Mark)
    requires MarksOK(s) && r in s.heap && r in s.marks
    requires m == if IsDead(s.marks[r], s.white1) then ChangeWhite(s.marks[r]) else s.marks[r]
    ensures !IsDead(m, s.white1) && m.fixed == s.marks[r].fixed && !(m.w0 && m.w1) && (m.black ==> !IsWhite(m))
    ensures Live(SetMark(s, r, m), r)
    ensures IsDead(s.marks[r], s.white1) ==> Clean(m, s.white1)
  {}

  lemma InternPhase(s: State, r: Ref, m: Mark)
    requires Shape(s) && MarksOK(s) && PhaseInv(s) && r in s.heap
    requires m == if IsDead(s.marks[r], s.white1) then ChangeWhite(s.marks[r]) else s.marks[r]
    ensures Shape(SetMark(s, r, m)) ==> PhaseInv(SetMark(s, r, m))
  {
    var t := SetMark(s, r, m);
    InternMark(s, r, m);
    if IsDead(s.marks[r], s.white1) {
      assert s.gcstate != Propagate;
      assert forall x :: Unswept(s, x) ==> Unswept(t, x);
    } else {
      assert t.marks == s.marks;
      assert t == s;
    }
  }

  lemma InsertKeeps(s: State, r: Ref, o: GCObject, at: nat)
    requires Inv(s) && Ready(s) && Enabled(s, Alloc(r, o, at))
    ensures Inv(Inserted(s, r, o, at)) && Live(Inserted(s, r, o, at), r)
  {
    var t := Inserted(s, r, o, at);
    forall x | x in Refs(o) ensures Live(s, x) { ReachableLive(s, x); }
    InvParts(s);
    InsertBase(s, r, o, at);
    if o.TString? { InsertString(s, r, o, at); } else { InsertRoot(s, r, o, at); }
    hide *;
    InvParts(t);
  }

  lemma InsertTyped(s: State, t: State, r: Ref, o: GCObject)
    requires r !in s.heap && Typed(s, o) && t.heap.Keys == s.heap.Keys + {r}
    requires forall x :: x in s.heap ==> t.heap[x] == s.heap[x]
    requires forall x :: x in Refs(o) ==> Live(s, x)
    ensures Typed(t, o)
  {
    if o.Proto? {
      OptsRefsIn(o.names, r);
      OptsRefsIn(o.locvars, r);
      assert r !in Refs(o);
      assert o.source != Some(r) && Some(r) !in o.names && Some(r) !in o.locvars;
    }
  }

  lemma InsertBase(s: State, r: Ref, o: GCObject, at: nat)
    requires Shape(s) && MarksOK(s) && LiveClosed(s) && r !in s.heap && Typed(s, o)
    requires if o.TString? then at < |s.strt| else at <= |s.rootgc|
    requires forall x :: x in Refs(o) ==> Live(s, x)
    ensures var t := Inserted(s, r, o, at); Shape(t) && MarksOK(t) && LiveClosed(t) && Live(t, r)
  {
    hide MarksOK;
    var t := Inserted(s, r, o, at);
    forall x | Live(t, x) ensures Typed(t, t.heap[x]) {
      if x != r { assert Live(s, x) && Typed(s, s.heap[x]); forall y | y in Refs(s.heap[x]) ensures Live(s, y) {} }
      InsertTyped(s, t, r, t.heap[x]);
    }
    InsertClosed(s, r, o, at);
    InsertMarksOK(s, r, o, at);
  }

  lemma InsertMarksOK(s: State, r: Ref, o: GCObject, at: nat)
    requires MarksOK(s) && s.heap.Keys == s.marks.Keys && r !in s.heap
    requires if o.TString? then at < |s.strt| else at <= |s.rootgc|
    ensures MarksOK(Inserted(s, r, o, at))
  {
  }

  lemma InsertClosed(s: State, r: Ref, o: GCObject, at: nat)
    requires Shape(s) && LiveClosed(s) && r !in s.heap
    requires if o.TString? then at < |s.strt| else at <= |s.rootgc|
    requires forall x :: x in Refs(o) ==> Live(s, x)
    ensures var t := Inserted(s, r, o, at); LiveClosed(t) && Live(t, r)
  {
    hide Typed;
    var t := Inserted(s, r, o, at);
    assert Roots(t) == Roots(s);
    assert forall x :: Live(s, x) ==> Live(t, x);
    forall x, y | Live(t, x) && y in Refs(t.heap[x]) ensures Live(t, y) {
      if x != r { assert Live(s, x) && Live(s, y); } else { assert Live(s, y); }
    }
  }

  lemma InsertString(s: State, r: Ref, o: GCObject, at: nat)
    requires Shape(s) && Linked(s) && PhaseInv(s) && r !in s.heap && o.TString? && at < |s.strt|
    ensures var t := Inserted(s, r, o, at); Linked(t) && (Shape(t) ==> PhaseInv(t))
  {
    var t := Inserted(s, r, o, at);
    assert Strings(t) == Strings(s) + {r} && NonStrings(t) == NonStrings(s);
    assert forall b, x :: 0 <= b < |s.strt| && x in s.strt[b] ==> x in t.strt[b];
    assert forall b, x :: 0 <= b < |t.strt| && x in t.strt[b] ==> (b == at && x == r) || x in s.strt[b];
    assert r in t.strt[at];
    assert r !in Strings(s);
    InsertPhase(s, r, o, at);
    assert Split(t.strt, Strings(t)) by { SplitInsert(s.strt, Strings(s), at, r); }
  }

  lemma SplitInsert(ls: seq<seq<Ref>>, S: set<Ref>, at: nat, r: Ref)
    requires Split(ls, S) && at < |ls| && r !in S
    ensures Split(ls[at := [r] + ls[at]], S + {r})
  {
    var ms := ls[at := [r] + ls[at]];
    assert forall b, x :: 0 <= b < |ms| && x in ms[b] ==> (b == at && x == r) || x in ls[b];
    assert forall b, x :: 0 <= b < |ls| && x in ls[b] ==> x in ms[b];
    assert r in ms[at];
    forall x | x in S + {r} ensures exists b :: 0 <= b < |ms| && x in ms[b] {
      if x != r {
        var b :| 0 <= b < |ls| && x in ls[b];
        assert x in ms[b];
      }
    }
  }

  lemma InsertRoot(s: State, r: Ref, o: GCObject, at: nat)
    requires Shape(s) && Linked(s) && PhaseInv(s) && r !in s.heap && !o.TString? && at <= |s.rootgc|
    ensures var t := Inserted(s, r, o, at); Linked(t) && (Shape(t) ==> PhaseInv(t))
  {
    InsertPhase(s, r, o, at);
    hide Shape, PhaseInv;
    var t := Inserted(s, r, o, at);
    assert Strings(t) == Strings(s) && NonStrings(t) == NonStrings(s) + {r};
    assert t.rootgc == s.rootgc[..at] + [r] + s.rootgc[at..] && t.strt == s.strt;
    assert r !in Elems(s.rootgc);
    hide Inserted;
    NoDupInsert(s.rootgc, at, r);
    LinkedIntro(t);
  }

  lemma NoDupInsert(l: seq<Ref>, at: nat, r: Ref)
    requires NoDup(l) && at <= |l| && r !in Elems(l)
    ensures NoDup(l[..at] + [r] + l[at..]) && Elems(l[..at] + [r] + l[at..]) == Elems(l) + {r}
  {
    var a, c, m := l[..at], l[at..], l[..at] + [r] + l[at..];
    assert l == a + c;
    forall i, j | 0 <= i < j < |m| ensures m[i] != m[j] {
      if i == at { assert m[j] == l[j - 1]; }
      else if j == at { assert m[i] == l[i]; }
      else { assert m[i] == l[if i < at then i else i - 1] && m[j] == l[if j < at then j else j - 1]; }
    }
    assert forall x :: x in m <==> x in a || x == r || x in c;
  }

  lemma InsertPhase(s: State, r: Ref, o: GCObject, at: nat)
    requires Shape(s) && PhaseInv(s) && r !in s.heap
    requires if o.TString? then at < |s.strt| else at <= |s.rootgc|
    ensures var t := Inserted(s, r, o, at); Shape(t) ==> PhaseInv(t)
  {
    var t := Inserted(s, r, o, at);
    if Shape(t) {
      assert s.heap.Keys == s.marks.Keys;
      assert t.marks == s.marks[r := NewMark(s.white1)] && t.heap == s.heap[r := o];
      if s.gcstate == Propagate {
        assert NoDead(t);
        hide Shape, Inserted, NoDead;
        InsertColors(s, t, r);
      } else if s.gcstate == SweepString || s.gcstate == Sweep {
        forall x | x in t.marks && !Clean(t.marks[x], t.white1) ensures Unswept(t, x) {
          assert Unswept(s, x);
          InsertUnswept(s, r, o, at, x);
        }
      }
    }
  }

  lemma InsertColors(s: State, t: State, r: Ref)
    requires s.heap.Keys == s.marks.Keys && r !in s.heap && TriColorInv(s, {}) && RootsMarked(s)
    requires t.gray == s.gray && t.grayagain == s.grayagain
    requires t.registry == s.registry && t.mainthread == s.mainthread
    requires r in t.heap && t.heap == s.heap[r := t.heap[r]] && t.marks == s.marks[r := NewMark(s.white1)]
    ensures TriColorInv(t, {}) && RootsMarked(t)
  {
    assert forall x :: NonWhite(s, x) ==> NonWhite(t, x);
    assert TriColor(t, {});
  }

  lemma InsertUnswept(s: State, r: Ref, o: GCObject, at: nat, x: Ref)
    requires Shape(s) && r !in s.heap && x in s.heap && Unswept(s, x)
    requires if o.TString? then at < |s.strt| else at <= |s.rootgc|
    ensures Unswept(Inserted(s, r, o, at), x)
  {
    var t := Inserted(s, r, o, at);
    if s.heap[x].TString? {
      var b :| s.sweepstrgc <= b < |s.strt| && x in s.strt[b];
      assert x in t.strt[b];
    } else if !o.TString? {
      var k :| s.sweepgc <= k < |s.rootgc| && s.rootgc[k] == x;
      var k' := if k < at then k else k + 1;
      assert t.rootgc[k'] == x && t.sweepgc <= k';
      assert t.rootgc[t.sweepgc..][k' - t.sweepgc] == x;
    }
  }

  lemma AllocKeeps(s: State, r: Ref, o: GCObject, at: nat)
    requires Inv(s) && Ready(s) && Enabled(s, Alloc(r, o, at))
    ensures Inv(Allocated(s, r, o, at))
  {
    InsertKeeps(s, r, o, at);
    InvReady(Inserted(s, r, o, at));
    PushKeeps(Inserted(s, r, o, at), Obj(r));
  }

  // --- the roots and the string table

  lemma RootsKeep(s: State, t: State)
    requires Inv(s) && t == s.(mt := t.mt, cur := t.cur)
    requires t.cur in s.heap && s.heap[t.cur].Thread?
    requires forall x :: x in Roots(t) ==> Live(s, x)
    ensures Inv(t)
  {
    forall r | Live(t, r) ensures Typed(t, t.heap[r]) { assert Live(s, r) && Typed(s, s.heap[r]); }
    assert forall x :: Live(s, x) <==> Live(t, x);
    assert forall x :: NonWhite(s, x) <==> NonWhite(t, x);
    assert forall x :: Unswept(s, x) ==> Unswept(t, x);
    assert Strings(t) == Strings(s) && NonStrings(t) == NonStrings(s);
  }

  lemma SetMetatableKeeps(s: State, tag: nat, m: Option<Ref>)
    requires Inv(s) && Enabled(s, SetMetatable(tag, m))
    ensures Inv(s.(mt := s.mt[tag := m]))
  {
    var t := s.(mt := s.mt[tag := m]);
    if m.Some? { ReachableLive(s, m.value); }
    assert s.mainthread in Roots(s) && s.cur in Roots(s);
    forall x | x in Roots(t) ensures Live(s, x) {
      OptsRefsIn(t.mt, x);
      OptsRefsIn(s.mt, x);
      if Some(x) in t.mt && m != Some(x) { assert Some(x) in s.mt; assert x in Roots(s); }
      if x in ValRefs(s.registry) { assert x in Roots(s); }
    }
    RootsKeep(s, t);
  }

  lemma ResumeKeeps(s: State, th: Ref)
    requires Inv(s) && Enabled(s, Resume(th))
    ensures Inv(s.(cur := th))
  {
    var t := s.(cur := th);
    ReachableLive(s, th);
    forall x | x in Roots(t) ensures Live(s, x) { if x != th { assert x in Roots(s); } }
    RootsKeep(s, t);
  }

  lemma ResizeKeeps(s: State, buckets: seq<seq<Ref>>)
    requires Inv(s) && Enabled(s, ResizeStrings(buckets))
    ensures Inv(s.(strt := buckets))
  {
    var t := s.(strt := buckets);
    forall r | Live(t, r) ensures Typed(t, t.heap[r]) { assert Live(s, r) && Typed(s, s.heap[r]); }
    assert Roots(t) == Roots(s);
    assert forall x :: Live(s, x) <==> Live(t, x);
    assert forall x :: NonWhite(s, x) <==> NonWhite(t, x);
    assert s.gcstate == Sweep ==> forall x :: Unswept(s, x) ==> Unswept(t, x);
    assert Strings(t) == Strings(s) && NonStrings(t) == NonStrings(s);
  }

  lemma SetRegistryKeeps(s: State, r: Ref)
    requires Inv(s) && Enabled(s, SetRegistry(r))
    ensures Inv(s.(registry := Obj(r)))
  {
    var t := s.(registry := Obj(r));
    ReachableLive(s, r);
    forall x | x in Roots(t) ensures Live(s, x) { if x != r { assert x in Roots(s); } }
    forall x | Live(t, x) ensures Typed(t, t.heap[x]) { assert Live(s, x) && Typed(s, s.heap[x]); }
    assert forall x :: Live(s, x) <==> Live(t, x);
    assert Strings(t) == Strings(s) && NonStrings(t) == NonStrings(s);
  }

  /** `t` is `s` with the string `r` fixed. */
  ghost predicate Fixed(s: State, t: State, r: Ref) {
    Live(s, r) && s.heap[r].TString? && t == SetMark(s, r, s.marks[r].(fixed := true))
  }

  lemma FixBase(s: State, t: State, r: Ref)
    requires Shape(s) && Linked(s) && MarksOK(s) && LiveClosed(s) && Fixed(s, t, r)
    ensures Shape(t) && Linked(t) && MarksOK(t) && LiveClosed(t)
  {
    forall x | Live(t, x) ensures Typed(t, t.heap[x]) { assert Live(s, x) && Typed(s, s.heap[x]); }
    assert Roots(t) == Roots(s);
    assert forall x :: Live(s, x) <==> Live(t, x);
    assert Strings(t) == Strings(s) && NonStrings(t) == NonStrings(s);
  }

  lemma FixPhase(s: State, t: State, r: Ref)
    requires Shape(s) && PhaseInv(s) && Fixed(s, t, r) && Shape(t)
    ensures PhaseInv(t)
  {
    hide Shape;
    assert forall x :: NonWhite(s, x) <==> NonWhite(t, x);
    assert forall x :: Unswept(s, x) ==> Unswept(t, x);
    assert s.gcstate == Propagate && WorkLists(s) ==> WorkLists(t);
  }

  lemma FixKeeps(s: State, r: Ref)
    requires Inv(s) && Enabled(s, Fix(r))
    ensures Inv(SetMark(s, r, s.marks[r].(fixed := true)))
  {
    hide Inv, Shape, Linked, MarksOK, LiveClosed, PhaseInv;
    var t := SetMark(s, r, s.marks[r].(fixed := true));
    InvParts(s);
    InvParts(t);
    FixBase(s, t, r);
    FixPhase(s, t, r);
  }

  // ---------------------------------------------------------------------
  // What the mutator's actions do to the objects

  /** `p` is the thread `o` with one more value on its stack. */
  ghost predicate OnePushed(o: GCObject, p: GCObject, v: Value) {
    && o.Thread? && p.Thread? && p.gt == o.gt
    && 0 < p.top <= |p.stack| && p.stack[p.top - 1] == v
    && p.top - 1 == (if o.top <= |o.stack| then o.top else |o.stack|)
    && forall i :: 0 <= i < p.top - 1 ==> p.stack[i] == o.stack[i]
  }

  /** The heap but for the running thread, on which `v` has been pushed. */
  ghost predicate HeapPushed(s: State, t: State, v: Value) {
    && s.cur in s.heap && t.cur == s.cur && t.heap.Keys >= s.heap.Keys
    && (forall x :: x in s.heap && x != s.cur ==> t.heap[x] == s.heap[x])
    && OnePushed(s.heap[s.cur], t.heap[s.cur], v)
  }

  ghost predicate Did(s: State, e: Event, t: State) {
    match e
    case Collect => Keeps(s, t)
    case Alloc(r, o, at) => t.heap.Keys == s.heap.Keys + {r} && t.heap[r] == o && HeapPushed(s, t, Obj(r)) && Reachable(t, r)
    case Intern(r) => t.heap.Keys == s.heap.Keys && HeapPushed(s, t, Obj(r)) && Reachable(t, r)
    case Store(o, content, v) => t.heap == s.heap[o := content] && Roots(t) == Roots(s)
    case SetMetatable(tag, m) => t.heap == s.heap && tag < |s.mt| && t.mt == s.mt[tag := m]
    case Resume(th) => t.heap == s.heap && t.cur == th
    case ResizeStrings(buckets) => t.heap == s.heap && t.strt == buckets
    case SetRegistry(r) => t.heap == s.heap && t.registry == Obj(r)
    case Fix(r) => t.heap == s.heap && r in t.marks && t.marks[r].fixed
  }

  /** Every event does what it is there for, and changes nothing else that the
      mutator reads. */
  lemma EventDoes(s: State, e: Event)
    requires Inv(s) && Ready(s) && Enabled(s, e)
    ensures Did(s, e, Apply(s, e))
  {
    hide Inv, Reachable, Live, SingleStep, Split, Keeps, ReallyMark, HeapPushed;
    match e
    case Collect => SingleStepKeeps(s);
    case Alloc(r, o, at) =>
      var t := Inserted(s, r, o, at);
      PushDoes(t, r);
      HeapPushedFrom(s, t, Allocated(s, r, o, at), Obj(r));
    case Intern(r) =>
      var m := s.marks[r];
      var t := SetMark(s, r, if IsDead(m, s.white1) then ChangeWhite(m) else m);
      PushDoes(t, r);
      HeapPushedFrom(s, t, Interned(s, r), Obj(r));
    case Store(o, content, v) =>
    case SetMetatable(tag, m) =>
    case Resume(th) =>
    case ResizeStrings(buckets) =>
    case SetRegistry(r) =>
    case Fix(r) =>
  }

  lemma HeapPushedFrom(s: State, t: State, u: State, v: Value)
    requires HeapPushed(t, u, v) && s.cur in s.heap && t.cur == s.cur && s.heap.Keys <= t.heap.Keys
    requires forall x :: x in s.heap ==> t.heap[x] == s.heap[x]
    ensures HeapPushed(s, u, v)
  {}

  lemma PushDoes(s: State, r: Ref)
    requires s.cur in s.heap && s.heap[s.cur].Thread?
    ensures var t := PushValue(s, Obj(r)); HeapPushed(s, t, Obj(r)) && t.heap.Keys == s.heap.Keys && Reachable(t, r)
  {
    var o, t := s.heap[s.cur], PushValue(s, Obj(r));
    var p := Pushed(o, Obj(r));
    assert OnePushed(o, p, Obj(r));
    KidsReadable(p, r);
    assert p.stack[p.top - 1] == Obj(r);
    assert Edge(t, s.cur, r);
    assert Path(t, [s.cur, r]);
  }

  // ---------------------------------------------------------------------
  // Safety over every run

  lemma ApplyKeeps(s: State, e: Event)
    requires Inv(s) && Ready(s) && Enabled(s, e)
    ensures Inv(Apply(s, e)) && Ready(Apply(s, e))
  {
    hide Inv, Reachable, Live, SingleStep, Stored, Interned, Allocated;
    match e {
      case Collect => StepKeepsInv(s);
      case Alloc(r, o, at) => AllocKeeps(s, r, o, at);
      case Intern(r) => InternKeeps(s, r);
      case Store(o, content, v) => StoreKeeps(s, o, content, v);
      case SetMetatable(tag, m) => SetMetatableKeeps(s, tag, m);
      case Resume(th) => ResumeKeeps(s, th);
      case ResizeStrings(buckets) => ResizeKeeps(s, buckets);
      case SetRegistry(t) => SetRegistryKeeps(s, t);
      case Fix(r) => FixKeeps(s, r);
    }
    InvReady(Apply(s, e));
  }

  /** lua_newstate: one fixed thread, an empty string table, everything off. */
  function NewState(main: Ref, buckets: nat, tags: nat): State {
    State(map[main := Thread(Nil, [], 0)], map[main := NewMark(false).(fixed := true)], false, Pause,
          seq(buckets, i => []), 0, [main], 0, [], [], main, Nil, seq(tags, i => None), main)
  }

  lemma {:induction false} NoRoots(l: seq<Option<Ref>>)
    requires forall i :: 0 <= i < |l| ==> l[i] == None
    ensures OptsRefs(l) == []
  {
    if l != [] { NoRoots(l[1..]); }
  }

  lemma NewStateInv(main: Ref, buckets: nat, tags: nat)
    requires buckets > 0
    ensures Inv(NewState(main, buckets, tags)) && NewState(main, buckets, tags).gcstate == Pause
  {
    var s := NewState(main, buckets, tags);
    NoRoots(s.mt);
    assert Roots(s) == [main, main];
    assert Strings(s) == {};
    assert Elems(s.rootgc) == {main} && NonStrings(s) == {main};
  }

  ghost predicate Step(s: State, e: Event, t: State) {
    Ready(s) && Enabled(s, e) && t == Apply(s, e)
  }

  /** A run: each event is enabled in the state it finds. */
  ghost predicate Run(states: seq<State>, events: seq<Event>) {
    |states| == |events| + 1 && forall i :: 0 <= i < |events| ==> Step(states[i], events[i], states[i + 1])
  }

  /** In every interleaving of collector steps with the mutator's stores,
      allocations and root changes, whatever is reachable is in the heap, no
      black object points to a white one while marking, and each event does to
      the objects what it is there for. */
  lemma {:induction false} RunSafety(states: seq<State>, events: seq<Event>, n: nat)
    requires Run(states, events) && Inv(states[0]) && n < |states|
    ensures Inv(states[n])
    ensures forall r :: Reachable(states[n], r) ==> r in states[n].heap
    ensures states[n].gcstate == Propagate ==> TriColorInv(states[n], {})
    ensures n < |events| ==> Did(states[n], events[n], states[n + 1])
    decreases n
  {
    hide Inv, Did, Ready, Enabled, Apply, Reachable, LiveClosed;
    if n > 0 {
      RunSafety(states, events, n - 1);
      assert Step(states[n - 1], events[n - 1], states[n]);
      ApplyKeeps(states[n - 1], events[n - 1]);
    }
    InvParts(states[n]);
    forall r | Reachable(states[n], r) ensures r in states[n].heap {
      ReachableLive(states[n], r);
      LiveIn(states[n], r);
    }
    if n < |events| {
      assert Step(states[n], events[n], states[n + 1]);
      EventDoes(states[n], events[n]);
    }
  }
}
