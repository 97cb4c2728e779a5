/** The incremental collector gets on by its steps alone: every cycle ends, and
    a cycle begun in the pause frees exactly what was unreachable. */
module CollectorProgress {
  import opened Options
  import opened Collector
  import opened CollectorInvariant
  import opened CollectorSafety
  import opened CollectorMutator
  import opened CollectorFull
  import opened CollectorMachine

  /** `n` single steps. */
  ghost function Iterate(s: State, n: nat): (t: State)
    requires Inv(s)
    ensures Inv(t)
    decreases n
  {
    if n == 0 then s
    else
      InvReady(s);
      StepKeepsInv(s);
      Iterate(SingleStep(s), n - 1)
  }

  lemma {:induction false} IterateTwice(s: State, m: nat, n: nat)
    requires Inv(s)
    ensures Iterate(s, m + n) == Iterate(Iterate(s, m), n)
    decreases m
  {
    hide Inv, SingleStep, Ready;
    if m > 0 {
      InvReady(s);
      StepKeepsInv(s);
      IterateTwice(SingleStep(s), m - 1, n);
    }
  }

  /** The number of steps to the end of the cycle that the collector is in. */
  lemma {:induction false} StepsToPause(s: State) returns (n: nat)
    requires Inv(s)
    ensures Iterate(s, n) == Rest(s) && Rest(s).gcstate == Pause
    decreases Rank(s.gcstate), MarkWork(s), Todo(s)
  {
    hide Inv, Rest, SingleStep, Rank, MarkWork, Todo, Ready;
    if s.gcstate == Pause {
      RestDone(s);
      n := 0;
    } else {
      RestStep(s);
      var m := StepsToPause(SingleStep(s));
      n := m + 1;
    }
  }

  /** Whatever the collector is doing, it comes to the pause. */
  lemma StepsPause(s: State)
    requires Inv(s)
    ensures exists n :: Iterate(s, n).gcstate == Pause
  {
    var n := StepsToPause(s);
    assert Iterate(s, n).gcstate == Pause;
  }

  /** A cycle of single steps from the pause frees exactly what was unreachable
      at its start and is not fixed; the rest reads as before. */
  lemma CycleExact(s: State)
    requires Inv(s) && s.gcstate == Pause
    ensures exists n :: n > 0 && CycleFrom(s, Iterate(s, n))
  {
    InvReady(s);
    InvClean(s);
    InvParts(s);
    SecondHalf(s);
    var u := MarkRoot(s);
    assert SingleStep(s) == u;
    var m := StepsToPause(u);
    RestOfCycle(s, u);
    hide Inv, Rest, MarkRoot, SingleStep, CycleFrom, Ready, AllClean, LiveClosed;
    assert Iterate(s, m + 1) == Iterate(u, m);
  }

  ghost predicate CycleFrom(s: State, t: State) {
    && t.gcstate == Pause && s.heap.Keys == s.marks.Keys && t.heap.Keys <= s.heap.Keys && t.heap.Keys == t.marks.Keys
    && (forall r :: r in s.heap ==> (r in t.heap <==> Reachable(s, r) || s.marks[r].fixed))
    && (forall r :: r in t.heap ==> t.marks[r].fixed == s.marks[r].fixed)
    && Keeps(s, t)
  }

  lemma RestOfCycle(s: State, u: State)
    requires Inv(s) && s.gcstate == Pause && AllClean(s) && Ready(s) && LiveClosed(s)
    requires s.heap.Keys == s.marks.Keys && Inv(u) && u == MarkRoot(s)
    ensures CycleFrom(s, Rest(u))
  {
    hide *;
    SecondHalf(s);
    RestIs(u);
    var v := FinishSweep(MarkPhase(u));
    InvParts(v);
    PauseAgain(s, v);
  }

  lemma PauseAgain(s: State, v: State)
    requires LiveClosed(v) && Keeps(s, v)
    requires s.heap.Keys == s.marks.Keys && v.heap.Keys <= s.heap.Keys && v.heap.Keys == v.marks.Keys
    requires forall r :: r in s.heap ==>
               (r in v.heap <==> Reachable(s, r) || s.marks[r].fixed)
               && (r in v.heap ==> v.marks[r].fixed == s.marks[r].fixed)
    ensures CycleFrom(s, v.(gcstate := Pause))
  {
    hide LiveClosed, Keeps, Reachable, Roots;
    var t := v.(gcstate := Pause);
    assert Roots(t) == Roots(v) by { SameRootsAt(v, t); }
    HeapKeeps(v, t);
    KeepsTrans(s, v, t);
  }

  lemma SameRootsAt(s: State, t: State)
    requires SameRoots(s, t)
    ensures Roots(t) == Roots(s)
  {}

  // ---------------------------------------------------------------------
  // From any state

  /** `t` is what is left of `s`: no object is new, no FIXED bit has changed,
      and what is fixed or reachable is still there. */
  ghost predicate Spares(s: State, t: State) {
    && s.heap.Keys == s.marks.Keys && t.heap.Keys == t.marks.Keys && t.heap.Keys <= s.heap.Keys
    && (forall r :: r in t.heap ==> t.marks[r].fixed == s.marks[r].fixed)
    && (forall r :: r in s.heap && s.marks[r].fixed ==> r in t.heap)
    && Keeps(s, t)
  }

  lemma SparesTrans(s: State, t: State, u: State)
    requires Spares(s, t) && Spares(t, u)
    ensures Spares(s, u)
  {
    hide Keeps;
    KeepsTrans(s, t, u);
  }

  lemma StepSpares(s: State)
    requires Inv(s) && Ready(s)
    ensures Spares(s, SingleStep(s))
  {
    hide *;
    SingleStepKeeps(s);
    InvKeys(s);
    InvKeys(SingleStep(s));
    if s.gcstate == SweepString || s.gcstate == Sweep {
      RelSelf(s);
      StepRel(s, s);
      RelSpares(s, SingleStep(s));
    } else {
      MarkStepFixed(s);
      FixedSpares(s, SingleStep(s));
    }
  }

  lemma InvKeys(s: State)
    requires Inv(s)
    ensures s.heap.Keys == s.marks.Keys
  {}

  lemma RelSelf(s: State)
    requires s.heap.Keys == s.marks.Keys
    ensures SweepRel(s, s)
  {}

  lemma RelSpares(s: State, t: State)
    requires SweepRel(s, t) && Keeps(s, t)
    ensures Spares(s, t)
  {
    hide Keeps;
  }

  lemma FixedSpares(s: State, t: State)
    requires SameFixed(s, t) && Keeps(s, t) && s.heap.Keys == s.marks.Keys && t.heap.Keys == t.marks.Keys
    ensures Spares(s, t)
  {
    hide Keeps;
  }

  lemma MarkStepFixed(s: State)
    requires Inv(s) && Ready(s) && (s.gcstate == Pause || s.gcstate == Propagate || s.gcstate == Finalize)
    ensures SameFixed(s, SingleStep(s))
  {
    assert MarksOK(s) && s.heap.Keys == s.marks.Keys;
    if s.gcstate == Propagate { InvMark(s); }
    hide Inv, MarkInv, RootsMarked, MarkRoot, PropagateMark, Atomic, MarksOK;
    match s.gcstate
    case Pause => MarkRootFixed(s);
    case Propagate => if s.gray != [] { PropagateMarkFixed(s); } else { AtomicFixed(s); }
    case Finalize =>
  }

  lemma {:induction false} IterateSpares(s: State, n: nat)
    requires Inv(s)
    ensures Spares(s, Iterate(s, n))
    decreases n
  {
    hide Inv, SingleStep, Ready, Spares;
    InvReady(s);
    if n == 0 {
      SparesSelf(s);
    } else {
      StepKeepsInv(s);
      StepSpares(s);
      IterateSpares(SingleStep(s), n - 1);
      SparesTrans(s, SingleStep(s), Iterate(SingleStep(s), n - 1));
    }
  }

  lemma SparesSelf(s: State)
    requires Inv(s)
    ensures Spares(s, s)
  {
    InvParts(s);
    hide Inv, Linked, MarksOK, PhaseInv, Keeps;
    assert s.heap.Keys == s.marks.Keys;
    HeapKeeps(s, s);
  }

  /** Whatever the collector is doing, enough single steps free everything that
      was unreachable at the beginning and is not fixed, and nothing else. */
  lemma StepsCollect(s: State)
    requires Inv(s)
    ensures exists n :: n > 0 && CycleFrom(s, Iterate(s, n))
  {
    hide *;
    var m := StepsToPause(s);
    var p := Iterate(s, m);
    IterateSpares(s, m);
    CycleExact(p);
    var n :| n > 0 && CycleFrom(p, Iterate(p, n));
    IterateTwice(s, m, n);
    CycleAfter(s, p, Iterate(p, n));
    assert m + n > 0 && CycleFrom(s, Iterate(s, m + n));
  }

  lemma CycleAfter(s: State, p: State, t: State)
    requires Spares(s, p) && CycleFrom(p, t)
    ensures CycleFrom(s, t)
  {
    hide Keeps, Reachable;
    SameReachable(s, p);
    KeepsTrans(s, p, t);
    forall r | Reachable(s, r) ensures r in p.heap { KeepsIn(s, p, r); }
  }
}
