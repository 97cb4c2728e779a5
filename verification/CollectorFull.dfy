/** luaC_fullgc: from any state of the collector it frees exactly what was
    unreachable at the call. */
module CollectorFull {
  import opened Options
  import opened Collector
  import opened CollectorInvariant
  import opened CollectorSafety
  import opened CollectorMutator

  // ---------------------------------------------------------------------
  // Marking stays inside every set closed under the readable references

  ghost predicate ClosedUnder(s: State, S: set<Ref>) {
    forall r, x :: r in S && r in s.heap && x in Kids(s.heap[r]) ==> x in S
  }

  ghost predicate Within(s: State, t: State, S: set<Ref>) { forall x :: Newly(s, t, x) ==> x in S }

  ghost predicate MarkedIn(s: State, S: set<Ref>) { forall x :: NonWhite(s, x) ==> x in S }

  lemma {:induction false} MarkObjectWithin(s: State, r: Ref, S: set<Ref>)
    requires s.heap.Keys == s.marks.Keys && ClosedUnder(s, S) && r in S
    ensures Within(s, MarkObject(s, r), S)
    decreases Whites(s), 1
  {
    if r in s.marks && IsWhite(s.marks[r]) {
      match s.heap[r]
      case Udata(mt, env) => UdataWithin(s, r, S);
      case UpVal(v) => UpValWithin(s, r, S);
      case _ =>
    }
  }

  lemma DarkenWithin(s: State, r: Ref, m: Mark, S: set<Ref>)
    requires s.heap.Keys == s.marks.Keys && ClosedUnder(s, S) && r in s.heap && IsWhite(s.marks[r]) && !IsWhite(m)
    ensures ClosedUnder(SetMark(s, r, m), S) && Whites(SetMark(s, r, m)) < Whites(s)
    ensures forall t: State :: Within(SetMark(s, r, m), t, S) && r in S ==> Within(s, t, S)
  {
    var s1 := SetMark(s, r, m);
    assert r in Whites(s) && r !in Whites(s1) && Whites(s1) <= Whites(s);
    forall t: State | Within(s1, t, S) && r in S ensures Within(s, t, S) {
      forall x | Newly(s, t, x) ensures x in S { if x != r { assert Newly(s1, t, x); } }
    }
  }

  lemma {:induction false} UdataWithin(s: State, r: Ref, S: set<Ref>)
    requires s.heap.Keys == s.marks.Keys && ClosedUnder(s, S) && r in S
    requires r in s.heap && IsWhite(s.marks[r]) && s.heap[r].Udata?
    ensures Within(s, MarkObject(s, r), S)
    decreases Whites(s), 0
  {
    var mt, env := s.heap[r].metatable, s.heap[r].env;
    var m := Gray2Black(White2Gray(s.marks[r]));
    var s2 := SetMark(s, r, m);
    DarkenWithin(s, r, m, S);
    var s3 := if mt.Some? then MarkObject(s2, mt.value) else s2;
    var t := MarkObject(s3, env);
    assert t == MarkObject(s, r);
    assert env in Kids(s.heap[r]) && (mt.Some? ==> mt.value in Kids(s.heap[r]));
    assert ClosedUnder(s3, S);
    hide MarkObject, ReallyMark, ClosedUnder;
    if mt.Some? { MarkObjectWithin(s2, mt.value, S); }
    MarkObjectWithin(s3, env, S);
    assert Within(s2, t, S) by { WithinTrans(s2, s3, t, S); }
  }

  lemma WithinTrans(s: State, t: State, u: State, S: set<Ref>)
    requires Within(s, t, S) && Within(t, u, S) && s.marks.Keys == t.marks.Keys
    ensures Within(s, u, S)
  {
    forall x | Newly(s, u, x) ensures x in S {
      if IsWhite(t.marks[x]) { assert Newly(t, u, x); } else { assert Newly(s, t, x); }
    }
  }

  lemma {:induction false} UpValWithin(s: State, r: Ref, S: set<Ref>)
    requires s.heap.Keys == s.marks.Keys && ClosedUnder(s, S) && r in S
    requires r in s.heap && IsWhite(s.marks[r]) && s.heap[r].UpVal?
    ensures Within(s, MarkObject(s, r), S)
    decreases Whites(s), 0
  {
    var v, m := s.heap[r].v, White2Gray(s.marks[r]);
    var s1 := SetMark(s, r, m);
    DarkenWithin(s, r, m, S);
    if v.Obj? { assert v.r in Kids(s.heap[r]); MarkObjectWithin(s1, v.r, S); }
    var s2 := if v.Obj? then MarkObject(s1, v.r) else s1;
    var t := SetMark(s2, r, Gray2Black(s2.marks[r]));
    assert t == MarkObject(s, r);
    forall x | Newly(s, t, x) ensures x in S { if x != r { assert Newly(s1, s2, x); } }
  }

  lemma {:induction false} MarkAllWithin(s: State, l: seq<Ref>, S: set<Ref>)
    requires s.heap.Keys == s.marks.Keys && ClosedUnder(s, S) && forall x :: x in l ==> x in S
    requires MarkedIn(s, S)
    ensures MarkedIn(MarkAll(s, l), S)
    decreases |l|
  {
    if l != [] {
      var t := MarkObject(s, l[0]);
      MarkObjectWithin(s, l[0], S);
      assert forall x :: NonWhite(t, x) ==> NonWhite(s, x) || Newly(s, t, x);
      assert ClosedUnder(t, S);
      MarkAllWithin(t, l[1..], S);
    }
  }

  lemma {:induction false} PropagateAllWithin(s: State, S: set<Ref>)
    requires MarkInv(s, {}) && ClosedUnder(s, S) && MarkedIn(s, S)
    ensures s.heap.Keys == s.marks.Keys && forall x :: x in s.gray ==> x in s.heap
    ensures MarkedIn(PropagateAll(s), S) && ClosedUnder(PropagateAll(s), S)
    decreases Whites(s), |s.gray|
  {
    hide *;
    MarkInvFacts(s, {});
    assert forall x :: x in s.gray ==> x in s.gray + s.grayagain;
    PropagateAllUnfold(s);
    if s.gray != [] {
      PropagateMarkWithin(s, S);
      PropagateMarkKeeps(s);
      PropagateAllWithin(PropagateMark(s), S);
    }
  }

  lemma PropagateMarkWithin(s: State, S: set<Ref>)
    requires MarkInv(s, {}) && ClosedUnder(s, S) && MarkedIn(s, S) && s.gray != []
    ensures s.heap.Keys == s.marks.Keys && forall x :: x in s.gray ==> x in s.heap
    ensures MarkedIn(PropagateMark(s), S) && ClosedUnder(PropagateMark(s), S)
  {
    MarkInvFacts(s, {});
    assert forall x :: x in s.gray ==> x in s.gray + s.grayagain;
    var r := s.gray[0];
    assert NonWhite(s, r);
    hide MarkInv;
    CleanedRefs(s.heap[r]);
    var q := Opened(s);
    assert MarkedIn(q, S) by { assert forall x :: NonWhite(q, x) ==> NonWhite(s, x); }
    assert ClosedUnder(q, S);
    MarkAllWithin(q, Kids(s.heap[r]), S);
  }

  lemma AtomicWithin(s: State, S: set<Ref>)
    requires MarkInv(s, {}) && RootsMarked(s) && ClosedUnder(s, S) && MarkedIn(s, S)
    requires forall x :: x in Roots(s) ==> x in S
    ensures s.heap.Keys == s.marks.Keys
    ensures forall x :: x in s.gray + s.grayagain ==> x in s.heap
    ensures MarkedIn(AtomicMark(s), S)
  {
    hide MarkInv, Scanned, PropagateAll, MarkAll, MarkedIn, ClosedUnder;
    MarkInvFacts(s, {});
    assert forall x :: x in s.gray ==> x in s.gray + s.grayagain;
    assert forall x :: x in s.grayagain ==> x in s.gray + s.grayagain;
    var s1 := PropagateAll(s);
    PropagateAllKeeps(s);
    PropagateAllWithin(s, S);
    var l := [s1.cur] + OptsRefs(s1.mt);
    assert forall x :: x in l ==> x in Roots(s);
    var s2 := MarkAll(s1, l);
    MarkAllKeeps(s1, l);
    MarkAllWithin(s1, l, S);
    assert ClosedUnder(s2, S) by { SameClosed(s1, s2, S); }
    var s3 := PropagateAll(s2);
    PropagateAllKeeps(s2);
    PropagateAllWithin(s2, S);
    var s4 := s3.(gray := s3.grayagain, grayagain := []);
    AgainKeeps(s3);
    SameClosed(s3, s4, S);
    SameMarked(s3, s4, S);
    PropagateAllWithin(s4, S);
  }

  lemma SameClosed(s: State, t: State, S: set<Ref>)
    requires ClosedUnder(s, S) && t.heap == s.heap
    ensures ClosedUnder(t, S)
  {}

  lemma SameMarked(s: State, t: State, S: set<Ref>)
    requires MarkedIn(s, S) && t.marks == s.marks
    ensures MarkedIn(t, S)
  {
    assert forall x :: NonWhite(t, x) ==> NonWhite(s, x);
  }

  // ---------------------------------------------------------------------
  // A whole sweep

  ghost predicate SameRoots(s: State, t: State) {
    t.mainthread == s.mainthread && t.registry == s.registry && t.mt == s.mt && t.cur == s.cur
  }

  /** `t` lies on the sweep that started from `s`: nothing but erasable objects
      is gone, and an erasable one that is still there has not been touched. */
  ghost predicate SweepRel(s: State, t: State) {
    && SameRoots(s, t) && t.white1 == s.white1
    && s.heap.Keys == s.marks.Keys && t.heap.Keys == t.marks.Keys && t.heap.Keys <= s.heap.Keys
    && (forall r :: r in t.heap ==> t.heap[r] == s.heap[r])
    && (forall r :: r in t.marks ==> t.marks[r].fixed == s.marks[r].fixed)
    && (forall r :: r in t.marks && Erasable(s.marks[r], s.white1) ==> t.marks[r] == s.marks[r])
    && (forall r :: r in s.marks && !Erasable(s.marks[r], s.white1) ==>
          r in t.marks && !Erasable(t.marks[r], t.white1))
  }

  lemma SweptRel(s: State, c: State, l: seq<Ref>, t: State, kept: seq<Ref>)
    requires SweepRel(s, c) && Swept(c, l, t, kept)
    ensures SweepRel(s, t)
  {
    forall r | r in s.marks && !Erasable(s.marks[r], s.white1)
      ensures r in t.marks && !Erasable(t.marks[r], t.white1)
    {
      assert r in c.marks && r !in Erased(c, l);
    }
    forall r | r in t.marks && Erasable(s.marks[r], s.white1) ensures t.marks[r] == s.marks[r] {
      assert c.marks[r] == s.marks[r];
      assert r !in Erased(c, l);
    }
  }

  lemma StepRel(s: State, c: State)
    requires SweepRel(s, c) && Inv(c) && (c.gcstate == SweepString || c.gcstate == Sweep) && Ready(c)
    ensures SweepRel(s, SingleStep(c))
  {
    InvSweepParts(c);
    StringsInHeap(c);
    hide Inv, Linked, Shape, LiveClosed, MarksOK, Strings, NonStrings, SweepRel, Swept, SweepSeq;
    if c.gcstate == SweepString {
      var l := c.strt[c.sweepstrgc];
      BucketOK(c);
      SweepSeqSpec(c, l);
      SweptRel(s, c, l, SweepSeq(c, l).0, SweepSeq(c, l).1);
      SweepStringUnfold(c);
      RelBookkeeping(s, SweepSeq(c, l).0, SingleStep(c));
    } else {
      var l := c.rootgc[c.sweepgc..SweepEnd(c)];
      RootSliceOK(c, SweepEnd(c));
      SweepSeqSpec(c, l);
      SweptRel(s, c, l, SweepSeq(c, l).0, SweepSeq(c, l).1);
      SweepStepUnfold(c);
      RelBookkeeping(s, SweepSeq(c, l).0, SingleStep(c));
    }
  }

  lemma RelBookkeeping(s: State, t: State, u: State)
    requires SweepRel(s, t)
    requires u == t.(strt := u.strt, sweepstrgc := u.sweepstrgc, rootgc := u.rootgc, sweepgc := u.sweepgc,
                     gcstate := u.gcstate)
    ensures SweepRel(s, u)
  {}

  function PhaseRank(p: Phase): nat {
    match p case SweepString => 3 case Sweep => 2 case _ => 1
  }

  function Remaining(s: State): nat
    requires s.sweepgc <= |s.rootgc| && (s.gcstate == SweepString ==> s.sweepstrgc < |s.strt|)
  {
    if s.gcstate == SweepString then |s.strt| - s.sweepstrgc else |s.rootgc| - s.sweepgc
  }

  /** singlestep repeated until the sweep is over. */
  ghost function FinishSweep(s: State): (t: State)
    requires Inv(s) && (s.gcstate == SweepString || s.gcstate == Sweep || s.gcstate == Finalize)
    requires Ready(s)
    ensures Inv(t) && t.gcstate == Finalize
    decreases PhaseRank(s.gcstate), Remaining(s)
  {
    if s.gcstate == Finalize then s
    else
      StepKeepsInv(s);
      InvReady(SingleStep(s));
      SweepProgress(s);
      FinishSweep(SingleStep(s))
  }

  lemma SweepProgress(s: State)
    requires Inv(s) && Ready(s) && (s.gcstate == SweepString || s.gcstate == Sweep)
    ensures var t := SingleStep(s);
      && (t.gcstate == SweepString || t.gcstate == Sweep || t.gcstate == Finalize)
      && Ready(t)
      && (PhaseRank(t.gcstate) < PhaseRank(s.gcstate) ||
          (PhaseRank(t.gcstate) == PhaseRank(s.gcstate) && Remaining(t) < Remaining(s)))
  {
    StepKeepsInv(s);
    InvReady(SingleStep(s));
    if s.gcstate == SweepString { SweepStringUnfold(s); } else { SweepStepUnfold(s); }
  }

  lemma {:induction false} FinishSweepRel(s: State, c: State)
    requires Inv(c) && Ready(c) && (c.gcstate == SweepString || c.gcstate == Sweep || c.gcstate == Finalize)
    requires SweepRel(s, c)
    ensures SweepRel(s, FinishSweep(c))
    decreases PhaseRank(c.gcstate), Remaining(c)
  {
    if c.gcstate != Finalize {
      hide Inv, SweepRel, SingleStep, Ready;
      StepKeepsInv(c);
      InvReady(SingleStep(c));
      SweepProgress(c);
      StepRel(s, c);
      FinishSweepRel(s, SingleStep(c));
    }
  }

  /** A complete sweep removes every erasable object and no other. */
  lemma FinishSweepExact(s: State)
    requires Inv(s) && Ready(s) && (s.gcstate == SweepString || s.gcstate == Sweep)
    ensures var t := FinishSweep(s);
      && SweepRel(s, t) && AllClean(t)
      && forall r :: r in t.heap <==> r in s.heap && !Erasable(s.marks[r], s.white1)
  {
    assert SweepRel(s, s);
    FinishSweepRel(s, s);
    var t := FinishSweep(s);
    InvClean(t);
    forall r | r in t.heap ensures !Erasable(s.marks[r], s.white1) {
      assert Clean(t.marks[r], t.white1) && !IsDead(t.marks[r], t.white1);
    }
  }

  // ---------------------------------------------------------------------
  // luaC_fullgc

  /** Turn whatever the collector was marking back into white objects. */
  function Reset(s: State): State {
    if s.gcstate == Pause || s.gcstate == Propagate
    then s.(sweepstrgc := 0, sweepgc := 0, gray := [], grayagain := [], gcstate := SweepString)
    else s
  }

  lemma ResetKeeps(s: State)
    requires Inv(s)
    ensures Inv(Reset(s))
  {
    var t := Reset(s);
    if s.gcstate == Pause || s.gcstate == Propagate {
      forall r | Live(t, r) ensures Typed(t, t.heap[r]) { assert Live(s, r) && Typed(s, s.heap[r]); }
      assert Roots(t) == Roots(s);
      assert forall x :: Live(s, x) <==> Live(t, x);
      assert Strings(t) == Strings(s) && NonStrings(t) == NonStrings(s);
      forall r | r in t.heap ensures Unswept(t, r) {
        if t.heap[r].TString? { assert r in Strings(t); }
        else { assert r in NonStrings(t) && t.rootgc[0..] == t.rootgc && r in t.rootgc; }
      }
    }
  }

  /** The mark phase run to its end without the mutator. */
  ghost function MarkPhase(s: State): (t: State)
    requires Inv(s) && s.gcstate == Propagate
    ensures Inv(t) && t.gcstate == SweepString
  {
    MarkPhaseKeeps(s);
    Atomic(PropagateAll(s))
  }

  lemma MarkPhaseKeeps(s: State)
    requires Inv(s) && s.gcstate == Propagate
    ensures s.heap.Keys == s.marks.Keys && forall x :: x in s.gray ==> x in s.heap
    ensures var t := PropagateAll(s);
      && Inv(t) && t.gcstate == Propagate && t.heap.Keys == t.marks.Keys
      && (forall x :: x in t.gray + t.grayagain ==> x in t.heap)
      && Inv(Atomic(t)) && Atomic(t).gcstate == SweepString
  {
    assert MarkInv(s, {}) && RootsMarked(s);
    MarkInvFacts(s, {});
    assert forall x :: x in s.gray ==> x in s.gray + s.grayagain;
    hide Inv, MarkInv, PropagateAll, Atomic;
    PropagateAllKeeps(s);
    var t := PropagateAll(s);
    MarkInvFacts(t, {});
    RootsMarkedIntro(t);
    MarkInvIsInv(t);
    AtomicKeeps(t);
  }

  ghost function FullGC(s: State): (t: State)
    requires Inv(s)
  {
    ResetKeeps(s);
    InvReady(Reset(s));
    var s1 := FinishSweep(Reset(s));
    InvClean(s1);
    MarkRootKeeps(s1);
    var s3 := MarkPhase(MarkRoot(s1));
    InvReady(s3);
    FinishSweep(s3).(gcstate := Pause)
  }

  // ---------------------------------------------------------------------
  // Reachability across the collection

  lemma PrefixReachable(s: State, p: seq<Ref>, i: nat)
    requires Path(s, p) && i < |p|
    ensures Reachable(s, p[i])
  {
    assert Path(s, p[..i + 1]);
  }

  lemma {:induction false} PathBack(s: State, t: State, p: seq<Ref>)
    requires Keeps(s, t) && Path(t, p)
    ensures Path(s, p)
    decreases |p|
  {
    hide Keeps, Edge, Reachable, Roots;
    SameRootList(s, t);
    if |p| > 1 {
      var q := p[..|p| - 1];
      PathBack(s, t, q);
      PrefixReachable(s, q, |q| - 1);
      assert Edge(t, p[|p| - 2], p[|p| - 1]);
      EdgeBack(s, t, p[|p| - 2], p[|p| - 1]);
      forall i, j | 0 <= i < j < |p| && j == i + 1 ensures Edge(s, p[i], p[j]) {
        if j < |q| { assert Edge(s, q[i], q[j]); }
      }
    }
  }

  lemma SameRootList(s: State, t: State)
    requires Keeps(s, t)
    ensures Roots(t) == Roots(s)
  {}

  lemma EdgeBack(s: State, t: State, a: Ref, b: Ref)
    requires Keeps(s, t) && Reachable(s, a)
    ensures Edge(t, a, b) <==> Edge(s, a, b)
  {
    hide Reachable, Kids, ReadsSame;
  }

  lemma SameReachable(s: State, t: State)
    requires Keeps(s, t)
    ensures forall r :: Reachable(s, r) <==> Reachable(t, r)
  {
    forall r | Reachable(s, r) ensures Reachable(t, r) {
      var p :| Path(s, p) && p[|p| - 1] == r;
      forall i, j | 0 <= i < j < |p| && j == i + 1 ensures Edge(t, p[i], p[j]) {
        PrefixReachable(s, p, i);
        assert Edge(s, p[i], p[j]);
      }
      assert Path(t, p);
    }
    forall r | Reachable(t, r) ensures Reachable(s, r) {
      var p :| Path(t, p) && p[|p| - 1] == r;
      PathBack(s, t, p);
    }
  }

  lemma KeepsTrans(s: State, t: State, u: State)
    requires Keeps(s, t) && Keeps(t, u)
    ensures Keeps(s, u)
  {
    SameReachable(s, t);
    hide Kept, Reachable, Roots;
    forall x | Reachable(s, x) ensures Kept(s, u, x) { KeptTrans(s, t, u, x); }
  }

  lemma KeptTrans(s: State, t: State, u: State, x: Ref)
    requires Kept(s, t, x) && Kept(t, u, x)
    ensures Kept(s, u, x)
  {
    ReadsTrans(s.heap[x], t.heap[x], u.heap[x]);
  }

  lemma SweepRelKeeps(s: State, t: State)
    requires LiveClosed(s) && SweepRel(s, t)
    ensures Keeps(s, t)
  {
    hide ReadsSame, Kids;
    forall x | Reachable(s, x) ensures Kept(s, t, x) {
      ReachableLive(s, x);
      KeptSame(s, t, x);
    }
  }

  lemma SameKidsKeeps(s: State, t: State)
    requires LiveClosed(s) && SameKids(s, t) && Roots(s) == Roots(t)
    ensures Keeps(s, t)
  {
    hide SameKids, Kept;
    forall x | Reachable(s, x) ensures Kept(s, t, x) {
      ReachableLive(s, x);
      KeptKids(s, t, x);
    }
  }

  ghost function ReachSet(s: State): set<Ref> { set r | r in s.heap && Reachable(s, r) }

  lemma ReachSetFacts(s: State)
    requires LiveClosed(s)
    ensures ClosedUnder(s, ReachSet(s))
    ensures forall x :: Reachable(s, x) <==> x in ReachSet(s)
    ensures forall x :: x in Roots(s) ==> x in ReachSet(s)
  {
    forall x | Reachable(s, x) ensures x in s.heap { ReachableLive(s, x); }
    forall x | x in Roots(s) ensures Reachable(s, x) { assert Path(s, [x]); }
    hide LiveClosed, Path;
    forall r, x | r in ReachSet(s) && x in Kids(s.heap[r]) ensures x in ReachSet(s) { ReachStep(s, r, x); }
  }

  lemma ReachStep(s: State, r: Ref, x: Ref)
    requires Reachable(s, r) && Edge(s, r, x)
    ensures Reachable(s, x)
  {
    var p :| Path(s, p) && p[|p| - 1] == r;
    var q := p + [x];
    forall i, j | 0 <= i < j < |q| && j == i + 1 ensures Edge(s, q[i], q[j]) {
      if j < |p| { assert Edge(s, p[i], p[j]); }
    }
    assert Path(s, q) && q[|q| - 1] == x;
  }

  lemma MarkRootWithin(s: State)
    requires Inv(s) && AllClean(s) && s.heap.Keys == s.marks.Keys
    ensures MarkedIn(MarkRoot(s), ReachSet(s)) && MarkRoot(s).heap == s.heap
  {
    var s0, S, l := s.(gray := [], grayagain := []), ReachSet(s), MarkRootList(s);
    assert MarkRoot(s) == MarkAll(s0, l).(gcstate := Propagate);
    assert MarkedIn(s0, S);
    assert LiveClosed(s) && s.mainthread in s.heap && s.heap[s.mainthread].Thread?;
    ReachSetFacts(s);
    SameClosed(s, s0, S);
    hide Inv, ReachSet;
    assert forall x :: x in ValRefs(s.heap[s.mainthread].gt) ==> x in Kids(s.heap[s.mainthread]);
    assert s.mainthread in Roots(s) && s.mainthread in S;
    forall x | x in l ensures x in S {
      if x !in Roots(s) { assert x in Kids(s.heap[s.mainthread]); }
    }
    MarkAllWithin(s0, l, S);
  }

  // FIXED marks survive marking

  ghost predicate SameFixed(s: State, t: State) {
    t.marks.Keys == s.marks.Keys && forall x :: x in s.marks ==> t.marks[x].fixed == s.marks[x].fixed
  }

  lemma MarkedFixed(s: State, t: State)
    requires Marked(s, t)
    ensures SameFixed(s, t)
  {}

  lemma MarkAllFixed(s: State, l: seq<Ref>)
    requires s.heap.Keys == s.marks.Keys && MarksOK(s)
    ensures SameFixed(s, MarkAll(s, l))
  {
    MarkAllMarks(s, l);
    MarkedFixed(s, MarkAll(s, l));
  }

  lemma OpenedFixed(s: State)
    requires s.gray != [] && s.gray[0] in s.heap && s.heap.Keys == s.marks.Keys
    ensures SameFixed(s, Opened(s))
  {}

  lemma FixedStep(s: State, t: State, u: State)
    requires SameFixed(s, t) && SameFixed(t, u)
    ensures SameFixed(s, u)
  {}

  lemma PropagateMarkFixed(s: State)
    requires MarkInv(s, {}) && s.gray != []
    ensures s.heap.Keys == s.marks.Keys && forall x :: x in s.gray ==> x in s.heap
    ensures SameFixed(s, PropagateMark(s))
  {
    hide *;
    MarkInvFacts(s, {});
    OpenedKeepsInv(s);
    OpenedFixed(s);
    MarkInvFacts(Opened(s), {s.gray[0]});
    MarkAllFixed(Opened(s), Kids(s.heap[s.gray[0]]));
    FixedStep(s, Opened(s), PropagateMark(s));
  }

  lemma {:induction false} PropagateAllFixed(s: State)
    requires MarkInv(s, {})
    ensures s.heap.Keys == s.marks.Keys && forall x :: x in s.gray ==> x in s.heap
    ensures SameFixed(s, PropagateAll(s))
    decreases Whites(s), |s.gray|
  {
    hide MarkInv, PropagateMark, PropagateAll;
    MarkInvFacts(s, {});
    assert forall x :: x in s.gray ==> x in s.gray + s.grayagain;
    PropagateAllUnfold(s);
    if s.gray != [] {
      PropagateMarkFixed(s);
      PropagateMarkKeeps(s);
      PropagateAllFixed(PropagateMark(s));
    }
  }

  lemma AtomicFixed(s: State)
    requires MarkInv(s, {}) && RootsMarked(s)
    ensures s.heap.Keys == s.marks.Keys
    ensures forall x :: x in s.gray + s.grayagain ==> x in s.heap
    ensures SameFixed(s, Atomic(s))
  {
    hide MarkInv, Scanned, PropagateAll, MarkAll, RootsMarked;
    MarkInvFacts(s, {});
    assert forall x :: x in s.gray ==> x in s.gray + s.grayagain;
    assert forall x :: x in s.grayagain ==> x in s.gray + s.grayagain;
    var s1 := PropagateAll(s);
    PropagateAllKeeps(s);
    PropagateAllFixed(s);
    var l := [s1.cur] + OptsRefs(s1.mt);
    var s2 := MarkAll(s1, l);
    MarkInvFacts(s1, {});
    MarkAllKeeps(s1, l);
    MarkAllFixed(s1, l);
    var s3 := PropagateAll(s2);
    PropagateAllKeeps(s2);
    PropagateAllFixed(s2);
    AgainKeeps(s3);
    PropagateAllFixed(s3.(gray := s3.grayagain, grayagain := []));
  }

  lemma MarkRootFixed(s: State)
    requires s.heap.Keys == s.marks.Keys && MarksOK(s)
    ensures SameFixed(s, MarkRoot(s))
  {
    MarkAllFixed(s.(gray := [], grayagain := []), MarkRootList(s));
  }

  /** Marking from an all-white heap reaches exactly the reachable objects. */
  lemma MarkPhaseExact(s: State)
    requires Inv(s) && AllClean(s) && Ready(s)
    ensures Inv(MarkRoot(s)) && MarkRoot(s).gcstate == Propagate
    ensures var t := MarkPhase(MarkRoot(s));
      && Keeps(s, t)
      && t.heap.Keys == s.heap.Keys
      && (forall x :: Live(t, x) <==> Reachable(s, x))
      && SameFixed(s, t)
  {
    MarkRootKeeps(s);
    var u := MarkRoot(s);
    assert LiveClosed(s) && MarksOK(s);
    MarkRootWithin(s);
    MarkRootFixed(s);
    assert MarkInv(u, {}) && RootsMarked(u) && Roots(u) == Roots(s);
    hide Inv, MarkRoot;
    MarkPhaseFrom(s, u);
  }

  /** What the mark phase, run from `u`, goes through. */
  lemma MarkPhaseUnfold(u: State)
    requires Inv(u) && u.gcstate == Propagate
    ensures MarkInv(u, {}) && u.heap.Keys == u.marks.Keys && forall x :: x in u.gray ==> x in u.heap
    ensures var v := PropagateAll(u);
      && MarkInv(v, {}) && RootsMarked(v) && Roots(v) == Roots(u)
      && v.heap.Keys == v.marks.Keys && (forall x :: x in v.gray + v.grayagain ==> x in v.heap)
      && MarkPhase(u) == Atomic(v) && Roots(Atomic(v)) == Roots(u) && LiveClosed(Atomic(v))
      && AtomicMark.requires(v)
      && (forall x :: Live(Atomic(v), x) <==> NonWhite(AtomicMark(v), x))
  {
    hide *;
    InvMark(u);
    MarkPhaseKeeps(u);
    MarkPhaseIs(u);
    var v := PropagateAll(u);
    InvMark(v);
    AtomicKeeps(v);
    FrameRoots(u, v);
    assert forall x :: x in v.gray ==> x in v.gray + v.grayagain;
    assert forall x :: x in v.grayagain ==> x in v.gray + v.grayagain;
    AtomicFrame(v);
    FrameRoots(v, AtomicMark(v));
    InvParts(Atomic(v));
  }

  lemma MarkPhaseIs(u: State)
    requires Inv(u) && u.gcstate == Propagate
    ensures u.heap.Keys == u.marks.Keys && forall x :: x in u.gray ==> x in u.heap
    ensures Atomic.requires(PropagateAll(u)) && MarkPhase(u) == Atomic(PropagateAll(u))
  {
    hide Inv, PropagateAll, Atomic, AtomicMark, MarkInv, RootsMarked;
    MarkPhaseKeeps(u);
  }

  lemma FrameRoots(s: State, t: State)
    requires SameFrame(s, t)
    ensures Roots(t) == Roots(s)
  {}

  lemma AtomicFrame(s: State)
    requires s.heap.Keys == s.marks.Keys && MarkInv(s, {}) && RootsMarked(s) && AtomicMark.requires(s)
    ensures SameFrame(s, AtomicMark(s)) && Roots(Atomic(s)) == Roots(AtomicMark(s))
  {
    AtomicMarkCloses(s);
  }

  lemma MarkPhaseFrom(s: State, u: State)
    requires LiveClosed(s) && Inv(u) && u.gcstate == Propagate
    requires u.heap == s.heap && Roots(u) == Roots(s) && MarkedIn(u, ReachSet(s)) && SameFixed(s, u)
    ensures var t := MarkPhase(u);
      && Keeps(s, t)
      && t.heap.Keys == s.heap.Keys
      && (forall x :: Live(t, x) <==> Reachable(s, x))
      && SameFixed(s, t)
  {
    hide *;
    var S := ReachSet(s);
    ReachSetFacts(s);
    MarkPhaseUnfold(u);
    var v, t := PropagateAll(u), MarkPhase(u);
    SameClosed(s, u, S);
    PropagateAllWithin(u, S);
    PropagateAllFixed(u);
    AtomicWithin(v, S);
    AtomicFixed(v);
    PropagateAllKids(u);
    AtomicKids(v);
    KidsTrans(s, u, v, t);
    FixedTrans(s, u, v, t);
    SameKidsKeeps(s, t);
    SameReachable(s, t);
    forall x | Live(t, x) ensures Reachable(s, x) {
      assert NonWhite(AtomicMark(v), x);
      MarkedInElim(AtomicMark(v), S, x);
    }
    forall x | Reachable(s, x) ensures Live(t, x) { ReachableLive(t, x); }
  }

  lemma MarkedInElim(s: State, S: set<Ref>, x: Ref)
    requires MarkedIn(s, S) && NonWhite(s, x)
    ensures x in S
  {}

  lemma KidsTrans(s: State, u: State, v: State, t: State)
    requires u.heap == s.heap && SameKids(u, v) && SameKids(v, t)
    ensures SameKids(s, t) && t.heap.Keys == s.heap.Keys
  {
    SameKidsRefl(s, u);
    hide ReadsSame, Kids;
    SameKidsTrans(s, u, v);
    SameKidsTrans(s, v, t);
  }

  lemma FixedTrans(s: State, u: State, v: State, t: State)
    requires SameFixed(s, u) && SameFixed(u, v) && SameFixed(v, t)
    ensures SameFixed(s, t)
  {}

  /** The pending sweep that luaC_fullgc completes first. */
  lemma ResetSame(s: State)
    requires Inv(s)
    ensures var t := Reset(s);
      && t.gcstate != Pause && t.gcstate != Propagate
      && t.heap == s.heap && t.marks == s.marks && t.white1 == s.white1 && Roots(t) == Roots(s)
    ensures s.heap.Keys == s.marks.Keys
  {
  }

  lemma FirstSweep(s: State)
    requires Inv(s)
    ensures Inv(Reset(s)) && Ready(Reset(s)) && Reset(s).gcstate != Pause && Reset(s).gcstate != Propagate
    ensures var t := FinishSweep(Reset(s));
      && Inv(t) && AllClean(t) && Keeps(s, t) && t.heap.Keys <= s.heap.Keys && t.heap.Keys == t.marks.Keys
      && forall r :: r in s.heap ==>
           (s.marks[r].fixed ==> r in t.heap) && (r in t.heap ==> t.marks[r].fixed == s.marks[r].fixed)
  {
    hide Inv, FinishSweep, Shape, Linked, LiveClosed, PhaseInv, MarksOK, AllClean, Ready, Reset;
    var s0 := Reset(s);
    ResetKeeps(s);
    ResetSame(s);
    InvReady(s0);
    var t := FinishSweep(s0);
    InvClean(t);
    InvParts(s0);
    InvParts(s);
    assert SweepRel(s0, s0);
    FinishSweepRel(s0, s0);
    SweepRelKeeps(s0, t);
    HeapKeeps(s, s0);
    KeepsTrans(s, s0, t);
  }

  lemma HeapKeeps(s: State, t: State)
    requires LiveClosed(s) && t.heap == s.heap && Roots(t) == Roots(s)
    ensures Keeps(s, t)
  {
    hide Kept;
    forall x | Reachable(s, x) ensures Kept(s, t, x) {
      ReachableLive(s, x);
      KeptSame(s, t, x);
    }
  }

  /** The second half of luaC_fullgc: a cycle from an all-white heap. */
  lemma SecondHalf(s: State)
    requires Inv(s) && AllClean(s) && Ready(s) && LiveClosed(s)
    ensures Inv(MarkRoot(s)) && MarkRoot(s).gcstate == Propagate
    ensures var u := MarkPhase(MarkRoot(s));
      && Ready(u)
      && var t := FinishSweep(u);
      && Inv(t) && AllClean(t) && Keeps(s, t) && t.heap.Keys <= s.heap.Keys
      && t.heap.Keys == t.marks.Keys
      && forall r :: r in s.heap ==>
           (r in t.heap <==> Reachable(s, r) || s.marks[r].fixed)
           && (r in t.heap ==> t.marks[r].fixed == s.marks[r].fixed)
  {
    MarkPhaseExact(s);
    var u := MarkPhase(MarkRoot(s));
    InvReady(u);
    var t := FinishSweep(u);
    FinishSweepExact(u);
    InvParts(u);
    assert u.heap.Keys == u.marks.Keys;
    hide Inv, MarkRoot, MarkPhase, FinishSweep, Keeps, Reachable, LiveClosed;
    SweepRelKeeps(u, t);
    KeepsTrans(s, u, t);
    forall r | r in s.heap
      ensures (r in t.heap <==> Reachable(s, r) || s.marks[r].fixed)
              && (r in t.heap ==> t.marks[r].fixed == s.marks[r].fixed)
    {
      assert u.marks[r].fixed == s.marks[r].fixed;
      assert Live(u, r) <==> Reachable(s, r);
      assert r in t.heap <==> r in u.heap && !Erasable(u.marks[r], u.white1);
    }
  }

  /** luaC_fullgc, whatever the collector was doing: it ends, in the pause
      state, having freed every object that was unreachable at the call unless
      it is fixed; the others keep what the mutator can read of them and carry
      the current white. */
  lemma FullGCExact(s: State)
    requires Inv(s)
    ensures var t := FullGC(s);
      && Inv(t) && t.gcstate == Pause && AllClean(t)
      && s.heap.Keys == s.marks.Keys && t.heap.Keys <= s.heap.Keys
      && (forall r :: r in s.heap ==> (r in t.heap <==> Reachable(s, r) || s.marks[r].fixed))
      && Keeps(s, t)
  {
    FirstSweep(s);
    var s1 := FinishSweep(Reset(s));
    InvReady(s1);
    InvReady(s);
    InvParts(s1);
    SecondHalf(s1);
    var s4 := FinishSweep(MarkPhase(MarkRoot(s1)));
    var t := s4.(gcstate := Pause);
    assert FullGC(s) == t;
    FinalizeKeeps(s4);
    InvParts(s4);
    HeapKeeps(s4, t);
    hide Inv, FinishSweep, MarkPhase, MarkRoot, Keeps, Reset, FullGC, Shape, Linked, LiveClosed, PhaseInv;
    SameReachable(s, s1);
    KeepsTrans(s, s1, s4);
    KeepsTrans(s, s4, t);
    forall r | r in s.heap ensures r in t.heap <==> Reachable(s, r) || s.marks[r].fixed {
      assert Reachable(s, r) ==> r in s1.heap by { KeepsIn(s, s1, r); }
    }
  }

  lemma KeepsIn(s: State, t: State, r: Ref)
    requires Keeps(s, t)
    ensures Reachable(s, r) ==> r in t.heap
  {}
}
