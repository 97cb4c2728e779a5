/** Every step of the collector and of the mutator keeps the invariant, and no
    reachable object is ever freed. */
module CollectorSafety {
  import opened Options
  import opened Collector
  import opened CollectorInvariant

  // ---------------------------------------------------------------------
  // The mark phase

  /** Everything in grayagain is a thread that has been traversed since. */
  ghost predicate Scanned(s: State) {
    forall r :: r in s.grayagain ==> r in s.heap && forall x :: x in Refs(s.heap[r]) ==> NonWhite(s, x)
  }

  lemma PropagateMarkScans(s: State)
    requires MarkInv(s, {}) && s.gray != [] && Scanned(s)
    requires s.heap.Keys == s.marks.Keys && forall x :: x in s.gray ==> x in s.heap
    ensures Scanned(PropagateMark(s))
  {
    hide MarkInv, PropagateMark;
    var r, t := s.gray[0], PropagateMark(s);
    PropagateMarkKeeps(s);
    PropagateMarkForm(s);
    forall y | y in t.grayagain ensures y in t.heap && forall x :: x in Refs(t.heap[y]) ==> NonWhite(t, x) {
      if y != r {
        assert y in s.grayagain;
        assert t.heap[y] == s.heap[y];
      }
    }
  }

  lemma {:induction false} PropagateAllKeeps(s: State)
    requires MarkInv(s, {})
    ensures s.heap.Keys == s.marks.Keys && forall x :: x in s.gray ==> x in s.heap
    ensures MarkInv(PropagateAll(s), {})
    ensures Scanned(s) ==> Scanned(PropagateAll(s))
    ensures forall x :: NonWhite(s, x) ==> NonWhite(PropagateAll(s), x)
    decreases Whites(s), |s.gray|
  {
    hide *;
    MarkInvFacts(s, {});
    assert forall x :: x in s.gray ==> x in s.gray + s.grayagain;
    if s.gray != [] {
      PropagateMarkKeeps(s);
      if Scanned(s) { PropagateMarkScans(s); }
      PropagateAllKeeps(PropagateMark(s));
    }
    assert PropagateAll(s) == if s.gray == [] then s else PropagateAll(PropagateMark(s)) by { PropagateAllUnfold(s); }
  }

  lemma PropagateAllUnfold(s: State)
    requires s.heap.Keys == s.marks.Keys && forall x :: x in s.gray ==> x in s.heap
    ensures PropagateAll(s) == if s.gray == [] then s else PropagateAll(PropagateMark(s))
  {
    hide PropagateMark;
  }

  lemma NonWhiteFacts(s: State)
    requires MarkInv(s, {}) && s.gray == [] && Scanned(s)
    ensures forall r, x :: NonWhite(s, r) && x in Refs(s.heap[r]) ==> NonWhite(s, x)
  {
    forall r, x | NonWhite(s, r) && x in Refs(s.heap[r]) ensures NonWhite(s, x) {
      if !IsBlack(s.marks[r]) && !s.heap[r].TString? {
        assert r in s.gray + s.grayagain;
      }
    }
  }

  lemma MarkAllKeeps(s: State, l: seq<Ref>)
    requires MarkInv(s, {})
    ensures MarkInv(MarkAll(s, l), {})
    ensures s.heap.Keys == s.marks.Keys && MarkAll(s, l).heap == s.heap
    ensures forall x :: x in l && x in s.heap ==> NonWhite(MarkAll(s, l), x)
    ensures forall x :: NonWhite(s, x) ==> NonWhite(MarkAll(s, l), x)
  {
    hide *;
    MarkInvFacts(s, {});
    MarkAllMarks(s, l);
    MarkedKeepsMarkInv(s, MarkAll(s, l), {});
    MarkedKeepsNonWhite(s, MarkAll(s, l));
    MarkedFrame(s, MarkAll(s, l));
  }

  lemma AgainKeeps(s: State)
    requires MarkInv(s, {}) && s.gray == []
    ensures MarkInv(s.(gray := s.grayagain, grayagain := []), {})
  {
    var t := s.(gray := s.grayagain, grayagain := []);
    assert t.gray + t.grayagain == s.gray + s.grayagain;
    assert Kindred(s, t) && NoDead(t) && MarksOK(t);
    assert TriColorInv(t, {}) by {
      assert forall x :: NonWhite(s, x) ==> NonWhite(t, x);
    }
    hide *;
    KindredShape(s, t);
    KindredLinked(s, t);
    KindredClosed(s, t);
    MarkInvIntro(t, {});
  }

  /** After the marking of atomic, what is not white contains the roots and is
      closed under every reference. */
  lemma AtomicMarkCloses(s: State)
    requires MarkInv(s, {}) && RootsMarked(s)
    ensures s.heap.Keys == s.marks.Keys
    ensures forall x :: x in s.gray + s.grayagain ==> x in s.heap
    ensures MarkInv(AtomicMark(s), {}) && SameFrame(s, AtomicMark(s)) && AtomicMark(s).gray == []
    ensures forall x :: x in Roots(s) ==> NonWhite(AtomicMark(s), x)
    ensures forall r, x :: NonWhite(AtomicMark(s), r) && x in Refs(AtomicMark(s).heap[r]) ==> NonWhite(AtomicMark(s), x)
  {
    hide MarkInv, Scanned, PropagateAll, MarkAll;
    MarkInvFacts(s, {});
    assert forall x :: x in s.gray ==> x in s.gray + s.grayagain;
    assert forall x :: x in s.grayagain ==> x in s.gray + s.grayagain;
    var s1 := PropagateAll(s);
    PropagateAllKeeps(s);
    var s2 := MarkAll(s1, [s1.cur] + OptsRefs(s1.mt));
    MarkAllKeeps(s1, [s1.cur] + OptsRefs(s1.mt));
    var s3 := PropagateAll(s2);
    PropagateAllKeeps(s2);
    var s4 := s3.(gray := s3.grayagain, grayagain := []);
    AgainKeeps(s3);
    assert Scanned(s4) by { ScannedNone(s4); }
    PropagateAllKeeps(s4);
    NonWhiteFacts(PropagateAll(s4));
  }

  lemma ScannedNone(s: State)
    requires s.grayagain == []
    ensures Scanned(s)
  {}

  // ---------------------------------------------------------------------
  // The collector's steps

  function MarkRootList(s: State): seq<Ref> {
    [s.mainthread]
    + (if s.mainthread in s.heap && s.heap[s.mainthread].Thread? then ValRefs(s.heap[s.mainthread].gt) else [])
    + ValRefs(s.registry) + OptsRefs(s.mt)
  }

  /** markroot starts a cycle from a heap that is all white. */
  lemma MarkRootKeeps(s: State)
    requires Inv(s) && AllClean(s)
    ensures Inv(MarkRoot(s)) && MarkRoot(s).gcstate == Propagate
    ensures forall x :: x == s.mainthread || s.registry == Obj(x) || Some(x) in s.mt ==> NonWhite(MarkRoot(s), x)
  {
    var s0 := s.(gray := [], grayagain := [], gcstate := Propagate);
    var l, t := MarkRootList(s), MarkAll(s0, MarkRootList(s));
    assert MarkInv(s0, {}) by { CleanIsMarkInv(s); }
    assert MarkRoot(s) == t by { MarkAllCongruent(s0, s.(gray := [], grayagain := []), l); }
    assert s.mainthread in l && forall x :: x in ValRefs(s.registry) ==> x in l;
    assert forall x :: x in ValRefs(s.registry) ==> x in Roots(s) && Live(s, x);
    forall x | Some(x) in s.mt ensures x in l && x in s.heap { OptsRefsIn(s.mt, x); assert x in Roots(s) && Live(s, x); }
    assert forall x :: s.registry == Obj(x) ==> x in ValRefs(s.registry);
    hide *;
    MarkAllKeeps(s0, l);
    MarkInvIsInv(t);
  }

  lemma CleanIsMarkInv(s: State)
    requires Shape(s) && Linked(s) && LiveClosed(s) && AllClean(s)
    ensures MarkInv(s.(gray := [], grayagain := [], gcstate := Propagate), {})
  {
    var t := s.(gray := [], grayagain := [], gcstate := Propagate);
    assert Roots(t) == Roots(s);
    assert forall x :: Live(s, x) == Live(t, x);
    forall r | Live(t, r) ensures Typed(t, t.heap[r]) { assert Live(s, r) && Typed(s, s.heap[r]); }
    assert Strings(t) == Strings(s) && NonStrings(t) == NonStrings(s);
  }

  lemma MarkInvIsInv(s: State)
    requires MarkInv(s, {}) && RootsMarked(s) && s.gcstate == Propagate
    ensures Inv(s)
  {}

  lemma InvMark(s: State)
    requires Inv(s) && s.gcstate == Propagate
    ensures MarkInv(s, {}) && RootsMarked(s)
  {}

  function Atomic(s: State): State
    requires s.heap.Keys == s.marks.Keys
    requires forall x :: x in s.gray ==> x in s.heap
    requires forall x :: x in s.grayagain ==> x in s.heap
  {
    Flip(AtomicMark(s))
  }

  /** atomic leaves exactly the marked objects live, under the flipped white. */
  lemma AtomicKeeps(s: State)
    requires Inv(s) && s.gcstate == Propagate
    ensures s.heap.Keys == s.marks.Keys && forall x :: x in s.gray + s.grayagain ==> x in s.heap
    ensures Inv(Atomic(s)) && Atomic(s).gcstate == SweepString
    ensures forall x :: Live(Atomic(s), x) <==> NonWhite(AtomicMark(s), x)
  {
    AtomicMarkCloses(s);
    FlipKeeps(AtomicMark(s));
  }

  lemma FlipKeeps(s: State)
    requires MarkInv(s, {})
    requires forall x :: x in Roots(s) ==> NonWhite(s, x)
    requires forall r, x :: NonWhite(s, r) && x in Refs(s.heap[r]) ==> NonWhite(s, x)
    ensures Inv(Flip(s))
    ensures forall x :: Live(Flip(s), x) <==> NonWhite(s, x)
  {
    var t := Flip(s);
    assert Roots(t) == Roots(s);
    forall x ensures Live(t, x) <==> NonWhite(s, x) {}
    assert Strings(t) == Strings(s) && NonStrings(t) == NonStrings(s);
    forall r | Live(t, r) ensures Typed(t, t.heap[r]) { assert Live(s, r) && Typed(s, s.heap[r]); }
    forall r | r in t.heap ensures Unswept(t, r) {
      if t.heap[r].TString? {
        assert r in Strings(t);
      } else {
        assert r in NonStrings(t) && r in t.rootgc;
        assert t.rootgc[0..] == t.rootgc;
      }
    }
  }

  // ---------------------------------------------------------------------
  // Marking does not change what the mutator can read

  ghost predicate SameKids(s: State, t: State) {
    SameReads(s, t) && forall x :: x in s.heap ==> Kids(t.heap[x]) == Kids(s.heap[x])
  }

  lemma SameKidsRefl(s: State, t: State)
    requires t.heap == s.heap
    ensures SameKids(s, t)
  {}

  lemma SameKidsTrans(s: State, t: State, u: State)
    requires SameKids(s, t) && SameKids(t, u)
    ensures SameKids(s, u)
  {
    SameReadsTrans(s, t, u);
  }

  lemma PropagateMarkKids(s: State)
    requires s.heap.Keys == s.marks.Keys
    requires s.gray != [] && forall x :: x in s.gray ==> x in s.heap
    ensures SameKids(s, PropagateMark(s))
  {
    hide PropagateMark, Cleaned, ReadsSame, Kids;
    PropagateMarkForm(s);
    PropagateMarkReads(s);
    CleanedRefs(s.heap[s.gray[0]]);
  }

  lemma {:induction false} PropagateAllKids(s: State)
    requires s.heap.Keys == s.marks.Keys && forall x :: x in s.gray ==> x in s.heap
    ensures SameKids(s, PropagateAll(s))
    decreases Whites(s), |s.gray|
  {
    hide PropagateMark, SameKids;
    if s.gray != [] {
      PropagateMarkKids(s);
      PropagateAllKids(PropagateMark(s));
      SameKidsTrans(s, PropagateMark(s), PropagateAll(s));
    } else {
      SameKidsRefl(s, s);
    }
  }

  lemma AtomicKids(s: State)
    requires s.heap.Keys == s.marks.Keys && forall x :: x in s.gray + s.grayagain ==> x in s.heap
    ensures forall x :: x in s.gray ==> x in s.heap
    ensures forall x :: x in s.grayagain ==> x in s.heap
    ensures SameKids(s, AtomicMark(s)) && SameKids(s, Atomic(s))
  {
    assert forall x :: x in s.gray ==> x in s.gray + s.grayagain;
    assert forall x :: x in s.grayagain ==> x in s.gray + s.grayagain;
    hide PropagateAll, MarkAll, ReadsSame, Kids;
    var s1 := PropagateAll(s);
    PropagateAllKids(s);
    var s2 := MarkAll(s1, [s1.cur] + OptsRefs(s1.mt));
    var s3 := PropagateAll(s2);
    PropagateAllKids(s2);
    var s4 := s3.(gray := s3.grayagain, grayagain := []);
    PropagateAllKids(s4);
    var t := AtomicMark(s);
    hide SameKids;
    KidsThrice(s, s1, s2, s3, s4, t, Atomic(s));
  }

  lemma KidsThrice(s: State, s1: State, s2: State, s3: State, s4: State, t: State, u: State)
    requires SameKids(s, s1) && s2.heap == s1.heap && SameKids(s2, s3) && s4.heap == s3.heap && SameKids(s4, t)
    requires u.heap == t.heap
    ensures SameKids(s, t) && SameKids(s, u)
  {
    hide SameKids;
    SameKidsRefl(s1, s2);
    SameKidsRefl(s3, s4);
    SameKidsRefl(t, u);
    SameKidsTrans(s, s1, s2);
    SameKidsTrans(s, s2, s3);
    SameKidsTrans(s, s3, s4);
    SameKidsTrans(s, s4, t);
    SameKidsTrans(s, t, u);
  }

  // ---------------------------------------------------------------------
  // Sweeping

  ghost function Erased(s: State, l: seq<Ref>): set<Ref> {
    set r | r in l && r in s.marks && Erasable(s.marks[r], s.white1)
  }

  /** sweeplist in closed form: the dead objects of the list, and only those,
      are freed and unlinked; the others become white. */
  ghost predicate Swept(s: State, l: seq<Ref>, t: State, kept: seq<Ref>) {
    && t == s.(heap := t.heap, marks := t.marks)
    && t.heap == s.heap - Erased(s, l)
    && t.marks.Keys == t.heap.Keys
    && (forall r :: r in t.marks && r in s.marks ==>
          t.marks[r] == if r in l then MakeWhite(s.marks[r], s.white1) else s.marks[r])
    && NoDup(kept) && Elems(kept) == Elems(l) - Erased(s, l)
  }

  lemma {:induction false} SweepSeqSpec(s: State, l: seq<Ref>)
    requires s.heap.Keys == s.marks.Keys && NoDup(l) && Elems(l) <= s.heap.Keys
    ensures Swept(s, l, SweepSeq(s, l).0, SweepSeq(s, l).1)
    decreases |l|
  {
    if l != [] {
      var r, rest := l[0], l[1..];
      assert l == [r] + rest;
      assert r in Elems(l);
      assert Elems(rest) <= Elems(l) - {r};
      hide Swept;
      if Erasable(s.marks[r], s.white1) {
        SweepSeqSpec(Free(s, r), rest);
        SweptErase(s, r, rest, SweepSeq(Free(s, r), rest).0, SweepSeq(Free(s, r), rest).1);
      } else {
        var s1 := SetMark(s, r, MakeWhite(s.marks[r], s.white1));
        SweepSeqSpec(s1, rest);
        SweptKeep(s, r, rest, SweepSeq(s1, rest).0, SweepSeq(s1, rest).1);
      }
    } else {
      assert Erased(s, l) == {};
    }
  }

  lemma SweptErase(s: State, r: Ref, l: seq<Ref>, t: State, kept: seq<Ref>)
    requires s.heap.Keys == s.marks.Keys && r in s.heap && r !in l && Erasable(s.marks[r], s.white1)
    requires Swept(Free(s, r), l, t, kept)
    ensures Swept(s, [r] + l, t, kept)
  {
    assert Erased(s, [r] + l) == {r} + Erased(Free(s, r), l);
    assert Elems([r] + l) == {r} + Elems(l);
    assert r !in Elems(l);
  }

  lemma SweptKeep(s: State, r: Ref, l: seq<Ref>, t: State, kept: seq<Ref>)
    requires s.heap.Keys == s.marks.Keys && r in s.heap && r !in l && !Erasable(s.marks[r], s.white1)
    requires Swept(SetMark(s, r, MakeWhite(s.marks[r], s.white1)), l, t, kept)
    ensures Swept(s, [r] + l, t, [r] + kept)
  {
    var s1 := SetMark(s, r, MakeWhite(s.marks[r], s.white1));
    assert Erased(s, [r] + l) == Erased(s1, l);
    assert Elems([r] + l) == {r} + Elems(l);
    assert Elems([r] + kept) == {r} + Elems(kept);
    assert r !in Elems(kept);
  }

  /** What both sweeps keep: every live object survives, with its contents. */
  lemma SweptKeepsLive(s: State, l: seq<Ref>, t: State, kept: seq<Ref>)
    requires Shape(s) && MarksOK(s) && LiveClosed(s) && Swept(s, l, t, kept)
    ensures forall x :: Live(s, x) ==> Live(t, x) && t.heap[x] == s.heap[x]
    ensures LiveClosed(t) && MarksOK(t)
    ensures t.mainthread in t.heap && t.cur in t.heap
  {
    forall x | Live(s, x) ensures Live(t, x) && t.heap[x] == s.heap[x] { assert x !in Erased(s, l); }
    assert Roots(t) == Roots(s);
    assert s.mainthread in Roots(s) && s.cur in Roots(s);
    forall r, x | Live(t, r) && x in Refs(t.heap[r]) ensures Live(t, x) {
      assert !s.heap[r].TString?;
      assert Live(s, s.mainthread);
      assert Live(s, r);
      assert Live(s, x);
    }
  }

  lemma SweptShape(s: State, l: seq<Ref>, t: State, kept: seq<Ref>)
    requires Shape(s) && LiveClosed(s) && Swept(s, l, t, kept)
    requires t.mainthread in t.heap && t.cur in t.heap
    ensures Shape(t)
  {
    assert s.mainthread in Roots(s) && Live(s, s.mainthread);
    forall r | Live(t, r) ensures Typed(t, t.heap[r]) {
      if !s.heap[r].TString? { assert Live(s, r) && Typed(s, s.heap[r]); }
    }
  }

  lemma SweptClean(s: State, l: seq<Ref>, t: State, kept: seq<Ref>)
    requires Shape(s) && Swept(s, l, t, kept)
    ensures forall r :: r in t.marks && r in l ==> Clean(t.marks[r], t.white1)
    ensures forall r :: r in t.marks && r !in l ==> t.marks[r] == s.marks[r]
    ensures Strings(t) == Strings(s) - Erased(s, l) && NonStrings(t) == NonStrings(s) - Erased(s, l)
  {}

  lemma InvSweepIntro(s: State)
    requires Shape(s) && Linked(s) && MarksOK(s) && LiveClosed(s)
    requires (s.gcstate == SweepString || s.gcstate == Sweep) && Sweeping(s)
    ensures Inv(s)
  {}

  lemma InvCleanIntro(s: State)
    requires Shape(s) && Linked(s) && MarksOK(s) && LiveClosed(s)
    requires (s.gcstate == Pause || s.gcstate == Finalize) && AllClean(s)
    ensures Inv(s)
  {}

  lemma InvSweepParts(s: State)
    requires Inv(s) && (s.gcstate == SweepString || s.gcstate == Sweep)
    ensures Shape(s) && Linked(s) && MarksOK(s) && LiveClosed(s) && Sweeping(s)
    ensures s.heap.Keys == s.marks.Keys && s.sweepgc <= |s.rootgc|
    ensures s.gcstate == SweepString ==> s.sweepstrgc < |s.strt|
  {}

  /** Sweeping one bucket of the string table keeps the invariant. */
  lemma SweepStringKeeps(s: State)
    requires Inv(s) && s.gcstate == SweepString
    ensures Inv(SweepStringStep(s))
    ensures forall x :: Live(s, x) ==> Live(SweepStringStep(s), x) && SweepStringStep(s).heap[x] == s.heap[x]
  {
    hide *;
    InvSweepParts(s);
    var l := s.strt[s.sweepstrgc];
    BucketOK(s);
    StringsInHeap(s);
    var t, kept := SweepSeq(s, l).0, SweepSeq(s, l).1;
    var u := SweepStringStep(s);
    SweepStringUnfold(s);
    SweepSeqSpec(s, l);
    SweptKeepsLive(s, l, t, kept);
    SweptShape(s, l, t, kept);
    BookkeepingKeeps(t, u);
    StringLinked(s, t, u, l, kept);
    StringSweeping(s, t, u, l, kept);
    InvSweepIntro(u);
  }

  lemma SweepStringUnfold(s: State)
    requires s.sweepstrgc < |s.strt|
    ensures var (t, kept) := SweepSeq(s, s.strt[s.sweepstrgc]);
      SweepStringStep(s) == t.(strt := s.strt[s.sweepstrgc := kept], sweepstrgc := s.sweepstrgc + 1,
                               gcstate := if s.sweepstrgc + 1 >= |s.strt| then Sweep else SweepString)
  {}

  /** Such a step looks at the strings of one bucket: the erasable ones are
      freed, and no other object changes. */
  lemma SweepStringLooksAt(s: State, r: Ref)
    requires Inv(s) && s.gcstate == SweepString && r in s.heap
    ensures var t := SweepStringStep(s);
      && r in s.marks && t.sweepstrgc == s.sweepstrgc + 1
      && if r in s.strt[s.sweepstrgc]
         then (r in t.heap <==> !Erasable(s.marks[r], s.white1)) && (r in t.marks ==> Clean(t.marks[r], s.white1))
         else r in t.heap && r in t.marks && t.marks[r] == s.marks[r]
  {
    hide *;
    InvSweepParts(s);
    var l := s.strt[s.sweepstrgc];
    SweepStringUnfold(s);
    BucketOK(s);
    StringsInHeap(s);
    SweepSeqSpec(s, l);
    SweptAt(s, l, SweepSeq(s, l).0, SweepSeq(s, l).1, r);
  }

  lemma StringsInHeap(s: State)
    ensures Strings(s) <= s.heap.Keys && NonStrings(s) <= s.heap.Keys
  {}

  lemma BucketOK(s: State)
    requires Linked(s) && s.sweepstrgc < |s.strt|
    ensures NoDup(s.strt[s.sweepstrgc]) && Elems(s.strt[s.sweepstrgc]) <= Strings(s)
  {}

  /** The lists and counters of the sweep play no part in liveness. */
  lemma BookkeepingKeeps(t: State, u: State)
    requires LiveClosed(t) && MarksOK(t)
    requires u == t.(strt := u.strt, sweepstrgc := u.sweepstrgc, rootgc := u.rootgc, sweepgc := u.sweepgc,
                     gcstate := u.gcstate)
    ensures LiveClosed(u) && MarksOK(u)
    ensures forall x :: Live(t, x) <==> Live(u, x)
  {
    assert Roots(u) == Roots(t);
    assert forall x :: Live(t, x) <==> Live(u, x);
  }

  lemma BookkeepingShape(t: State, u: State)
    requires Shape(t)
    requires u == t.(strt := u.strt, sweepstrgc := u.sweepstrgc, rootgc := u.rootgc, sweepgc := u.sweepgc,
                     gcstate := u.gcstate)
    requires |u.strt| > 0 && u.sweepgc <= |u.rootgc| && (u.gcstate == SweepString ==> u.sweepstrgc < |u.strt|)
    ensures Shape(u)
  {
    forall r | Live(u, r) ensures Typed(u, u.heap[r]) { assert Live(t, r) && Typed(t, t.heap[r]); }
  }

  lemma StringLinked(s: State, t: State, u: State, l: seq<Ref>, kept: seq<Ref>)
    requires Shape(s) && Linked(s) && s.gcstate == SweepString && l == s.strt[s.sweepstrgc] && Swept(s, l, t, kept)
    requires u == t.(strt := s.strt[s.sweepstrgc := kept], sweepstrgc := u.sweepstrgc, gcstate := u.gcstate)
    ensures Linked(u)
  {
    SweptClean(s, l, t, kept);
    BucketOK(s);
    assert forall r :: r in Erased(s, l) ==> r in Elems(l) && r in Strings(s);
    assert NonStrings(s) - Erased(s, l) == NonStrings(s);
    assert Strings(u) == Strings(t) && NonStrings(u) == NonStrings(t);
    SplitUpdate(s, s.sweepstrgc, kept, t);
  }

  lemma StringSweeping(s: State, t: State, u: State, l: seq<Ref>, kept: seq<Ref>)
    requires Shape(s) && Sweeping(s) && s.gcstate == SweepString && l == s.strt[s.sweepstrgc] && Swept(s, l, t, kept)
    requires u == t.(strt := s.strt[s.sweepstrgc := kept], sweepstrgc := s.sweepstrgc + 1,
                     gcstate := if s.sweepstrgc + 1 >= |s.strt| then Sweep else SweepString)
    requires Shape(t)
    ensures Shape(u) && Sweeping(u)
  {
    SweptClean(s, l, t, kept);
    assert Shape(u) by { BookkeepingShape(t, u); }
    forall r | r in u.marks && !Clean(u.marks[r], u.white1) ensures Unswept(u, r) {
      assert r !in l && Unswept(s, r);
      if s.heap[r].TString? {
        var b :| s.sweepstrgc <= b < |s.strt| && r in s.strt[b];
        assert r in u.strt[b];
      }
    }
  }

  lemma SplitUpdate(s: State, b: nat, kept: seq<Ref>, t: State)
    requires b < |s.strt| && Split(s.strt, Strings(s)) && NoDup(kept)
    requires Elems(kept) == Elems(s.strt[b]) - Erased(s, s.strt[b])
    requires Strings(t) == Strings(s) - Erased(s, s.strt[b])
    ensures Split(s.strt[b := kept], Strings(t))
  {
    var ls := s.strt[b := kept];
    forall c, r | 0 <= c < |ls| && r in ls[c] ensures r in Strings(t) && r in s.strt[c] {
      if c == b { assert r in Elems(kept); } else { assert r in s.strt[c] && r !in s.strt[b]; }
    }
    forall c, r | 0 <= c < |ls| && r in ls[c] ensures r in s.strt[c] {
      if c == b { assert r in Elems(kept); }
    }
    forall r | r in Strings(t) ensures exists c :: 0 <= c < |ls| && r in ls[c] {
      var c :| 0 <= c < |s.strt| && r in s.strt[c];
      if c == b { assert r in Elems(kept); }
      assert r in ls[c];
    }
  }

  /** Sweeping up to GCSWEEPMAX objects of rootgc keeps the invariant. */
  lemma SweepStepKeeps(s: State)
    requires Inv(s) && s.gcstate == Sweep
    ensures Inv(SweepStep(s))
    ensures forall x :: Live(s, x) ==> Live(SweepStep(s), x) && SweepStep(s).heap[x] == s.heap[x]
  {
    hide *;
    InvSweepParts(s);
    var hi := SweepEnd(s);
    SweepStepUnfold(s);
    var l := s.rootgc[s.sweepgc..hi];
    RootSliceOK(s, hi);
    StringsInHeap(s);
    var t, kept := SweepSeq(s, l).0, SweepSeq(s, l).1;
    var u := SweepStep(s);
    SweepSeqSpec(s, l);
    SweptKeepsLive(s, l, t, kept);
    SweptShape(s, l, t, kept);
    BookkeepingKeeps(t, u);
    RootLinked(s, t, u, hi, l, kept);
    RootSweeping(s, t, u, hi, l, kept);
    if u.gcstate == Finalize { InvCleanIntro(u); } else { InvSweepIntro(u); }
  }

  /** Such a step looks at the next 40 objects of rootgc, or at all that are
      left: the erasable ones are freed, and nothing behind them changes. */
  lemma SweepStepLooksAt(s: State, i: nat)
    requires Inv(s) && s.gcstate == Sweep && s.sweepgc <= i < |s.rootgc|
    ensures var r, t := s.rootgc[i], SweepStep(s);
      && r in s.marks
      && if i < s.sweepgc + 40
         then (r in t.heap <==> !Erasable(s.marks[r], s.white1)) && (r in t.marks ==> Clean(t.marks[r], s.white1))
         else r in t.heap && r in t.marks && t.marks[r] == s.marks[r]
  {
    hide *;
    InvSweepParts(s);
    SweepStepUnfold(s);
    var r, hi := s.rootgc[i], SweepEnd(s);
    var l := s.rootgc[s.sweepgc..hi];
    RootSliceOK(s, hi);
    StringsInHeap(s);
    SweepSeqSpec(s, l);
    SliceHas(s, i, hi);
    SweptAt(s, l, SweepSeq(s, l).0, SweepSeq(s, l).1, r);
  }

  lemma SliceHas(s: State, i: nat, hi: nat)
    requires Linked(s) && s.heap.Keys == s.marks.Keys && s.sweepgc <= i < |s.rootgc| && hi == SweepEnd(s)
    ensures s.rootgc[i] in s.heap && (s.rootgc[i] in s.rootgc[s.sweepgc..hi] <==> i < s.sweepgc + 40)
  {
    var r, l := s.rootgc[i], s.rootgc[s.sweepgc..hi];
    assert r in Elems(s.rootgc) && r in NonStrings(s);
    if i < hi { assert r == l[i - s.sweepgc]; }
  }

  lemma SweptAt(s: State, l: seq<Ref>, t: State, kept: seq<Ref>, r: Ref)
    requires Swept(s, l, t, kept) && s.heap.Keys == s.marks.Keys && MarksOK(s) && r in s.heap
    ensures if r in l
      then (r in t.heap <==> !Erasable(s.marks[r], s.white1)) && (r in t.marks ==> Clean(t.marks[r], s.white1))
      else r in t.heap && r in t.marks && t.marks[r] == s.marks[r]
  {
    assert r in Erased(s, l) <==> r in l && Erasable(s.marks[r], s.white1);
  }

  lemma SweepStepUnfold(s: State)
    requires s.sweepgc <= |s.rootgc|
    ensures s.sweepgc <= SweepEnd(s) <= |s.rootgc|
    ensures var (t, kept) := SweepSeq(s, s.rootgc[s.sweepgc..SweepEnd(s)]);
      var left := s.rootgc[..s.sweepgc] + kept + s.rootgc[SweepEnd(s)..];
      SweepStep(s) == t.(rootgc := left, sweepgc := s.sweepgc + |kept|,
                         gcstate := if s.sweepgc + |kept| == |left| then Finalize else Sweep)
  {}

  lemma RootSliceOK(s: State, hi: nat)
    requires Linked(s) && s.sweepgc <= hi <= |s.rootgc|
    ensures NoDup(s.rootgc[s.sweepgc..hi]) && Elems(s.rootgc[s.sweepgc..hi]) <= NonStrings(s)
  {
    assert forall r :: r in s.rootgc[s.sweepgc..hi] ==> r in Elems(s.rootgc);
  }

  lemma RootLinked(s: State, t: State, u: State, hi: nat, l: seq<Ref>, kept: seq<Ref>)
    requires Shape(s) && Linked(s) && s.sweepgc <= hi <= |s.rootgc| && l == s.rootgc[s.sweepgc..hi]
    requires Swept(s, l, t, kept)
    requires u.rootgc == s.rootgc[..s.sweepgc] + kept + s.rootgc[hi..] && u.heap == t.heap && u.strt == t.strt
    ensures Linked(u)
  {
    hide *;
    var a, c := s.rootgc[..s.sweepgc], s.rootgc[hi..];
    assert s.rootgc == a + l + c;
    RootSets(s, t, u, hi, l, kept);
    NoDupReplace(a, l, c, kept);
    SliceElems(a, l, c);
    SliceElems(a, kept, c);
    NoDupDisjoint(a, l, c);
    assert Elems(u.rootgc) == NonStrings(u);
    LinkedIntro(u);
  }

  lemma LinkedIntro(u: State)
    requires NoDup(u.rootgc) && Elems(u.rootgc) == NonStrings(u) && Split(u.strt, Strings(u))
    ensures Linked(u)
  {}

  lemma RootSets(s: State, t: State, u: State, hi: nat, l: seq<Ref>, kept: seq<Ref>)
    requires Shape(s) && Linked(s) && s.sweepgc <= hi <= |s.rootgc| && l == s.rootgc[s.sweepgc..hi]
    requires Swept(s, l, t, kept) && u.heap == t.heap && u.strt == t.strt
    ensures NoDup(s.rootgc) && NoDup(kept)
    ensures Elems(s.rootgc) == NonStrings(s)
    ensures Elems(kept) == Elems(l) - Erased(s, l) && Erased(s, l) <= Elems(l)
    ensures NonStrings(u) == NonStrings(s) - Erased(s, l)
    ensures Split(u.strt, Strings(u))
  {
    SweptClean(s, l, t, kept);
    RootSliceOK(s, hi);
    assert Erased(s, l) <= Elems(l);
    hide Split;
    assert Strings(s) - Erased(s, l) == Strings(s);
    assert Strings(u) == Strings(t) && NonStrings(u) == NonStrings(t);
  }

  lemma SliceElems(a: seq<Ref>, l: seq<Ref>, c: seq<Ref>)
    ensures Elems(a + l + c) == Elems(a) + Elems(l) + Elems(c)
  {}

  lemma NoDupDisjoint(a: seq<Ref>, l: seq<Ref>, c: seq<Ref>)
    requires NoDup(a + l + c)
    ensures Elems(a) !! Elems(l) && Elems(c) !! Elems(l) && Elems(a) !! Elems(c)
    ensures NoDup(a) && NoDup(l) && NoDup(c)
  {
    var m := a + l + c;
    forall i, j | 0 <= i < |a| && 0 <= j < |l| ensures a[i] != l[j] { assert m[i] != m[|a| + j]; }
    forall i, j | 0 <= i < |a| && 0 <= j < |c| ensures a[i] != c[j] { assert m[i] != m[|a| + |l| + j]; }
    forall i, j | 0 <= i < |l| && 0 <= j < |c| ensures l[i] != c[j] { assert m[|a| + i] != m[|a| + |l| + j]; }
    forall i, j | 0 <= i < j < |a| ensures a[i] != a[j] { assert m[i] != m[j]; }
    forall i, j | 0 <= i < j < |l| ensures l[i] != l[j] { assert m[|a| + i] != m[|a| + j]; }
    forall i, j | 0 <= i < j < |c| ensures c[i] != c[j] { assert m[|a| + |l| + i] != m[|a| + |l| + j]; }
  }

  lemma NoDupReplace(a: seq<Ref>, l: seq<Ref>, c: seq<Ref>, k: seq<Ref>)
    requires NoDup(a + l + c) && NoDup(k) && Elems(k) <= Elems(l)
    ensures NoDup(a + k + c)
  {
    NoDupDisjoint(a, l, c);
    var m := a + k + c;
    assert forall i :: 0 <= i < |a| ==> m[i] == a[i] && a[i] in Elems(a);
    assert forall i :: 0 <= i < |k| ==> m[|a| + i] == k[i] && k[i] in Elems(k);
    assert forall i :: |a| + |k| <= i < |m| ==> m[i] == c[i - |a| - |k|] && m[i] in Elems(c);
    forall i, j | 0 <= i < j < |m| ensures m[i] != m[j] {
      if |a| <= i < |a| + |k| && j < |a| + |k| { assert m[i] == k[i - |a|] && m[j] == k[j - |a|]; }
      if i < |a| && |a| <= j < |a| + |k| { assert m[j] == k[j - |a|]; }
      if |a| <= i < |a| + |k| { assert m[i] == k[i - |a|]; }
    }
  }

  lemma RootSweeping(s: State, t: State, u: State, hi: nat, l: seq<Ref>, kept: seq<Ref>)
    requires Shape(s) && Sweeping(s) && s.gcstate == Sweep && s.sweepgc <= hi <= |s.rootgc|
    requires l == s.rootgc[s.sweepgc..hi] && Swept(s, l, t, kept)
    requires u.rootgc == s.rootgc[..s.sweepgc] + kept + s.rootgc[hi..]
    requires u == t.(rootgc := u.rootgc, sweepgc := s.sweepgc + |kept|, gcstate := u.gcstate)
    requires u.gcstate == if u.sweepgc == |u.rootgc| then Finalize else Sweep
    requires Shape(t)
    ensures Shape(u)
    ensures if u.gcstate == Finalize then AllClean(u) else Sweeping(u)
  {
    hide Swept, Shape;
    SweptFrame(s, l, t, kept);
    Middle(s.rootgc, s.sweepgc, hi, kept);
    BookkeepingShape(t, u);
    SweptClean(s, l, t, kept);
    forall r | r in u.marks && !Clean(u.marks[r], u.white1)
      ensures r in s.rootgc[hi..] && Unswept(u, r)
    {
      assert r in t.marks && r !in l && t.marks[r] == s.marks[r];
      assert Unswept(s, r);
      assert r in l + s.rootgc[hi..];
    }
  }

  lemma Middle(a: seq<Ref>, i: nat, j: nat, kept: seq<Ref>)
    requires i <= j <= |a|
    ensures a[i..] == a[i..j] + a[j..]
    ensures (a[..i] + kept + a[j..])[i + |kept|..] == a[j..]
  {
  }

  lemma SweptFrame(s: State, l: seq<Ref>, t: State, kept: seq<Ref>)
    requires Shape(s) && Swept(s, l, t, kept) && Shape(t)
    ensures |t.strt| > 0 && s.sweepgc <= |s.rootgc| && t.heap.Keys <= s.heap.Keys
    ensures forall r :: r in t.heap ==> t.heap[r] == s.heap[r]
    ensures t == s.(heap := t.heap, marks := t.marks) && t.marks.Keys == t.heap.Keys && s.heap.Keys == s.marks.Keys
  {
  }
}
