/** The invariant of the collector and its preservation by marking. */
module CollectorInvariant {
  import opened Options
  import opened Collector

  // ---------------------------------------------------------------------
  // The invariant

  ghost predicate NoDup(l: seq<Ref>) { forall i, j :: 0 <= i < j < |l| ==> l[i] != l[j] }

  ghost predicate Names(s: State, os: seq<Option<Ref>>) {
    forall o :: o in os && o.Some? && o.value in s.heap ==> s.heap[o.value].TString?
  }

  /** Names held by a prototype are strings, so that stringmark marks them. */
  ghost predicate Typed(s: State, o: GCObject) {
    o.Proto? ==> Names(s, [o.source]) && Names(s, o.names) && Names(s, o.locvars)
  }

  ghost predicate Shape(s: State) {
    && s.heap.Keys == s.marks.Keys
    && |s.strt| > 0
    && s.sweepgc <= |s.rootgc|
    && (s.gcstate == SweepString ==> s.sweepstrgc < |s.strt|)
    && s.mainthread in s.heap && s.heap[s.mainthread].Thread?
    && s.cur in s.heap && s.heap[s.cur].Thread?
    && s.marks[s.mainthread].fixed
    && (forall r :: r in s.heap && s.marks[r].fixed ==> s.heap[r].TString? || r == s.mainthread)
    && (forall r :: Live(s, r) ==> Typed(s, s.heap[r]))
  }

  ghost function Strings(s: State): set<Ref> { set r | r in s.heap && s.heap[r].TString? }

  ghost function NonStrings(s: State): set<Ref> { set r | r in s.heap && !s.heap[r].TString? }

  ghost function Elems(l: seq<Ref>): set<Ref> { set r | r in l }

  /** `S` is split over the lists of `ls`, each element in one place. */
  ghost predicate Split(ls: seq<seq<Ref>>, S: set<Ref>) {
    && (forall b :: 0 <= b < |ls| ==> NoDup(ls[b]))
    && (forall b, r :: 0 <= b < |ls| && r in ls[b] ==> r in S)
    && (forall b, c, r :: 0 <= b < c < |ls| && r in ls[b] ==> r !in ls[c])
    && (forall r :: r in S ==> exists b :: 0 <= b < |ls| && r in ls[b])
  }

  /** Every object is linked exactly once: strings in a bucket of the string
      table, all others in rootgc. */
  ghost predicate Linked(s: State) {
    NoDup(s.rootgc) && Elems(s.rootgc) == NonStrings(s) && Split(s.strt, Strings(s))
  }

  ghost predicate MarksOK(s: State) {
    forall r :: r in s.marks ==>
      !(s.marks[r].w0 && s.marks[r].w1) && (s.marks[r].black ==> !IsWhite(s.marks[r]))
  }

  ghost predicate Live(s: State, r: Ref) { r in s.heap && r in s.marks && !IsDead(s.marks[r], s.white1) }

  function Roots(s: State): seq<Ref> {
    [s.mainthread, s.cur] + ValRefs(s.registry) + OptsRefs(s.mt)
  }

  /** Nothing that is not dead refers to a freed or dead object. */
  ghost predicate LiveClosed(s: State) {
    && (forall x :: x in Roots(s) ==> Live(s, x))
    && (forall r, x :: Live(s, r) && x in Refs(s.heap[r]) ==> Live(s, x))
  }

  ghost predicate NoDead(s: State) { forall r :: r in s.marks ==> !IsDead(s.marks[r], s.white1) }

  ghost predicate AllClean(s: State) { forall r :: r in s.marks ==> Clean(s.marks[r], s.white1) }

  ghost predicate NonWhite(s: State, r: Ref) { r in s.marks && !IsWhite(s.marks[r]) }

  /** No black object, except perhaps one still being traversed, points to a
      white one; threads are never black. */
  ghost predicate TriColor(s: State, open: set<Ref>) {
    && (forall r, x :: r in s.heap && r in s.marks && IsBlack(s.marks[r]) && r !in open && x in Refs(s.heap[r]) ==>
          NonWhite(s, x))
    && (forall r :: r in s.heap && r in s.marks && IsBlack(s.marks[r]) ==> !s.heap[r].Thread? && !s.heap[r].TString?)
  }

  /** The two work lists hold exactly the gray objects that have references,
      each once (they are linked through one field of the object). */
  ghost predicate WorkLists(s: State) {
    && NoDup(s.gray + s.grayagain)
    && (forall r :: r in s.gray + s.grayagain ==>
          r in s.heap && r in s.marks && IsGray(s.marks[r]) && IsContainer(s.heap[r]))
    && (forall r :: r in s.heap && r in s.marks && IsGray(s.marks[r]) && !s.heap[r].TString? ==>
          r in s.gray + s.grayagain)
  }

  ghost predicate TriColorInv(s: State, open: set<Ref>) {
    TriColor(s, open) && WorkLists(s)
  }

  /** markroot's work, which no mutator step undoes. */
  ghost predicate RootsMarked(s: State) {
    NonWhite(s, s.mainthread) && forall x :: x in ValRefs(s.registry) ==> NonWhite(s, x)
  }

  /** What the sweep has not passed yet. */
  ghost predicate Unswept(s: State, r: Ref) {
    if r in s.heap && s.heap[r].TString?
    then s.gcstate == SweepString && exists b :: s.sweepstrgc <= b < |s.strt| && r in s.strt[b]
    else s.sweepgc <= |s.rootgc| && r in s.rootgc[s.sweepgc..]
  }

  ghost predicate Sweeping(s: State)
    requires Shape(s)
  {
    && (s.gcstate == SweepString ==> s.sweepgc == 0)
    && (forall r :: r in s.marks && !Clean(s.marks[r], s.white1) ==> Unswept(s, r))
  }

  ghost predicate Inv(s: State) {
    && Shape(s) && Linked(s) && MarksOK(s) && LiveClosed(s)
    && match s.gcstate
       case Pause | Finalize => AllClean(s)
       case Propagate => NoDead(s) && TriColorInv(s, {}) && RootsMarked(s)
       case SweepString | Sweep => Sweeping(s)
  }

  // ---------------------------------------------------------------------
  // References

  lemma {:induction false} ValsRefsIn(vs: seq<Value>, x: Ref)
    ensures x in ValsRefs(vs) <==> Obj(x) in vs
  {
    if vs != [] {
      ValsRefsIn(vs[1..], x);
      assert vs == [vs[0]] + vs[1..];
    }
  }

  lemma {:induction false} OptsRefsIn(os: seq<Option<Ref>>, x: Ref)
    ensures x in OptsRefs(os) <==> Some(x) in os
  {
    if os != [] {
      OptsRefsIn(os[1..], x);
      assert os == [os[0]] + os[1..];
    }
  }

  lemma {:induction false} NodesIn(ns: seq<Node>, x: Ref)
    ensures x in NodesKidsDown(ns) ==> x in NodesRefs(ns)
    ensures x in NodesRefs(CleanNodes(ns)) <==> x in NodesKidsDown(ns)
    ensures NodesKidsDown(CleanNodes(ns)) == NodesKidsDown(ns)
  {
    if ns != [] {
      NodesIn(ns[..|ns| - 1], x);
      assert CleanNodes(ns)[..|ns| - 1] == CleanNodes(ns[..|ns| - 1]);
    }
  }

  /** Cleaning an object leaves what marking follows alone and drops every
      other reference. */
  lemma CleanedRefs(o: GCObject)
    ensures Kids(Cleaned(o)) == Kids(o)
    ensures forall x :: x in Kids(o) ==> x in Refs(o)
    ensures forall x :: x in Refs(Cleaned(o)) <==> x in Kids(o)
    ensures IsContainer(Cleaned(o)) == IsContainer(o) && Cleaned(o).TString? == o.TString?
    ensures Cleaned(o).Thread? == o.Thread?
  {
    match o
    case Table(mt, arr, node) =>
      NodesIn(node, 0);
      forall x ensures (x in Kids(o) ==> x in Refs(o)) && (x in Refs(Cleaned(o)) <==> x in Kids(o)) {
        NodesIn(node, x);
      }
    case Thread(gt, stack, top) =>
      var c := NilFrom(stack, Top(o));
      assert c[..Top(o)] == stack[..Top(o)];
      forall x ensures (x in Kids(o) ==> x in Refs(o)) && (x in Refs(Cleaned(o)) <==> x in Kids(o)) {
        ValsRefsIn(stack[..Top(o)], x); ValsRefsIn(stack, x); ValsRefsIn(c, x);
        assert c == c[..Top(o)] + c[Top(o)..];
      }
    case _ =>
  }

  // ---------------------------------------------------------------------
  // What the mutator can read of an object

  /** What `Kids` lists, field by field: an entry of a table that is nil holds
      nothing, and neither do the slots above the top of a stack. */
  ghost predicate Readable(o: GCObject, x: Ref) {
    match o
    case TString => false
    case Udata(mt, env) => mt == Some(x) || env == x
    case UpVal(v) => v == Obj(x)
    case CClosure(env, ups) => env == x || Obj(x) in ups
    case LClosure(env, p, ups) => env == x || p == x || x in ups
    case Table(mt, arr, node) =>
      || mt == Some(x)
      || Obj(x) in arr
      || exists i :: 0 <= i < |node| && node[i].val != Nil && (node[i].key == LiveKey(Obj(x)) || node[i].val == Obj(x))
    case Thread(gt, stack, top) => gt == Obj(x) || exists i :: 0 <= i < |stack| && i < top && stack[i] == Obj(x)
    case Proto(src, k, names, ps, lv) => src == Some(x) || Obj(x) in k || Some(x) in names || Some(x) in ps || Some(x) in lv
  }

  lemma {:induction false} NodesReadable(ns: seq<Node>, x: Ref)
    ensures x in NodesKidsDown(ns) <==>
      exists i :: 0 <= i < |ns| && ns[i].val != Nil && (ns[i].key == LiveKey(Obj(x)) || ns[i].val == Obj(x))
  {
    if ns != [] {
      var front, n := ns[..|ns| - 1], |ns| - 1;
      NodesReadable(front, x);
      assert x in NodeKids(ns[n]) <==> ns[n].val != Nil && (ns[n].key == LiveKey(Obj(x)) || ns[n].val == Obj(x));
      assert forall i :: 0 <= i < n ==> front[i] == ns[i];
    }
  }

  lemma {:induction false} ValsRefsDownIn(vs: seq<Value>, x: Ref)
    ensures x in ValsRefsDown(vs) <==> Obj(x) in vs
  {
    if vs != [] {
      ValsRefsDownIn(vs[..|vs| - 1], x);
      assert vs == vs[..|vs| - 1] + [vs[|vs| - 1]];
    }
  }

  /** Marking follows exactly the references that can be read. */
  lemma KidsReadable(o: GCObject, x: Ref)
    ensures x in Kids(o) <==> Readable(o, x)
  {
    match o
    case CClosure(env, ups) => ValsRefsIn(ups, x);
    case Table(mt, arr, node) => ValsRefsDownIn(arr, x); NodesReadable(node, x);
    case Thread(gt, stack, top) =>
      var l := stack[..Top(o)];
      ValsRefsIn(l, x);
      assert Obj(x) in l <==> exists i :: 0 <= i < |stack| && i < top && stack[i] == Obj(x) by {
        assert forall i :: 0 <= i < |l| ==> l[i] == stack[i];
      }
    case Proto(src, k, names, ps, lv) => ValsRefsIn(k, x); OptsRefsIn(names, x); OptsRefsIn(ps, x); OptsRefsIn(lv, x);
    case _ =>
  }

  lemma RootsReadable(s: State, x: Ref)
    ensures x in Roots(s) <==> x == s.mainthread || x == s.cur || s.registry == Obj(x) || Some(x) in s.mt
  {
    OptsRefsIn(s.mt, x);
  }

  /** `b` is `a`, except that the collectable key of a nil entry may have been
      marked dead and stack slots above the top may hold anything. */
  ghost predicate ReadsSame(a: GCObject, b: GCObject) {
    match a
    case Table(mt, arr, node) =>
      && b.Table? && b.metatable == mt && b.arr == arr && |b.node| == |node|
      && (forall i :: 0 <= i < |node| ==> b.node[i].val == node[i].val)
      && (forall i :: 0 <= i < |node| ==>
            || b.node[i].key == node[i].key
            || (node[i].val == Nil && b.node[i].key.DeadKey? && node[i].key == LiveKey(Obj(b.node[i].key.was))))
    case Thread(gt, stack, top) =>
      && b.Thread? && b.gt == gt && b.top == top && |b.stack| == |stack|
      && (forall i :: 0 <= i < |stack| && i < top ==> b.stack[i] == stack[i])
    case _ => b == a
  }

  lemma CleanedReads(o: GCObject)
    ensures ReadsSame(o, Cleaned(o))
  {
    match o
    case Thread(gt, stack, top) =>
      var c := NilFrom(stack, Top(o));
      forall i | 0 <= i < |stack| && i < top ensures c[i] == stack[i] {
        assert c[i] == c[..Top(o)][i];
      }
    case _ =>
  }

  ghost predicate SameReads(s: State, t: State) {
    t.heap.Keys == s.heap.Keys && forall x :: x in s.heap ==> ReadsSame(s.heap[x], t.heap[x])
  }

  lemma SameReadsTrans(s: State, t: State, u: State)
    requires SameReads(s, t) && SameReads(t, u)
    ensures SameReads(s, u)
  {
    forall x | x in s.heap ensures ReadsSame(s.heap[x], u.heap[x]) { ReadsTrans(s.heap[x], t.heap[x], u.heap[x]); }
  }

  lemma ReadsTrans(a: GCObject, b: GCObject, c: GCObject)
    requires ReadsSame(a, b) && ReadsSame(b, c)
    ensures ReadsSame(a, c)
  {}

  // ---------------------------------------------------------------------
  // Marking

  ghost predicate Newly(s: State, t: State, x: Ref) {
    x in s.marks && x in t.marks && IsWhite(s.marks[x]) && !IsWhite(t.marks[x])
  }

  /** What marking does to one object that it reaches. */
  ghost predicate Settled(s: State, t: State, queued: seq<Ref>, x: Ref)
    requires x in s.heap && x in t.marks
  {
    if s.heap[x].TString? then !t.marks[x].black
    else if IsContainer(s.heap[x]) then !t.marks[x].black && x in queued
    else t.marks[x].black && forall y :: y in Refs(s.heap[x]) && y in s.heap ==> NonWhite(t, y)
  }

  /** `t` results from `s` by marking: white objects became gray and queued
      (strings are not queued), or black with nothing white below them. */
  ghost predicate Marked(s: State, t: State) {
    && s.heap.Keys == s.marks.Keys == t.marks.Keys
    && t == s.(marks := t.marks, gray := t.gray)
    && |s.gray| <= |t.gray|
    && var queued := t.gray[..|t.gray| - |s.gray|];
       && t.gray == queued + s.gray
       && NoDup(queued)
       && (forall x :: x in queued ==> Newly(s, t, x) && IsContainer(s.heap[x]))
       && (forall x :: x in s.marks ==>
             t.marks[x] == s.marks[x] || (Newly(s, t, x) && t.marks[x].fixed == s.marks[x].fixed))
       && (forall x :: Newly(s, t, x) ==> Settled(s, t, queued, x))
  }

  lemma MarkedRefl(s: State)
    requires s.heap.Keys == s.marks.Keys
    ensures Marked(s, s)
  {}

  lemma MarkedTrans(s: State, t: State, u: State)
    requires Marked(s, t) && Marked(t, u)
    ensures Marked(s, u)
  {
    var f1 := t.gray[..|t.gray| - |s.gray|];
    var f2 := u.gray[..|u.gray| - |t.gray|];
    var f := u.gray[..|u.gray| - |s.gray|];
    assert u.gray == f2 + f1 + s.gray;
    assert f == f2 + f1;
    forall i, j | 0 <= i < j < |f| ensures f[i] != f[j] {
      if i < |f2| <= j { assert f[i] in f2 && f[j] in f1 by { assert f[i] == f2[i] && f[j] == f1[j - |f2|]; } }
    }
    forall x | x in s.marks
      ensures u.marks[x] == s.marks[x] || (Newly(s, u, x) && u.marks[x].fixed == s.marks[x].fixed)
    {}
    forall x | Newly(s, u, x) ensures Settled(s, u, f, x) {
      if Newly(s, t, x) {
        assert Settled(s, t, f1, x);
        assert u.marks[x] == t.marks[x];
      } else {
        assert Settled(t, u, f2, x);
      }
    }
  }

  lemma {:induction false} ReallyMarkMarks(s: State, r: Ref)
    requires s.heap.Keys == s.marks.Keys && MarksOK(s)
    requires r in s.heap && IsWhite(s.marks[r])
    ensures Marked(s, ReallyMark(s, r)) && NonWhite(ReallyMark(s, r), r)
    decreases Whites(s), 0, 1
  {
    hide Marked;
    match s.heap[r]
    case TString => GrayMarks(s, r);
    case Udata(mt, env) => UdataMarks(s, r);
    case UpVal(v) => UpValMarks(s, r);
    case _ => GrayMarks(s, r);
  }

  lemma GrayMarks(s: State, r: Ref)
    requires s.heap.Keys == s.marks.Keys && MarksOK(s)
    requires r in s.heap && IsWhite(s.marks[r]) && (s.heap[r].TString? || IsContainer(s.heap[r]))
    ensures Marked(s, ReallyMark(s, r)) && NonWhite(ReallyMark(s, r), r)
  {
    var s1 := SetMark(s, r, White2Gray(s.marks[r]));
    if s.heap[r].TString? {
      assert ReallyMark(s, r) == s1;
      assert s1.gray == s1.gray[..0] + s.gray;
    } else {
      assert ReallyMark(s, r) == PushGray(s1, r);
      QueuedMarks(s, r);
    }
  }

  lemma QueuedMarks(s: State, r: Ref)
    requires s.heap.Keys == s.marks.Keys && MarksOK(s)
    requires r in s.heap && IsWhite(s.marks[r]) && IsContainer(s.heap[r])
    ensures var t := PushGray(SetMark(s, r, White2Gray(s.marks[r])), r); Marked(s, t) && NonWhite(t, r)
  {
    var t := PushGray(SetMark(s, r, White2Gray(s.marks[r])), r);
    var queued := t.gray[..|t.gray| - |s.gray|];
    assert queued == [r] && t.gray == queued + s.gray;
    assert forall x :: Newly(s, t, x) <==> x == r;
    assert r in queued;
  }

  lemma {:induction false} UdataMarks(s: State, r: Ref)
    requires s.heap.Keys == s.marks.Keys && MarksOK(s)
    requires r in s.heap && IsWhite(s.marks[r]) && s.heap[r].Udata?
    ensures Marked(s, ReallyMark(s, r)) && NonWhite(ReallyMark(s, r), r)
    decreases Whites(s), 0, 0
  {
    hide Marked, MarksOK;
    var mt, env := s.heap[r].metatable, s.heap[r].env;
    var s2 := SetMark(s, r, Gray2Black(White2Gray(s.marks[r])));
    assert r in Whites(s) && r !in Whites(s2) && Whites(s2) <= Whites(s);
    assert MarksOK(s2) by { DarkenKeepsOK(s, r, s2.marks[r]); }
    var s3 := if mt.Some? then MarkObject(s2, mt.value) else s2;
    var t := MarkObject(s3, env);
    assert t == ReallyMark(s, r);
    if mt.Some? { MarkObjectMarks(s2, mt.value); } else { MarkedRefl(s2); }
    MarkedKeepsOK(s2, s3);
    MarkObjectMarks(s3, env);
    UdataGlue(s, r, s2, s3, t);
  }

  lemma DarkenKeepsOK(s: State, r: Ref, m: Mark)
    requires MarksOK(s) && !IsWhite(m)
    ensures MarksOK(SetMark(s, r, m))
  {}

  lemma UdataGlue(s: State, r: Ref, s2: State, s3: State, t: State)
    requires s.heap.Keys == s.marks.Keys
    requires r in s.heap && IsWhite(s.marks[r]) && s.heap[r].Udata?
    requires s2 == SetMark(s, r, Gray2Black(White2Gray(s.marks[r])))
    requires Marked(s2, s3) && Marked(s3, t)
    requires s.heap[r].metatable.Some? && s.heap[r].metatable.value in s.heap ==> NonWhite(s3, s.heap[r].metatable.value)
    requires s.heap[r].env in s.heap ==> NonWhite(t, s.heap[r].env)
    ensures Marked(s, t) && NonWhite(t, r)
  {
    hide Marked;
    MarkedFrame(s2, s3);
    MarkedFrame(s3, t);
    MarkedKeepsNonWhite(s3, t);
    MarkedTrans(s2, s3, t);
    MarkedKeepsBlack(s2, t, r);
    assert t.marks[r := Gray2Black(t.marks[r])] == t.marks;
    BlackenMarks(s, r, s2, t, t);
  }

  lemma MarkedKeepsBlack(s: State, t: State, r: Ref)
    requires Marked(s, t) && NonWhite(s, r)
    ensures r in t.marks && t.marks[r] == s.marks[r]
  {}

  lemma {:induction false} UpValMarks(s: State, r: Ref)
    requires s.heap.Keys == s.marks.Keys && MarksOK(s)
    requires r in s.heap && IsWhite(s.marks[r]) && s.heap[r].UpVal?
    ensures Marked(s, ReallyMark(s, r)) && NonWhite(ReallyMark(s, r), r)
    decreases Whites(s), 0, 0
  {
    hide Marked, MarksOK;
    var v := s.heap[r].v;
    var s1 := SetMark(s, r, White2Gray(s.marks[r]));
    assert r in Whites(s) && r !in Whites(s1) && Whites(s1) <= Whites(s);
    var s2 := if v.Obj? then MarkObject(s1, v.r) else s1;
    DarkenKeepsOK(s, r, s1.marks[r]);
    if v.Obj? { MarkObjectMarks(s1, v.r); } else { MarkedRefl(s1); }
    BlackenMarks(s, r, s1, s2, ReallyMark(s, r));
  }

  lemma MarkedFrame(s: State, t: State)
    requires Marked(s, t)
    ensures t.heap == s.heap && t.heap.Keys == s.marks.Keys == t.marks.Keys
  {}

  lemma MarkedKeepsNonWhite(s: State, t: State)
    requires Marked(s, t)
    ensures forall x :: NonWhite(s, x) ==> NonWhite(t, x)
  {}

  lemma MarkedKeepsOK(s: State, t: State)
    requires MarksOK(s) && Marked(s, t)
    ensures MarksOK(t)
  {
    forall r | r in t.marks
      ensures !(t.marks[r].w0 && t.marks[r].w1) && (t.marks[r].black ==> !IsWhite(t.marks[r]))
    {}
  }

  /** A userdata or upvalue `r`, darkened first, whose references are marked
      next, and which is black in the end. */
  lemma BlackenMarks(s: State, r: Ref, s1: State, s2: State, t: State)
    requires s.heap.Keys == s.marks.Keys
    requires r in s.heap && IsWhite(s.marks[r]) && (s.heap[r].Udata? || s.heap[r].UpVal?)
    requires r in s1.marks && s1 == SetMark(s, r, s1.marks[r]) && !IsWhite(s1.marks[r]) && s1.marks[r].fixed == s.marks[r].fixed
    requires Marked(s1, s2)
    requires t == SetMark(s2, r, Gray2Black(s2.marks[r]))
    requires forall y :: y in Refs(s.heap[r]) && y in s.heap ==> NonWhite(s2, y)
    ensures Marked(s, t) && NonWhite(t, r)
  {
    var f := s2.gray[..|s2.gray| - |s.gray|];
    assert t.gray == f + s.gray;
    forall x | Newly(s, t, x) ensures Settled(s, t, f, x) {
      if x != r {
        assert Newly(s1, s2, x);
        assert Settled(s1, s2, f, x);
      }
    }
  }

  lemma {:induction false} MarkObjectMarks(s: State, r: Ref)
    requires s.heap.Keys == s.marks.Keys && MarksOK(s)
    ensures Marked(s, MarkObject(s, r))
    ensures r in s.heap ==> NonWhite(MarkObject(s, r), r)
    decreases Whites(s), 1
  {
    if r in s.marks && IsWhite(s.marks[r]) { ReallyMarkMarks(s, r); } else { MarkedRefl(s); }
  }

  /** Marking a list of references settles each of them. */
  lemma {:induction false} MarkAllMarks(s: State, l: seq<Ref>)
    requires s.heap.Keys == s.marks.Keys && MarksOK(s)
    ensures Marked(s, MarkAll(s, l)) && MarksOK(MarkAll(s, l))
    ensures forall x :: x in l && x in s.heap ==> NonWhite(MarkAll(s, l), x)
    decreases |l|
  {
    if l == [] {
      MarkedRefl(s);
    } else {
      var s1 := MarkObject(s, l[0]);
      MarkObjectMarks(s, l[0]);
      MarkedKeepsOK(s, s1);
      MarkAllMarks(s1, l[1..]);
      MarkedTrans(s, s1, MarkAll(s, l));
      hide Marked;
      MarkedKeepsNonWhite(s1, MarkAll(s, l));
    }
  }

  // ---------------------------------------------------------------------
  // Marking keeps the invariant

  /** The invariant during the mark phase, as it holds inside atomic too. */
  ghost predicate MarkInv(s: State, open: set<Ref>) {
    Shape(s) && Linked(s) && MarksOK(s) && LiveClosed(s) && NoDead(s) && TriColorInv(s, open)
  }

  lemma MarkedKeepsMarkInv(s: State, t: State, open: set<Ref>)
    requires MarkInv(s, open) && Marked(s, t)
    ensures MarkInv(t, open)
  {
    MarkedKeepsOK(s, t);
    MarkedKeepsLinks(s, t);
    MarkedKeepsTriColor(s, t, open);
    MarkedKeepsWorkLists(s, t);
  }

  /** Two states whose objects differ at most by cleaning and colour. */
  ghost predicate Kindred(s: State, t: State) {
    && t.heap.Keys == s.heap.Keys == t.marks.Keys == s.marks.Keys
    && (forall r :: r in s.heap ==> t.heap[r] == s.heap[r] || t.heap[r] == Cleaned(s.heap[r]))
    && (forall r :: r in s.marks ==> t.marks[r].fixed == s.marks[r].fixed)
    && t.(heap := s.heap, marks := s.marks, gray := s.gray, grayagain := s.grayagain) == s
  }

  lemma KindredShape(s: State, t: State)
    requires Kindred(s, t) && Shape(s) && NoDead(s)
    ensures Shape(t)
  {
    forall r | r in t.heap ensures Typed(t, t.heap[r]) { assert Live(s, r) && Typed(s, s.heap[r]); }
  }

  lemma KindredLinked(s: State, t: State)
    requires Kindred(s, t) && Linked(s)
    ensures Linked(t)
  {
    assert Strings(t) == Strings(s) && NonStrings(t) == NonStrings(s);
  }

  lemma KindredClosed(s: State, t: State)
    requires Kindred(s, t) && LiveClosed(s) && NoDead(s) && NoDead(t)
    ensures LiveClosed(t)
  {
    forall x | x in s.heap ensures Live(s, x) && Live(t, x) {}
    assert Roots(t) == Roots(s);
    forall r, x | r in t.heap && x in Refs(t.heap[r]) ensures Live(t, x) {
      CleanedRefs(s.heap[r]);
      assert Live(s, r) && Live(s, x);
    }
  }

  lemma MarkedKeepsLinks(s: State, t: State)
    requires Shape(s) && Linked(s) && LiveClosed(s) && NoDead(s) && Marked(s, t)
    ensures Shape(t) && Linked(t) && LiveClosed(t) && NoDead(t)
  {
    assert Kindred(s, t) && NoDead(t);
    hide *;
    KindredShape(s, t);
    KindredLinked(s, t);
    KindredClosed(s, t);
  }

  lemma MarkedKeepsTriColor(s: State, t: State, open: set<Ref>)
    requires LiveClosed(s) && NoDead(s) && TriColor(s, open) && Marked(s, t)
    ensures TriColor(t, open)
  {
    var queued := t.gray[..|t.gray| - |s.gray|];
    forall r, x | r in t.heap && IsBlack(t.marks[r]) && r !in open && x in Refs(t.heap[r])
      ensures NonWhite(t, x)
    {
      assert Live(s, r);
      assert Live(s, x);
      if Newly(s, t, r) {
        assert Settled(s, t, queued, r);
      } else {
        assert NonWhite(s, x);
      }
    }
    forall r | r in t.heap && IsBlack(t.marks[r]) ensures !t.heap[r].Thread? && !t.heap[r].TString? {
      if Newly(s, t, r) { assert Settled(s, t, queued, r); }
    }
  }

  lemma MarkedKeepsWorkLists(s: State, t: State)
    requires WorkLists(s) && Marked(s, t)
    ensures WorkLists(t)
  {
    var queued := t.gray[..|t.gray| - |s.gray|];
    var l := t.gray + t.grayagain;
    assert l == queued + (s.gray + s.grayagain);
    forall x | x in l
      ensures x in t.heap && IsGray(t.marks[x]) && IsContainer(t.heap[x])
    {
      if x in queued {
        assert Newly(s, t, x) && Settled(s, t, queued, x);
      } else {
        assert x in s.gray + s.grayagain;
      }
    }
    forall i, j | 0 <= i < j < |l| ensures l[i] != l[j] {
      if i < |queued| <= j {
        assert l[i] in queued && l[j] in s.gray + s.grayagain by {
          assert l[i] == queued[i] && l[j] == (s.gray + s.grayagain)[j - |queued|];
        }
      }
    }
    forall r | r in t.heap && IsGray(t.marks[r]) && !t.heap[r].TString? ensures r in l {
      if Newly(s, t, r) { assert Settled(s, t, queued, r); } else { assert r in s.gray + s.grayagain; }
    }
  }

  /** Replacing an object by its cleaned form keeps everything about links. */
  lemma CleanKeepsInv(s: State, r: Ref, open: set<Ref>)
    requires MarkInv(s, open) && r in s.heap
    ensures MarkInv(s.(heap := s.heap[r := Cleaned(s.heap[r])]), open)
  {
    var t := s.(heap := s.heap[r := Cleaned(s.heap[r])]);
    CleanedRefs(s.heap[r]);
    assert Kindred(s, t) && NoDead(t) && MarksOK(t);
    CleanKeepsColors(s, r, open);
    hide *;
    KindredShape(s, t);
    KindredLinked(s, t);
    KindredClosed(s, t);
    assert MarkInv(t, open) by { MarkInvIntro(t, open); }
  }

  lemma MarkInvIntro(t: State, open: set<Ref>)
    requires Shape(t) && Linked(t) && MarksOK(t) && LiveClosed(t) && NoDead(t) && TriColorInv(t, open)
    ensures MarkInv(t, open)
  {}

  lemma CleanKeepsColors(s: State, r: Ref, open: set<Ref>)
    requires TriColorInv(s, open) && r in s.heap
    ensures TriColorInv(s.(heap := s.heap[r := Cleaned(s.heap[r])]), open)
  {
    var t := s.(heap := s.heap[r := Cleaned(s.heap[r])]);
    CleanedRefs(s.heap[r]);
    forall x | NonWhite(s, x) ensures NonWhite(t, x) {}
    forall x, y | x in t.heap && x in t.marks && IsBlack(t.marks[x]) && x !in open && y in Refs(t.heap[x])
      ensures NonWhite(t, y)
    {
      assert y in Refs(s.heap[x]);
      assert NonWhite(s, y);
    }
  }

  lemma PoppedKeepsInv(s: State)
    requires MarkInv(s, {}) && s.gray != []
    ensures MarkInv(Popped(s), {s.gray[0]})
  {
    var t := Popped(s);
    assert s.gray[0] in s.gray + s.grayagain;
    PoppedKeepsColors(s);
    PoppedKindred(s);
    hide *;
    KindredShape(s, t);
    KindredLinked(s, t);
    KindredClosed(s, t);
    MarkInvIntro(t, {s.gray[0]});
  }

  lemma PoppedKindred(s: State)
    requires s.gray != [] && s.heap.Keys == s.marks.Keys && s.gray[0] in s.heap
    requires MarksOK(s) && NoDead(s) && !IsWhite(s.marks[s.gray[0]])
    ensures Kindred(s, Popped(s)) && MarksOK(Popped(s)) && NoDead(Popped(s))
  {
    hide Cleaned;
  }

  lemma PoppedKeepsColors(s: State)
    requires TriColorInv(s, {}) && s.gray != [] && s.heap.Keys == s.marks.Keys && s.gray[0] in s.heap
    ensures TriColorInv(Popped(s), {s.gray[0]})
  {
    var t := Popped(s);
    forall x | NonWhite(s, x) ensures NonWhite(t, x) {}
    PoppedKeepsWorkLists(s);
    hide WorkLists;
    assert TriColor(t, {s.gray[0]});
  }

  lemma PoppedKeepsWorkLists(s: State)
    requires WorkLists(s) && s.gray != [] && s.heap.Keys == s.marks.Keys && s.gray[0] in s.heap
    ensures WorkLists(Popped(s))
  {
    var r, l, t := s.gray[0], s.gray + s.grayagain, Popped(s);
    assert l[0] == r && r in l;
    if s.heap[r].Thread? {
      assert t.marks == s.marks;
      PermNoDup(s.gray, s.grayagain);
      assert s.gray == [r] + s.gray[1..];
      assert forall x :: x in t.gray + t.grayagain <==> x in l;
    } else {
      assert t.gray + t.grayagain == l[1..];
      assert l == [r] + l[1..];
      assert forall i :: 0 < i < |l| ==> l[0] != l[i];
    }
  }

  lemma PermNoDup(a: seq<Ref>, b: seq<Ref>)
    requires a != [] && NoDup(a + b)
    ensures NoDup(a[1..] + ([a[0]] + b))
  {
    var l, m := a + b, a[1..] + ([a[0]] + b);
    forall i, j | 0 <= i < j < |m| ensures m[i] != m[j] {
      var i', j' := if i < |a| - 1 then i + 1 else if i == |a| - 1 then 0 else i,
                    if j < |a| - 1 then j + 1 else if j == |a| - 1 then 0 else j;
      assert m[i] == l[i'] && m[j] == l[j'];
    }
  }

  lemma CloseOpen(s: State, r: Ref)
    requires MarkInv(s, {r})
    requires r in s.heap && forall x :: x in Refs(s.heap[r]) ==> NonWhite(s, x)
    ensures MarkInv(s, {})
  {
    assert TriColor(s, {});
  }

  lemma OpenedKeepsInv(s: State)
    requires MarkInv(s, {}) && s.gray != []
    ensures forall x :: x in s.gray ==> x in s.heap
    ensures MarkInv(Opened(s), {s.gray[0]})
    ensures Opened(s).heap[s.gray[0]] == Cleaned(s.heap[s.gray[0]])
    ensures PropagateMark(s) == MarkAll(Opened(s), Kids(s.heap[s.gray[0]]))
  {
    hide *;
    MarkInvFacts(s, {});
    assert forall x :: x in s.gray ==> x in s.gray + s.grayagain;
    OpenedUnfold(s);
    PoppedKeepsInv(s);
    CleanKeepsInv(Popped(s), s.gray[0], {s.gray[0]});
  }

  lemma OpenedUnfold(s: State)
    requires s.heap.Keys == s.marks.Keys
    requires s.gray != [] && forall x :: x in s.gray ==> x in s.heap
    ensures PropagateMark(s) == MarkAll(Opened(s), Kids(s.heap[s.gray[0]]))
    ensures Opened(s) == Popped(s).(heap := Popped(s).heap[s.gray[0] := Cleaned(Popped(s).heap[s.gray[0]])])
    ensures Popped(s).heap == s.heap && s.gray[0] in Popped(s).heap
    ensures Opened(s).heap[s.gray[0]] == Cleaned(s.heap[s.gray[0]])
  {}

  lemma OpenedKeepsNonWhite(s: State)
    requires s.gray != [] && s.gray[0] in s.heap && s.heap.Keys == s.marks.Keys
    ensures forall x :: NonWhite(s, x) ==> NonWhite(Opened(s), x)
  {}

  lemma MarkInvFacts(s: State, open: set<Ref>)
    requires MarkInv(s, open)
    ensures s.heap.Keys == s.marks.Keys && MarksOK(s)
    ensures forall r, x :: r in s.heap && x in Refs(s.heap[r]) ==> x in s.heap
    ensures forall x :: x in Roots(s) ==> x in s.heap
    ensures forall x :: x in s.gray + s.grayagain ==> x in s.heap
  {
    forall r, x | r in s.heap && x in Refs(s.heap[r]) ensures x in s.heap {
      assert Live(s, r);
      assert Live(s, x);
    }
    forall x | x in Roots(s) ensures x in s.heap { assert Live(s, x); }
  }

  lemma PropagateMarkForm(s: State)
    requires s.heap.Keys == s.marks.Keys && s.gray != [] && forall x :: x in s.gray ==> x in s.heap
    ensures var r, t := s.gray[0], PropagateMark(s);
      && t.heap == s.heap[r := Cleaned(s.heap[r])]
      && t.grayagain == if s.heap[r].Thread? then [r] + s.grayagain else s.grayagain
  {
    assert PropagateMark(s).grayagain == Popped(s).grayagain;
  }

  lemma PropagateMarkReads(s: State)
    requires s.heap.Keys == s.marks.Keys && s.gray != [] && forall x :: x in s.gray ==> x in s.heap
    ensures SameReads(s, PropagateMark(s))
  {
    hide PropagateMark, Cleaned;
    PropagateMarkForm(s);
    CleanedReads(s.heap[s.gray[0]]);
  }

  /** propagatemark keeps the invariant; the object it traverses ends with no
      white references, nothing already marked loses its mark, and every object
      reads as before. */
  lemma PropagateMarkKeeps(s: State)
    requires MarkInv(s, {}) && s.gray != []
    ensures s.heap.Keys == s.marks.Keys && forall x :: x in s.gray ==> x in s.heap
    ensures MarkInv(PropagateMark(s), {})
    ensures forall x :: x in Refs(PropagateMark(s).heap[s.gray[0]]) ==> NonWhite(PropagateMark(s), x)
    ensures forall x :: NonWhite(s, x) ==> NonWhite(PropagateMark(s), x)
    ensures SameReads(s, PropagateMark(s))
  {
    hide *;
    var r := s.gray[0];
    MarkInvFacts(s, {});
    OpenedKeepsInv(s);
    PropagateMarkReads(s);
    var q, t := Opened(s), PropagateMark(s);
    MarkInvFacts(q, {r});
    OpenedKeepsNonWhite(s);
    CleanedRefs(s.heap[r]);
    MarkAllMarks(q, Kids(s.heap[r]));
    MarkedKeepsMarkInv(q, t, {r});
    MarkedKeepsNonWhite(q, t);
    MarkedFrame(q, t);
    assert forall x :: x in Refs(t.heap[r]) ==> NonWhite(t, x);
    CloseOpen(t, r);
  }

  // ---------------------------------------------------------------------
  // What marking reads

  /** `u` differs from `s` only in what marking does not look at. */
  ghost predicate Congruent(s: State, u: State) {
    && s.heap.Keys == s.marks.Keys == u.heap.Keys
    && u.marks == s.marks && u.gray == s.gray
    && forall x :: x in s.marks && IsWhite(s.marks[x]) ==> u.heap[x] == s.heap[x]
  }

  lemma {:induction false} MarkObjectCongruent(s: State, u: State, r: Ref)
    requires Congruent(s, u)
    ensures Congruent(MarkObject(s, r), MarkObject(u, r))
    decreases Whites(s), 1
  {
    if r in s.marks && IsWhite(s.marks[r]) {
      match s.heap[r]
      case Udata(mt, env) => UdataCongruent(s, u, r);
      case UpVal(v) => UpValCongruent(s, u, r);
      case _ =>
    }
  }

  lemma DarkenCongruent(s: State, u: State, r: Ref, m: Mark)
    requires Congruent(s, u) && r in s.heap && IsWhite(s.marks[r]) && !IsWhite(m)
    ensures Congruent(SetMark(s, r, m), SetMark(u, r, m)) && Whites(SetMark(s, r, m)) < Whites(s)
  {
    assert r in Whites(s) && r !in Whites(SetMark(s, r, m)) && Whites(SetMark(s, r, m)) <= Whites(s);
  }

  lemma UdataForm(s: State, r: Ref)
    requires s.heap.Keys == s.marks.Keys && r in s.heap && IsWhite(s.marks[r]) && s.heap[r].Udata?
    ensures var mt, env, s2 := s.heap[r].metatable, s.heap[r].env, SetMark(s, r, Gray2Black(White2Gray(s.marks[r])));
      MarkObject(s, r) == MarkObject(if mt.Some? then MarkObject(s2, mt.value) else s2, env)
  {
    assert MarkObject(s, r) == ReallyMark(s, r);
  }

  lemma {:induction false} UdataCongruent(s: State, u: State, r: Ref)
    requires Congruent(s, u) && r in s.heap && IsWhite(s.marks[r]) && s.heap[r].Udata?
    ensures Congruent(MarkObject(s, r), MarkObject(u, r))
    decreases Whites(s), 0
  {
    var mt, env := s.heap[r].metatable, s.heap[r].env;
    var m := Gray2Black(White2Gray(s.marks[r]));
    var s2, u2 := SetMark(s, r, m), SetMark(u, r, m);
    DarkenCongruent(s, u, r, m);
    var s3 := if mt.Some? then MarkObject(s2, mt.value) else s2;
    var u3 := if mt.Some? then MarkObject(u2, mt.value) else u2;
    UdataForm(s, r);
    UdataForm(u, r);
    assert Whites(s3) <= Whites(s2);
    hide *;
    if mt.Some? { MarkObjectCongruent(s2, u2, mt.value); }
    MarkObjectCongruent(s3, u3, env);
  }

  lemma {:induction false} UpValCongruent(s: State, u: State, r: Ref)
    requires Congruent(s, u) && r in s.heap && IsWhite(s.marks[r]) && s.heap[r].UpVal?
    ensures Congruent(MarkObject(s, r), MarkObject(u, r))
    decreases Whites(s), 0
  {
    var v, m := s.heap[r].v, White2Gray(s.marks[r]);
    var s1, u1 := SetMark(s, r, m), SetMark(u, r, m);
    DarkenCongruent(s, u, r, m);
    if v.Obj? { MarkObjectCongruent(s1, u1, v.r); }
    var s2 := if v.Obj? then MarkObject(s1, v.r) else s1;
    var u2 := if v.Obj? then MarkObject(u1, v.r) else u1;
    assert MarkObject(s, r) == SetMark(s2, r, Gray2Black(s2.marks[r]));
    assert MarkObject(u, r) == SetMark(u2, r, Gray2Black(u2.marks[r]));
  }

  lemma {:induction false} MarkAllCongruent(s: State, u: State, l: seq<Ref>)
    requires Congruent(s, u)
    ensures Congruent(MarkAll(s, l), MarkAll(u, l))
    ensures MarkAll(u, l) == u.(marks := MarkAll(s, l).marks, gray := MarkAll(s, l).gray)
    decreases |l|
  {
    if l != [] {
      MarkObjectCongruent(s, u, l[0]);
      MarkAllCongruent(MarkObject(s, l[0]), MarkObject(u, l[0]), l[1..]);
    }
  }
}
