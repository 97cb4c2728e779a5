/** lgc.c as it runs: the collector's fields updated in place, each method tied
    to the step of the state machine that it performs. */
module CollectorMachine {
  import opened Options
  import opened Collector
  import opened CollectorInvariant
  import opened CollectorSafety
  import opened CollectorMutator
  import opened CollectorFull

  // ---------------------------------------------------------------------
  // Lists of references, piece by piece

  lemma {:induction false} MarkAllAppend(s: State, a: seq<Ref>, b: seq<Ref>)
    requires s.heap.Keys == s.marks.Keys
    ensures MarkAll(s, a + b) == MarkAll(MarkAll(s, a), b)
    decreases |a|
  {
    if a == [] {
      assert a + b == b;
    } else {
      assert (a + b)[1..] == a[1..] + b;
      MarkAllAppend(MarkObject(s, a[0]), a[1..], b);
    }
  }

  lemma {:induction false} ValsRefsSnoc(vs: seq<Value>, v: Value)
    ensures ValsRefs(vs + [v]) == ValsRefs(vs) + ValRefs(v)
  {
    if vs == [] {
      assert vs + [v] == [v] && [v][1..] == [];
    } else {
      ValsRefsSnoc(vs[1..], v);
      assert (vs + [v])[1..] == vs[1..] + [v];
    }
  }

  lemma {:induction false} OptsRefsSnoc(os: seq<Option<Ref>>, o: Option<Ref>)
    ensures OptsRefs(os + [o]) == OptsRefs(os) + OptRefs(o)
  {
    if os == [] {
      assert os + [o] == [o] && [o][1..] == [];
    } else {
      OptsRefsSnoc(os[1..], o);
      assert (os + [o])[1..] == os[1..] + [o];
    }
  }

  lemma {:induction false} ValsRefsDownCons(v: Value, vs: seq<Value>)
    ensures ValsRefsDown([v] + vs) == ValsRefsDown(vs) + ValRefs(v)
  {
    hide ValRefs;
    var l := [v] + vs;
    if vs == [] {
      assert l == [v] && l[..0] == [];
    } else {
      var last, init := vs[|vs| - 1], vs[..|vs| - 1];
      assert l[..|l| - 1] == [v] + init && l[|l| - 1] == last;
      ValsRefsDownCons(v, init);
      assert ValRefs(last) + (ValsRefsDown(init) + ValRefs(v)) == (ValRefs(last) + ValsRefsDown(init)) + ValRefs(v);
    }
  }

  lemma {:induction false} NodesKidsDownCons(n: Node, ns: seq<Node>)
    ensures NodesKidsDown([n] + ns) == NodesKidsDown(ns) + NodeKids(n)
  {
    var l := [n] + ns;
    if ns == [] {
      assert l == [n] && l[..0] == [];
    } else {
      var last, init := ns[|ns| - 1], ns[..|ns| - 1];
      assert l[..|l| - 1] == [n] + init && l[|l| - 1] == last;
      NodesKidsDownCons(n, init);
      assert NodeKids(last) + (NodesKidsDown(init) + NodeKids(n)) == (NodeKids(last) + NodesKidsDown(init)) + NodeKids(n);
    }
  }

  lemma MarkOne(s: State, r: Ref)
    requires s.heap.Keys == s.marks.Keys
    ensures MarkAll(s, [r]) == MarkObject(s, r)
  {
    assert [r][1..] == [];
  }

  /** Marking goes on in a heap that differs from the modelled one only in an
      object already marked. */
  lemma Extend(base: State, done: seq<Ref>, u: State, more: seq<Ref>)
    requires base.heap.Keys == base.marks.Keys && Congruent(MarkAll(base, done), u)
    ensures Congruent(MarkAll(base, done + more), MarkAll(u, more))
    ensures MarkAll(u, more) == u.(marks := MarkAll(u, more).marks, gray := MarkAll(u, more).gray)
  {
    MarkAllAppend(base, done, more);
    MarkAllCongruent(MarkAll(base, done), u, more);
  }

  // ---------------------------------------------------------------------

  class GlobalState {
    var heap: map<Ref, GCObject>
    var marks: map<Ref, Mark>
    var white1: bool
    var gcstate: Phase
    var strt: seq<seq<Ref>>
    var sweepstrgc: nat
    var rootgc: seq<Ref>
    var sweepgc: nat
    var gray: seq<Ref>
    var grayagain: seq<Ref>
    var mainthread: Ref
    var registry: Value
    var mt: seq<Option<Ref>>
    var cur: Ref

    ghost function Abs(): State
      reads this
    {
      State(heap, marks, white1, gcstate, strt, sweepstrgc, rootgc, sweepgc, gray, grayagain, mainthread, registry,
            mt, cur)
    }

    /** lua_newstate. */
    constructor (main: Ref, buckets: nat, tags: nat)
      requires buckets > 0
      ensures Abs() == NewState(main, buckets, tags)
    {
      heap, marks := map[main := Thread(Nil, [], 0)], map[main := NewMark(false).(fixed := true)];
      white1, gcstate := false, Pause;
      strt, sweepstrgc := seq(buckets, i => []), 0;
      rootgc, sweepgc := [main], 0;
      gray, grayagain := [], [];
      mainthread, registry, mt, cur := main, Nil, seq(tags, i => None), main;
    }

    method ReallyMarkObject(o: Ref)
      requires heap.Keys == marks.Keys && o in heap && IsWhite(marks[o])
      modifies this
      ensures Abs() == ReallyMark(old(Abs()), o)
      decreases Whites(Abs()), 0
    {
      ghost var s := Abs();
      assert o in Whites(s);
      marks := marks[o := White2Gray(marks[o])];
      assert o !in Whites(Abs()) && Whites(Abs()) <= Whites(s);
      match heap[o]
      case TString => return;
      case Udata(metatable, env) =>
        marks := marks[o := Gray2Black(marks[o])];
        assert marks == s.marks[o := Gray2Black(White2Gray(s.marks[o]))];
        assert o !in Whites(Abs()) && Whites(Abs()) <= Whites(s);
        if metatable.Some? { MarkObj(metatable.value); }
        MarkObj(env);
      case UpVal(v) =>
        ghost var s1 := Abs();
        MarkValue(v);
        if v.Obj? { MarkOne(s1, v.r); }
        marks := marks[o := Gray2Black(marks[o])];
      case _ =>
        gray := [o] + gray;
    }

    method MarkObj(o: Ref)
      requires heap.Keys == marks.Keys
      modifies this
      ensures Abs() == MarkObject(old(Abs()), o)
      decreases Whites(Abs()), 1
    {
      if o in marks && IsWhite(marks[o]) { ReallyMarkObject(o); }
    }

    method MarkValue(v: Value)
      requires heap.Keys == marks.Keys
      modifies this
      ensures Abs() == MarkAll(old(Abs()), ValRefs(v))
      ensures Abs() == old(Abs()).(marks := marks, gray := gray) && marks.Keys == old(marks.Keys)
      decreases Whites(Abs()), 2
    {
      ghost var s := Abs();
      if v.Obj? {
        MarkObj(v.r);
        MarkOne(s, v.r);
      }
    }

    /** stringmark: the bits are cleared without looking at the kind. */
    method StringMark(o: Option<Ref>)
      requires heap.Keys == marks.Keys
      requires o.Some? ==> o.value in heap && heap[o.value].TString?
      modifies this
      ensures Abs() == MarkAll(old(Abs()), OptRefs(o))
      ensures Abs() == old(Abs()).(marks := marks, gray := gray) && marks.Keys == old(marks.Keys)
    {
      if o.Some? {
        ghost var s := Abs();
        marks := marks[o.value := White2Gray(marks[o.value])];
        assert !IsWhite(s.marks[o.value]) ==> marks == s.marks;
        assert OptRefs(o) == [o.value];
        MarkOne(s, o.value);
      }
    }
  
    method MarkOpt(o: Option<Ref>)
      requires heap.Keys == marks.Keys
      modifies this
      ensures Abs() == MarkAll(old(Abs()), OptRefs(o))
      ensures Abs() == old(Abs()).(marks := marks, gray := gray) && marks.Keys == old(marks.Keys)
    {
      ghost var s := Abs();
      if o.Some? {
        MarkObj(o.value);
        MarkOne(s, o.value);
      }
    }

    method MarkValues(vs: seq<Value>)
      requires heap.Keys == marks.Keys
      modifies this
      ensures Abs() == MarkAll(old(Abs()), ValsRefs(vs))
      ensures Abs() == old(Abs()).(marks := marks, gray := gray) && marks.Keys == old(marks.Keys)
    {
      ghost var s := Abs();
      var i := 0;
      while i < |vs|
        invariant i <= |vs| && Abs() == MarkAll(s, ValsRefs(vs[..i]))
      {
        MarkValue(vs[i]);
        assert vs[..i + 1] == vs[..i] + [vs[i]];
        ValsRefsSnoc(vs[..i], vs[i]);
        MarkAllAppend(s, ValsRefs(vs[..i]), ValRefs(vs[i]));
        i := i + 1;
      }
      assert vs[..i] == vs;
    }

    method MarkOpts(os: seq<Option<Ref>>)
      requires heap.Keys == marks.Keys
      modifies this
      ensures Abs() == MarkAll(old(Abs()), OptsRefs(os))
      ensures Abs() == old(Abs()).(marks := marks, gray := gray) && marks.Keys == old(marks.Keys)
    {
      ghost var s := Abs();
      var i := 0;
      while i < |os|
        invariant i <= |os| && Abs() == MarkAll(s, OptsRefs(os[..i]))
      {
        MarkOpt(os[i]);
        assert os[..i + 1] == os[..i] + [os[i]];
        OptsRefsSnoc(os[..i], os[i]);
        MarkAllAppend(s, OptsRefs(os[..i]), OptRefs(os[i]));
        i := i + 1;
      }
      assert os[..i] == os;
    }

    method StringMarks(os: seq<Option<Ref>>)
      requires heap.Keys == marks.Keys && StringNames(heap, os)
      modifies this
      ensures Abs() == MarkAll(old(Abs()), OptsRefs(os))
      ensures Abs() == old(Abs()).(marks := marks, gray := gray) && marks.Keys == old(marks.Keys)
    {
      ghost var s := Abs();
      var i := 0;
      while i < |os|
        invariant i <= |os| && Abs() == MarkAll(s, OptsRefs(os[..i]))
      {
        StringMark(os[i]);
        assert os[..i + 1] == os[..i] + [os[i]];
        OptsRefsSnoc(os[..i], os[i]);
        MarkAllAppend(s, OptsRefs(os[..i]), OptRefs(os[i]));
        i := i + 1;
      }
      assert os[..i] == os;
    }

    method TraverseArray(mt: Option<Ref>, arr: seq<Value>)
      requires heap.Keys == marks.Keys
      modifies this
      ensures Abs() == MarkAll(old(Abs()), OptRefs(mt) + ValsRefsDown(arr))
      ensures Abs() == old(Abs()).(marks := marks, gray := gray) && marks.Keys == old(marks.Keys)
    {
      hide MarkAll, Advances, Whites, ValRefs, OptRefs;
      ghost var s := Abs();
      MarkOpt(mt);
      var i := |arr|;
      assert OptRefs(mt) + ValsRefsDown(arr[i..]) == OptRefs(mt);
      while i > 0
        invariant 0 <= i <= |arr| && Abs() == MarkAll(s, OptRefs(mt) + ValsRefsDown(arr[i..]))
        invariant Abs() == s.(marks := marks, gray := gray) && marks.Keys == s.marks.Keys
      {
        i := i - 1;
        MarkValue(arr[i]);
        ghost var done := OptRefs(mt) + ValsRefsDown(arr[i + 1..]);
        assert arr[i..] == [arr[i]] + arr[i + 1..];
        ValsRefsDownCons(arr[i], arr[i + 1..]);
        MarkAllAppend(s, done, ValRefs(arr[i]));
        assert OptRefs(mt) + ValsRefsDown(arr[i..]) == done + ValRefs(arr[i]);
      }
      assert arr[0..] == arr;
    }

    /** The node loop of traversetable, which also removes dead entries; `done`
        is what has been marked since `s`. */
    method TraverseNodes(h: Ref, o: GCObject, ghost s: State, ghost done: seq<Ref>)
      requires s.heap.Keys == s.marks.Keys && h in s.heap && o == s.heap[h] && o.Table? && !IsWhite(s.marks[h])
      requires Abs() == MarkAll(s, done) && Abs() == s.(marks := marks, gray := gray) && heap.Keys == marks.Keys
      modifies this
      ensures heap == s.heap[h := Cleaned(o)] && Abs() == s.(heap := heap, marks := marks, gray := gray)
      ensures Congruent(MarkAll(s, done + NodesKidsDown(o.node)), Abs())
    {
      NodesDone(s, done, o, Abs());
      hide *;
      var i := |o.node|;
      while i > 0
        invariant 0 <= i <= |o.node| && heap.Keys == marks.Keys
        invariant heap == s.heap[h := PartlyClean(o, i)]
        invariant Congruent(MarkAll(s, done + NodesKidsDown(o.node[i..])), Abs())
        invariant Abs() == s.(heap := heap, marks := marks, gray := gray)
      {
        i := i - 1;
        TraverseEntry(h, o, i, s, done + NodesKidsDown(o.node[i + 1..]));
        NodesStep(done, o, i);
      }
      NodesAll(o);
    }

    method TraverseEntry(h: Ref, o: GCObject, i: nat, ghost s: State, ghost done: seq<Ref>)
      requires s.heap.Keys == s.marks.Keys && h in s.heap && o.Table? && !IsWhite(s.marks[h]) && i < |o.node|
      requires Congruent(MarkAll(s, done), Abs()) && heap == s.heap[h := PartlyClean(o, i + 1)]
      requires heap.Keys == marks.Keys
      modifies this
      ensures Congruent(MarkAll(s, done + NodeKids(o.node[i])), Abs()) && heap == s.heap[h := PartlyClean(o, i)]
      ensures Abs() == old(Abs()).(heap := heap, marks := marks, gray := gray) && heap.Keys == marks.Keys
    {
      var n := o.node[i];
      if !n.val.Nil? { PartlyStep(o, i); }
      if n.val.Nil? {
        RemoveEntry(h, o, i, s, done);
        assert done + NodeKids(n) == done;
      } else {
        MarkEntry(n, s, done);
      }
    }

    method MarkEntry(n: Node, ghost s: State, ghost done: seq<Ref>)
      requires s.heap.Keys == s.marks.Keys && Congruent(MarkAll(s, done), Abs()) && !n.val.Nil?
      modifies this
      ensures Congruent(MarkAll(s, done + NodeKids(n)), Abs())
      ensures Abs() == old(Abs()).(marks := marks, gray := gray)
    {
      ghost var u := Abs();
      if n.key.LiveKey? { MarkValue(n.key.v); }
      Extend(s, done, u, KeyRefs(n.key));
      ghost var u1 := Abs();
      MarkValue(n.val);
      Extend(s, done + KeyRefs(n.key), u1, ValRefs(n.val));
      assert done + NodeKids(n) == done + KeyRefs(n.key) + ValRefs(n.val);
    }

    /** removeentry. */
    method RemoveEntry(h: Ref, o: GCObject, i: nat, ghost s: State, ghost done: seq<Ref>)
      requires s.heap.Keys == s.marks.Keys && h in s.heap && o.Table? && !IsWhite(s.marks[h])
      requires i < |o.node| && Congruent(MarkAll(s, done), Abs())
      modifies this`heap
      ensures heap == old(heap)[h := PartlyClean(o, i)]
      ensures Congruent(MarkAll(s, done), Abs())
    {
      assert h !in Whites(MarkAll(s, done));
      heap := heap[h := Table(o.metatable, o.arr, o.node[..i] + CleanNodes(o.node[i..]))];
    }

    /** traversetable for a table without weak mode. */
    method TraverseTable(h: Ref)
      requires heap.Keys == marks.Keys && h in heap && heap[h].Table? && !IsWhite(marks[h])
      modifies this
      ensures Abs() == MarkAll(old(Abs()).(heap := old(heap)[h := Cleaned(old(heap[h]))]), Kids(old(heap[h])))
      ensures h in heap && ReadsSame(old(heap[h]), heap[h])
    {
      ghost var s := Abs();
      var o := heap[h];
      CleanedReads(o);
      TraverseArray(o.metatable, o.arr);
      TraverseNodes(h, o, s, OptRefs(o.metatable) + ValsRefsDown(o.arr));
      hide MarkAll;
      ghost var c := s.(heap := heap);
      assert Kids(o) == OptRefs(o.metatable) + ValsRefsDown(o.arr) + NodesKidsDown(o.node);
      MarkAllCongruent(s, c, Kids(o));
    }

    method ProtoHead(o: GCObject)
      requires heap.Keys == marks.Keys && o.Proto? && StringNames(heap, [o.source]) && StringNames(heap, o.names)
      modifies this
      ensures Abs() == MarkAll(old(Abs()), OptRefs(o.source) + ValsRefs(o.k) + OptsRefs(o.names))
      ensures Abs() == old(Abs()).(marks := marks, gray := gray) && marks.Keys == old(marks.Keys)
    {
      ghost var s := Abs();
      assert s.heap.Keys == s.marks.Keys;
      hide *;
      FirstName(heap, o.source);
      StringMark(o.source);
      MarkValues(o.k);
      MarkAllAppend(s, OptRefs(o.source), ValsRefs(o.k));
      StringMarks(o.names);
      MarkAllAppend(s, OptRefs(o.source) + ValsRefs(o.k), OptsRefs(o.names));
    }

    method TraverseProto(f: Ref)
      requires heap.Keys == marks.Keys && f in heap && heap[f].Proto?
      requires Typed(Abs(), heap[f]) && forall x :: x in Kids(heap[f]) ==> x in heap
      modifies this
      ensures Abs() == MarkAll(old(Abs()), Kids(old(heap[f])))
    {
      ghost var s := Abs();
      var o := heap[f];
      ProtoNames(s, o);
      ghost var head := OptRefs(o.source) + ValsRefs(o.k) + OptsRefs(o.names);
      assert s.heap.Keys == s.marks.Keys && s.heap == heap;
      assert Kids(o) == head + OptsRefs(o.protos) + OptsRefs(o.locvars);
      hide *;
      ProtoHead(o);
      MarkOpts(o.protos);
      MarkAllAppend(s, head, OptsRefs(o.protos));
      StringMarks(o.locvars);
      MarkAllAppend(s, head + OptsRefs(o.protos), OptsRefs(o.locvars));
    }

    method MarkRefs(rs: seq<Ref>)
      requires heap.Keys == marks.Keys
      modifies this
      ensures Abs() == MarkAll(old(Abs()), rs)
      ensures Abs() == old(Abs()).(marks := marks, gray := gray) && marks.Keys == old(marks.Keys)
    {
      ghost var s := Abs();
      var i := 0;
      while i < |rs|
        invariant i <= |rs| && Abs() == MarkAll(s, rs[..i])
      {
        ghost var u := Abs();
        MarkObj(rs[i]);
        MarkOne(u, rs[i]);
        MarkAllAppend(s, rs[..i], [rs[i]]);
        assert rs[..i + 1] == rs[..i] + [rs[i]];
        i := i + 1;
      }
      assert rs[..i] == rs;
    }

    method TraverseClosure(c: Ref)
      requires heap.Keys == marks.Keys && c in heap && (heap[c].CClosure? || heap[c].LClosure?)
      modifies this
      ensures Abs() == MarkAll(old(Abs()), Kids(old(heap[c])))
    {
      ghost var s := Abs();
      var o := heap[c];
      hide MarkAll, Advances, Whites;
      match o
      case CClosure(env, ups) =>
        MarkRefs([env]);
        MarkValues(ups);
        MarkAllAppend(s, [env], ValsRefs(ups));
      case LClosure(env, p, ups) =>
        MarkRefs([env]);
        MarkRefs([p]);
        MarkAllAppend(s, [env], [p]);
        MarkRefs(ups);
        MarkAllAppend(s, [env] + [p], ups);
    }

    /** setnilvalue on the part of the stack above the top. */
    method ClearAbove(o: GCObject) returns (stack: seq<Value>)
      requires o.Thread?
      ensures stack == NilFrom(o.stack, Top(o))
    {
      var i := Top(o);
      stack := o.stack;
      while i < |stack|
        invariant Top(o) <= i <= |stack| == |o.stack| && stack[..Top(o)] == o.stack[..Top(o)]
        invariant forall k :: Top(o) <= k < i ==> stack[k] == Nil
      {
        stack := stack[i := Nil];
        i := i + 1;
      }
      var n := NilFrom(o.stack, Top(o));
      assert stack == stack[..Top(o)] + stack[Top(o)..] && n == n[..Top(o)] + n[Top(o)..];
      assert stack == n;
    }

    method TraverseStack(t: Ref)
      requires heap.Keys == marks.Keys && t in heap && heap[t].Thread? && !IsWhite(marks[t])
      modifies this
      ensures Abs() == MarkAll(old(Abs()).(heap := old(heap)[t := Cleaned(old(heap[t]))]), Kids(old(heap[t])))
      ensures t in heap && ReadsSame(old(heap[t]), heap[t])
    {
      CleanedReads(heap[t]);
      ghost var s := Abs();
      var o := heap[t];
      hide MarkAll, Advances, Whites, Kids;
      StackKids(o);
      MarkValue(o.gt);
      MarkValues(o.stack[..Top(o)]);
      MarkAllAppend(s, ValRefs(o.gt), ValsRefs(o.stack[..Top(o)]));
      var stack := ClearAbove(o);
      heap := heap[t := Thread(o.gt, stack, o.top)];
      MarkAllCongruent(s, s.(heap := heap), Kids(o));
    }

    /** The object taken from the gray list is black, or gray again. */
    ghost predicate Taken(s: State)
      reads this
    {
      && s.heap.Keys == s.marks.Keys && s.gray != [] && s.gray[0] in s.heap && !IsWhite(s.marks[s.gray[0]])
      && Abs() == Popped(s)
    }

    method TakeGray()
      requires heap.Keys == marks.Keys && gray != [] && gray[0] in heap && !IsWhite(marks[gray[0]])
      modifies this
      ensures Taken(old(Abs())) && heap == old(heap) && heap.Keys == marks.Keys
    {
      var o := gray[0];
      ghost var s := Abs();
      gray := gray[1..];
      marks := marks[o := Gray2Black(marks[o])];
      if heap[o].Thread? {
        grayagain := [o] + grayagain;
        marks := marks[o := Black2Gray(marks[o])];
        assert marks == s.marks[o := Black2Gray(Gray2Black(s.marks[o]))];
      }
    }

    method Traverse(o: Ref, ghost s: State)
      requires Taken(s) && o == s.gray[0] && IsContainer(heap[o]) && heap.Keys == marks.Keys
      requires Typed(Abs(), heap[o]) && forall x :: x in Kids(heap[o]) ==> x in heap
      modifies this
      ensures Abs() == MarkAll(Opened(s), Kids(s.heap[o]))
    {
      CleanedIsSame(heap[o]);
      assert Opened(s) == Popped(s).(heap := s.heap[o := Cleaned(s.heap[o])]);
      assert heap[o := heap[o]] == heap;
      hide MarkAll, Typed, Cleaned, Kids;
      match heap[o]
      case Table(_, _, _) => TraverseTable(o);
      case CClosure(_, _) => TraverseClosure(o);
      case LClosure(_, _, _) => TraverseClosure(o);
      case Thread(_, _, _) => TraverseStack(o);
      case Proto(_, _, _, _, _) => TraverseProto(o);
      case _ => assert false;
    }

    /** propagatemark: traverse one gray object, turning it black. */
    method PropagateMarkStep()
      requires MarkInv(Abs(), {}) && gray != []
      modifies this
      ensures PropagateMark.requires(old(Abs())) && Abs() == PropagateMark(old(Abs()))
      ensures SameReads(old(Abs()), Abs())
    {
      ghost var s := Abs();
      PropagateMarkKeeps(s);
      GrayHead(s);
      OpenedUnfold(s);
      var o := gray[0];
      TypedHeap(s, Popped(s), heap[o]);
      hide MarkInv, PropagateMark, MarkAll, Opened, Typed;
      TakeGray();
      Traverse(o, s);
    }

    method PropagateEverything()
      requires MarkInv(Abs(), {})
      modifies this
      ensures Abs() == Propagated(old(Abs()))
    {
      hide *;
      ghost var s := Abs();
      ghost var c := s;
      assert gray == c.gray by { GrayIs(); }
      while gray != []
        invariant Abs() == c && c.gray == gray && MarkInv(c, {}) && Propagated(c) == Propagated(s)
        decreases Whites(c), |c.gray|
      {
        PropagateStepFacts(c);
        PropagateMarkStep();
        c := Abs();
        assert gray == c.gray by { GrayIs(); }
      }
      PropagatedDone(c);
    }

    lemma GrayIs()
      ensures Abs().gray == gray
    {}

    method MarkRoots()
      requires heap.Keys == marks.Keys && mainthread in heap && heap[mainthread].Thread?
      modifies this
      ensures Abs() == MarkRoot(old(Abs()))
    {
      hide MarkAll, Advances, Whites;
      gray, grayagain := [], [];
      ghost var s0 := Abs();
      var m := heap[mainthread];
      MarkRefs([mainthread]);
      MarkValue(m.gt);
      MarkAllAppend(s0, [mainthread], ValRefs(m.gt));
      MarkValue(registry);
      MarkAllAppend(s0, [mainthread] + ValRefs(m.gt), ValRefs(registry));
      MarkOpts(mt);
      MarkAllAppend(s0, [mainthread] + ValRefs(m.gt) + ValRefs(registry), OptsRefs(mt));
      ghost var l := [mainthread] + ValRefs(m.gt) + ValRefs(registry) + OptsRefs(mt);
      assert Abs() == MarkAll(s0, l);
      gcstate := Propagate;
      assert l == MarkRootList(Abs());
    }

    method MarkThreadAndTypes()
      requires Abs().heap.Keys == Abs().marks.Keys
      modifies this
      ensures Abs() == MarkAll(old(Abs()), [old(Abs()).cur] + OptsRefs(old(Abs()).mt))
    {
      ghost var s := Abs();
      hide MarkAll, Advances;
      MarkRefs([cur]);
      MarkOpts(mt);
      MarkAllAppend(s, [s.cur], OptsRefs(s.mt));
    }

    method AtomicStep()
      requires MarkInv(Abs(), {}) && RootsMarked(Abs())
      modifies this
      ensures Atomic.requires(old(Abs())) && Abs() == Atomic(old(Abs()))
    {
      hide *;
      AtomicPieces(Abs());
      PropagateEverything();
      MarkThreadAndTypes();
      PropagateEverything();
      TakeGrayAgain();
      PropagateEverything();
      FlipWhite();
    }

    method TakeGrayAgain()
      modifies this`gray, this`grayagain
      ensures Abs() == old(Abs()).(gray := old(Abs()).grayagain, grayagain := [])
    {
      gray, grayagain := grayagain, [];
    }

    method FlipWhite()
      modifies this`white1, this`sweepstrgc, this`sweepgc, this`gcstate
      ensures Abs() == Flip(old(Abs()))
    {
      white1 := !white1;
      sweepstrgc, sweepgc := 0, 0;
      gcstate := SweepString;
    }

    /** sweeplist over a stretch of a list: frees the dead, whitens the rest. */
    method SweepList(l: seq<Ref>) returns (kept: seq<Ref>)
      modifies this`heap, this`marks
      ensures (Abs(), kept) == old(SweepSeq(Abs(), l))
    {
      kept := [];
      var i := 0;
      ghost var s := Abs();
      assert l[0..] == l && forall k: seq<Ref> :: [] + k == k;
      while i < |l|
        invariant i <= |l|
        invariant SweepSeq(s, l) == (SweepSeq(Abs(), l[i..]).0, kept + SweepSeq(Abs(), l[i..]).1)
      {
        var r := l[i];
        assert l[i..][0] == r && l[i..][1..] == l[i + 1..];
        if r in marks {
          if Erasable(marks[r], white1) {
            heap, marks := heap - {r}, marks - {r};
          } else {
            marks := marks[r := MakeWhite(marks[r], white1)];
            assert forall k: seq<Ref> :: kept + ([r] + k) == kept + [r] + k;
            kept := kept + [r];
          }
        }
        i := i + 1;
      }
      assert l[i..] == [] && kept + [] == kept;
    }

    /** singlestep. */
    method Step()
      requires Inv(Abs())
      modifies this
      ensures Ready(old(Abs())) && Abs() == SingleStep(old(Abs())) && Inv(Abs()) && Keeps(old(Abs()), Abs())
    {
      ghost var s := Abs();
      InvReady(s);
      SingleStepKeeps(s);
      StepPre(s);
      hide Inv, MarkInv, RootsMarked, MarkRoot, PropagateMark, Atomic, SweepStringStep, SweepStep, Keeps, SameReads;
      match gcstate
      case Pause => MarkRoots();
      case Propagate => if gray != [] { PropagateMarkStep(); } else { AtomicStep(); }
      case SweepString => SweepStringOnce();
      case Sweep => SweepOnce();
      case Finalize => gcstate := Pause;
    }

    /** luaC_fullgc. */
    method FullCollect()
      requires Inv(Abs())
      modifies this
      ensures Abs() == FullGC(old(Abs())) && Inv(Abs()) && gcstate == Pause && Keeps(old(Abs()), Abs())
      ensures forall r :: r in old(heap) ==> (r in heap <==> old(Reachable(Abs(), r)) || (r in old(marks) && old(marks[r]).fixed))
      ensures heap.Keys <= old(heap).Keys
    {
      ghost var s := Abs();
      FullGCExact(s);
      ResetKeeps(s);
      InvReady(Reset(s));
      if gcstate == Pause || gcstate == Propagate { ResetLists(); }
      assert Abs() == Reset(s);
      FinishPending();
      ghost var s1 := Abs();
      FullGCRest(s);
      MarkRoots();
      RunToPause();
    }

    method ResetLists()
      requires gcstate == Pause || gcstate == Propagate
      modifies this
      ensures Abs() == Reset(old(Abs()))
    {
      sweepstrgc, sweepgc := 0, 0;
      gray, grayagain := [], [];
      gcstate := SweepString;
    }

    method FinishPending()
      requires Inv(Abs()) && Ready(Abs())
      requires gcstate == SweepString || gcstate == Sweep || gcstate == Finalize
      modifies this
      ensures Abs() == FinishSweep(old(Abs()))
    {
      ghost var c := Abs();
      ghost var s := c;
      hide Inv, FinishSweep, Ready, SingleStep;
      while gcstate != Finalize
        invariant Abs() == c && c.gcstate == gcstate && SweepReady(c) && FinishSweep(c) == FinishSweep(s)
        decreases PhaseRank(c.gcstate), Todo(c)
      {
        FinishStep(c);
        Step();
        c := Abs();
      }
      FinishDone(c);
    }

    method RunToPause()
      requires Inv(Abs())
      modifies this
      ensures Abs() == Rest(old(Abs()))
    {
      ghost var c := Abs();
      ghost var s := c;
      hide Inv, Rest, SingleStep, Whites;
      while gcstate != Pause
        invariant Abs() == c && c.gcstate == gcstate && Inv(c) && Rest(c) == Rest(s)
        decreases Rank(c.gcstate), MarkWork(c), Todo(c)
      {
        RestStep(c);
        Step();
        c := Abs();
      }
      RestDone(c);
    }

    /** luaC_barrierf. */
    method BarrierF(o: Ref, v: Ref)
      requires heap.Keys == marks.Keys && o in heap && v in heap
      requires IsBlack(marks[o]) && IsWhite(marks[v]) && !heap[o].Table?
      modifies this
      ensures Abs() == Barrier(old(Abs()), o, Obj(v))
    {
      if gcstate == Propagate { ReallyMarkObject(v); }
      else { marks := marks[o := MakeWhite(marks[o], white1)]; }
    }

    /** luaC_barrierback. */
    method BarrierB(t: Ref)
      requires heap.Keys == marks.Keys && t in heap && IsBlack(marks[t]) && heap[t].Table?
      modifies this`marks, this`grayagain
      ensures Abs() == BarrierBack(old(Abs()), t)
    {
      marks := marks[t := Black2Gray(marks[t])];
      grayagain := [t] + grayagain;
    }

    /** A store into an object that the mutator reaches, with the barrier that
        the object's kind asks for. */
    method StoreInto(o: Ref, content: GCObject, v: Value)
      requires Inv(Abs()) && Ready(Abs()) && Enabled(Abs(), Event.Store(o, content, v))
      modifies this
      ensures Abs() == Stored(old(Abs()), o, content, v) && Inv(Abs())
    {
      hide Inv, Enabled, Ready, ReallyMark;
      StoreKeeps(Abs(), o, content, v);
      StoreFacts(Abs(), o, content, v);
      heap := heap[o := content];
      if v.Obj? && IsWhite(marks[v.r]) && IsBlack(marks[o]) {
        if content.Table? { BarrierB(o); } else { BarrierF(o, v.r); }
      }
    }

    /** A new object is linked, white, and put on the running thread's stack. */
    method Allocate(r: Ref, o: GCObject, at: nat)
      requires Inv(Abs()) && Ready(Abs()) && Enabled(Abs(), Alloc(r, o, at))
      modifies this
      ensures Abs() == Allocated(old(Abs()), r, o, at) && Inv(Abs())
    {
      hide Inv, Enabled, Ready;
      AllocKeeps(Abs(), r, o, at);
      AllocFacts(Abs(), r, o, at);
      heap := heap[r := o];
      marks := marks[r := NewMark(white1)];
      if o.TString? {
        strt := strt[at := [r] + strt[at]];
      } else {
        rootgc := rootgc[..at] + [r] + rootgc[at..];
        sweepgc := if sweepgc <= at then sweepgc else sweepgc + 1;
      }
      heap := heap[cur := Pushed(heap[cur], Obj(r))];
    }

    method SweepStringOnce()
      requires sweepstrgc < |strt| && gcstate == SweepString
      modifies this
      ensures Abs() == SweepStringStep(old(Abs()))
    {
      hide SweepSeq;
      var b := sweepstrgc;
      var kept := SweepList(strt[b]);
      strt := strt[b := kept];
      sweepstrgc := b + 1;
      if sweepstrgc >= |strt| { gcstate := Sweep; }
    }

    method SweepOnce()
      requires sweepgc <= |rootgc| && gcstate == Sweep
      modifies this
      ensures Abs() == SweepStep(old(Abs()))
    {
      hide SweepSeq;
      var hi := sweepgc + Min(GCSWEEPMAX, |rootgc| - sweepgc);
      var kept := SweepList(rootgc[sweepgc..hi]);
      rootgc := rootgc[..sweepgc] + kept + rootgc[hi..];
      sweepgc := sweepgc + |kept|;
      if sweepgc == |rootgc| { gcstate := Finalize; }
    }
  }

  /** A table whose nodes from `i` on have been cleaned. */
  function PartlyClean(o: GCObject, i: nat): GCObject
    requires o.Table? && i <= |o.node|
  {
    Table(o.metatable, o.arr, o.node[..i] + CleanNodes(o.node[i..]))
  }

  lemma PartlyStep(o: GCObject, i: nat)
    requires o.Table? && i < |o.node| && !o.node[i].val.Nil?
    ensures PartlyClean(o, i) == PartlyClean(o, i + 1)
  {
    assert o.node[..i] + CleanNodes(o.node[i..]) == o.node[..i + 1] + CleanNodes(o.node[i + 1..]);
  }

  lemma NodesDone(s: State, done: seq<Ref>, o: GCObject, u: State)
    requires s.heap.Keys == s.marks.Keys && o.Table? && u == MarkAll(s, done) && u.heap.Keys == u.marks.Keys
    ensures o.node[|o.node|..] == [] && PartlyClean(o, |o.node|) == o
    ensures Congruent(MarkAll(s, done + NodesKidsDown([])), u)
  {
    hide MarkAll, Advances;
    assert o.node[..|o.node|] + CleanNodes(o.node[|o.node|..]) == o.node;
    assert done + NodesKidsDown([]) == done;
  }

  lemma NodesStep(done: seq<Ref>, o: GCObject, i: nat)
    requires o.Table? && i < |o.node|
    ensures done + NodesKidsDown(o.node[i..]) == done + NodesKidsDown(o.node[i + 1..]) + NodeKids(o.node[i])
  {
    assert o.node[i..] == [o.node[i]] + o.node[i + 1..];
    NodesKidsDownCons(o.node[i], o.node[i + 1..]);
  }

  lemma NodesAll(o: GCObject)
    requires o.Table?
    ensures o.node[0..] == o.node && PartlyClean(o, 0) == Cleaned(o)
  {
    assert o.node[0..] == o.node && o.node[..0] + CleanNodes(o.node) == CleanNodes(o.node);
  }

  ghost function Propagated(s: State): State {
    if PropagateAll.requires(s) then PropagateAll(s) else s
  }

  lemma PropagatedDone(s: State)
    requires s.gray == []
    ensures Propagated(s) == s
  {}

  lemma PropagateStepFacts(s: State)
    requires MarkInv(s, {}) && s.gray != []
    ensures PropagateMark.requires(s)
    ensures MarkInv(PropagateMark(s), {}) && Propagated(s) == Propagated(PropagateMark(s))
    ensures Whites(PropagateMark(s)) <= Whites(s)
    ensures Whites(PropagateMark(s)) == Whites(s) ==> |PropagateMark(s).gray| < |s.gray|
  {
    hide MarkInv, PropagateAll, PropagateMark;
    PropagateAllKeeps(s);
    PropagateMarkKeeps(s);
    PropagateAllKeeps(PropagateMark(s));
    PropagateAllUnfold(s);
  }

  /** The states that atomic goes through satisfy the invariant of marking. */
  lemma AtomicPieces(s: State)
    requires MarkInv(s, {}) && RootsMarked(s)
    ensures Atomic.requires(s)
    ensures var s1 := Propagated(s);
      && s1.heap.Keys == s1.marks.Keys
      && var s2 := MarkAll(s1, [s1.cur] + OptsRefs(s1.mt));
      && MarkInv(s2, {})
      && var s3 := Propagated(s2);
      && var s4 := s3.(gray := s3.grayagain, grayagain := []);
      && MarkInv(s4, {})
      && Atomic(s) == Flip(Propagated(s4))
  {
    hide MarkInv, Scanned, PropagateAll, MarkAll, RootsMarked, Advances, Whites, SameFrame;
    MarkInvFacts(s, {});
    assert forall x :: x in s.gray ==> x in s.gray + s.grayagain;
    assert forall x :: x in s.grayagain ==> x in s.gray + s.grayagain;
    var s1 := PropagateAll(s);
    PropagateAllKeeps(s);
    MarkInvFacts(s1, {});
    var s2 := MarkAll(s1, [s1.cur] + OptsRefs(s1.mt));
    MarkAllKeeps(s1, [s1.cur] + OptsRefs(s1.mt));
    PropagateAllKeeps(s2);
    AgainKeeps(PropagateAll(s2));
    PropagateAllKeeps(PropagateAll(s2).(gray := PropagateAll(s2).grayagain, grayagain := []));
  }

  // ---------------------------------------------------------------------
  // What remains of a full collection

  ghost predicate SweepReady(s: State) {
    Inv(s) && Ready(s) && (s.gcstate == SweepString || s.gcstate == Sweep || s.gcstate == Finalize)
  }

  function Rank(p: Phase): nat {
    match p case Propagate => 4 case SweepString => 3 case Sweep => 2 case Finalize => 1 case Pause => 0
  }

  function Todo(s: State): nat {
    match s.gcstate
    case Propagate => |s.gray|
    case SweepString => if s.sweepstrgc < |s.strt| then |s.strt| - s.sweepstrgc else 0
    case Sweep => if s.sweepgc <= |s.rootgc| then |s.rootgc| - s.sweepgc else 0
    case _ => 0
  }

  ghost function MarkWork(s: State): set<Ref> { if s.gcstate == Propagate then Whites(s) else {} }

  lemma FinishStep(s: State)
    requires SweepReady(s) && s.gcstate != Finalize
    ensures SweepReady(SingleStep(s)) && FinishSweep(SingleStep(s)) == FinishSweep(s)
    ensures SingleStep(s).gcstate != Pause
    ensures PhaseRank(SingleStep(s).gcstate) < PhaseRank(s.gcstate) ||
            (PhaseRank(SingleStep(s).gcstate) == PhaseRank(s.gcstate) && Todo(SingleStep(s)) < Todo(s))
    ensures Rank(SingleStep(s).gcstate) < Rank(s.gcstate) ||
            (SingleStep(s).gcstate == s.gcstate && Todo(SingleStep(s)) < Todo(s))
  {
    hide Inv, SingleStep;
    StepKeepsInv(s);
    InvReady(SingleStep(s));
    SweepProgress(s);
  }

  lemma FinishDone(s: State)
    requires SweepReady(s) && s.gcstate == Finalize
    ensures FinishSweep(s) == s
  {}

  /** The end of the cycle that the collector is in. */
  ghost function Rest(s: State): State
    requires Inv(s)
  {
    InvReady(s);
    match s.gcstate
    case Pause => s
    case Propagate => InvReady(MarkPhase(s)); FinishSweep(MarkPhase(s)).(gcstate := Pause)
    case _ => FinishSweep(s).(gcstate := Pause)
  }

  lemma RestDone(s: State)
    requires Inv(s) && s.gcstate == Pause
    ensures Rest(s) == s
  {}

  lemma RestStep(s: State)
    requires Inv(s) && s.gcstate != Pause
    ensures Ready(s) && Inv(SingleStep(s)) && Rest(SingleStep(s)) == Rest(s)
    ensures var t := SingleStep(s);
      || Rank(t.gcstate) < Rank(s.gcstate)
      || (t.gcstate == s.gcstate && MarkWork(t) < MarkWork(s))
      || (t.gcstate == s.gcstate && MarkWork(t) == MarkWork(s) && Todo(t) < Todo(s))
  {
    InvReady(s);
    StepKeepsInv(s);
    match s.gcstate
    case Propagate => RestPropagate(s);
    case SweepString => RestSweep(s);
    case Sweep => RestSweep(s);
    case Finalize => RestFinal(s);
  }

  lemma RestFinal(s: State)
    requires Inv(s) && Ready(s) && s.gcstate == Finalize && Inv(SingleStep(s))
    ensures Rest(SingleStep(s)) == Rest(s)
  {
    FinishDone(s);
  }

  lemma RestSweep(s: State)
    requires Inv(s) && Ready(s) && (s.gcstate == SweepString || s.gcstate == Sweep) && Inv(SingleStep(s))
    ensures Rest(SingleStep(s)) == Rest(s)
    ensures Rank(SingleStep(s).gcstate) < Rank(s.gcstate) ||
            (SingleStep(s).gcstate == s.gcstate && Todo(SingleStep(s)) < Todo(s))
  {
    hide Inv, SingleStep, FinishSweep;
    FinishStep(s);
  }

  lemma RestPropagate(s: State)
    requires Inv(s) && Ready(s) && s.gcstate == Propagate && Inv(SingleStep(s))
    ensures Rest(SingleStep(s)) == Rest(s)
    ensures var t := SingleStep(s);
      || Rank(t.gcstate) < Rank(s.gcstate)
      || (t.gcstate == s.gcstate && Whites(t) < Whites(s))
      || (t.gcstate == s.gcstate && Whites(t) == Whites(s) && |t.gray| < |s.gray|)
  {
    hide *;
    PropagateUnfold(s);
    RestIs(s);
    if s.gray != [] {
      RestIs(SingleStep(s));
    } else {
      RestIs(SingleStep(s));
      assert Rank(Propagate) == 4 && Rank(SweepString) == 3 by { RankIs(); }
    }
  }

  lemma RankIs()
    ensures Rank(Propagate) == 4 && Rank(SweepString) == 3
  {}

  lemma RestIs(s: State)
    requires Inv(s)
    ensures s.gcstate == Propagate ==>
              FinishSweep.requires(MarkPhase(s)) && Rest(s) == FinishSweep(MarkPhase(s)).(gcstate := Pause)
    ensures s.gcstate == SweepString ==> FinishSweep.requires(s) && Rest(s) == FinishSweep(s).(gcstate := Pause)
  {
    hide Inv, MarkPhase, FinishSweep, Ready;
    InvReady(s);
    if s.gcstate == Propagate { InvReady(MarkPhase(s)); }
  }

  /** One step of the mark phase leaves the end of the phase where it was. */
  lemma PropagateUnfold(s: State)
    requires Inv(s) && Ready(s) && s.gcstate == Propagate
    ensures s.gray != [] ==>
      var t := SingleStep(s);
      && Inv(t) && t.gcstate == Propagate && MarkPhase(t) == MarkPhase(s) && Whites(t) <= Whites(s)
      && (Whites(t) == Whites(s) ==> |t.gray| < |s.gray|)
    ensures s.gray == [] ==>
      SingleStep(s).gcstate == SweepString && MarkPhase(s) == SingleStep(s)
  {
    InvMark(s);
    MarkPhaseIs(s);
    StepKeepsInv(s);
    assert forall x :: x in s.gray ==> x in s.gray + s.grayagain;
    assert forall x :: x in s.grayagain ==> x in s.gray + s.grayagain;
    assert SingleStep(s) == if s.gray != [] then PropagateMark(s) else Atomic(s);
    hide Inv, PropagateMark, SingleStep, MarkInv, RootsMarked, MarkPhase, PropagateAll, Atomic, Ready;
    PropagateAllUnfold(s);
    if s.gray != [] {
      PropagateStepFacts(s);
      MarkPhaseIs(PropagateMark(s));
    } else {
      AtomicKeeps(s);
    }
  }

  /** luaC_fullgc is the end of the pending sweep, markroot, and a cycle. */
  lemma FullGCRest(s: State)
    requires Inv(s)
    ensures Inv(Reset(s)) && Ready(Reset(s))
    ensures Reset(s).gcstate == SweepString || Reset(s).gcstate == Sweep || Reset(s).gcstate == Finalize
    ensures var s1 := FinishSweep(Reset(s));
      && s1.heap.Keys == s1.marks.Keys && s1.mainthread in s1.heap && s1.heap[s1.mainthread].Thread?
      && Inv(MarkRoot(s1)) && FullGC(s) == Rest(MarkRoot(s1))
  {
    ResetKeeps(s);
    InvReady(Reset(s));
    var s1 := FinishSweep(Reset(s));
    InvClean(s1);
    MarkRootKeeps(s1);
    StepPre(s1);
    InvReady(MarkPhase(MarkRoot(s1)));
  }

  lemma StoreFacts(s: State, o: Ref, content: GCObject, v: Value)
    requires Inv(s) && Ready(s) && Enabled(s, Event.Store(o, content, v))
    ensures s.heap.Keys == s.marks.Keys && o in s.heap && (v.Obj? ==> v.r in s.heap)
    ensures Stored.requires(s, o, content, v)
  {
    if v.Obj? { ReachableLive(s, v.r); }
  }

  lemma AllocFacts(s: State, r: Ref, o: GCObject, at: nat)
    requires Ready(s) && Enabled(s, Alloc(r, o, at))
    ensures Allocated.requires(s, r, o, at)
  {}

  lemma StackKids(o: GCObject)
    requires o.Thread?
    ensures Kids(o) == ValRefs(o.gt) + ValsRefs(o.stack[..Top(o)])
    ensures Cleaned(o) == Thread(o.gt, NilFrom(o.stack, Top(o)), o.top)
  {}

  lemma StepPre(s: State)
    requires Inv(s)
    ensures s.heap.Keys == s.marks.Keys && s.mainthread in s.heap && s.heap[s.mainthread].Thread?
    ensures s.gcstate == Propagate ==> MarkInv(s, {}) && RootsMarked(s)
  {}

  lemma TypedHeap(s: State, t: State, o: GCObject)
    requires Typed(s, o) && t.heap == s.heap
    ensures Typed(t, o)
  {}

  lemma GrayHead(s: State)
    requires MarkInv(s, {}) && s.gray != []
    ensures s.heap.Keys == s.marks.Keys && forall x :: x in s.gray ==> x in s.heap
    ensures !IsWhite(s.marks[s.gray[0]]) && IsContainer(s.heap[s.gray[0]]) && Typed(s, s.heap[s.gray[0]])
    ensures forall x :: x in Kids(s.heap[s.gray[0]]) ==> x in s.heap
  {
    MarkInvFacts(s, {});
    assert forall x :: x in s.gray ==> x in s.gray + s.grayagain;
    var r := s.gray[0];
    assert Live(s, r);
    CleanedRefs(s.heap[r]);
  }

  lemma CleanedIsSame(o: GCObject)
    ensures !o.Table? && !o.Thread? ==> Cleaned(o) == o
  {}

  ghost predicate StringNames(heap: map<Ref, GCObject>, os: seq<Option<Ref>>) {
    forall o :: o in os && o.Some? ==> o.value in heap && heap[o.value].TString?
  }

  lemma FirstName(heap: map<Ref, GCObject>, o: Option<Ref>)
    requires StringNames(heap, [o])
    ensures o.Some? ==> o.value in heap && heap[o.value].TString?
  {
    assert o in [o];
  }

  lemma ProtoNames(s: State, o: GCObject)
    requires o.Proto? && Typed(s, o) && forall x :: x in Kids(o) ==> x in s.heap
    ensures StringNames(s.heap, [o.source]) && StringNames(s.heap, o.names) && StringNames(s.heap, o.locvars)
  {
    forall n | n in [o.source] && n.Some? ensures n.value in s.heap { assert n.value in Kids(o); }
    forall n | n in o.names && n.Some? ensures n.value in s.heap { OptsRefsIn(o.names, n.value); assert n.value in Kids(o); }
    forall n | n in o.locvars && n.Some? ensures n.value in s.heap {
      OptsRefsIn(o.locvars, n.value);
      assert n.value in Kids(o);
    }
  }
}
