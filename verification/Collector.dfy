/** The incremental tri-colour collector of lgc.c as a state machine: the
    collector's own steps, the write barriers, and the mutator's actions. */
module Collector {
  import opened Options

  type Ref = nat

  datatype Value = Nil | Plain(n: int) | Obj(r: Ref)

  /** A hash-node key; `DeadKey` is what removeentry leaves behind. */
  datatype Key = LiveKey(v: Value) | DeadKey(was: Ref)

  datatype Node = Node(key: Key, val: Value)

  /** The collectable objects.  A thread's `stack` includes the slots from
      `top` to the highest `ci->top`, which hold stale values. */
  datatype GCObject =
    | TString
    | Udata(metatable: Option<Ref>, env: Ref)
    | UpVal(v: Value)
    | CClosure(cenv: Ref, upvalue: seq<Value>)
    | LClosure(env: Ref, p: Ref, upvals: seq<Ref>)
    | Table(metatable: Option<Ref>, arr: seq<Value>, node: seq<Node>)
    | Thread(gt: Value, stack: seq<Value>, top: nat)
    | Proto(source: Option<Ref>, k: seq<Value>, names: seq<Option<Ref>>, protos: seq<Option<Ref>>,
            locvars: seq<Option<Ref>>)

  /** The bits of `marked` that the collector uses. */
  datatype Mark = Mark(w0: bool, w1: bool, black: bool, fixed: bool)

  datatype Phase = Pause | Propagate | SweepString | Sweep | Finalize

  /** `white1` says which of the two whites is the current one.  `sweepgc` is
      the number of rootgc objects already passed by the sweep; `mt` holds the
      metatables of the basic types; `cur` is the running thread. */
  datatype State = State(
    heap: map<Ref, GCObject>,
    marks: map<Ref, Mark>,
    white1: bool,
    gcstate: Phase,
    strt: seq<seq<Ref>>,
    sweepstrgc: nat,
    rootgc: seq<Ref>,
    sweepgc: nat,
    gray: seq<Ref>,
    grayagain: seq<Ref>,
    mainthread: Ref,
    registry: Value,
    mt: seq<Option<Ref>>,
    cur: Ref)

  const GCSWEEPMAX: nat := 40

  // ---------------------------------------------------------------------
  // Mark bits

  predicate IsWhite(m: Mark) { m.w0 || m.w1 }

  predicate IsBlack(m: Mark) { m.black }

  predicate IsGray(m: Mark) { !IsBlack(m) && !IsWhite(m) }

  function White2Gray(m: Mark): Mark { m.(w0 := false, w1 := false) }

  function Gray2Black(m: Mark): Mark { m.(black := true) }

  function Black2Gray(m: Mark): Mark { m.(black := false) }

  function MakeWhite(m: Mark, white1: bool): Mark { m.(w0 := !white1, w1 := white1, black := false) }

  function ChangeWhite(m: Mark): Mark { m.(w0 := !m.w0, w1 := !m.w1) }

  function NewMark(white1: bool): Mark { Mark(!white1, white1, false, false) }

  /** isdead: the object carries the white of the previous cycle. */
  predicate IsDead(m: Mark, white1: bool) { if white1 then m.w0 else m.w1 }

  /** What sweeplist tests: currentwhite carries the FIXED bit, so that a fixed
      object never compares as dead. */
  predicate Erasable(m: Mark, white1: bool) { IsDead(m, white1) && !m.fixed }

  /** The mark of an object that the sweep has passed. */
  predicate Clean(m: Mark, white1: bool) { m.w0 == !white1 && m.w1 == white1 && !m.black }

  // ---------------------------------------------------------------------
  // References

  function ValRefs(v: Value): (l: seq<Ref>) { if v.Obj? then [v.r] else [] }

  function OptRefs(o: Option<Ref>): (l: seq<Ref>) { if o.Some? then [o.value] else [] }

  function ValsRefs(vs: seq<Value>): (l: seq<Ref>) {
    if vs == [] then [] else ValRefs(vs[0]) + ValsRefs(vs[1..])
  }

  function ValsRefsDown(vs: seq<Value>): (l: seq<Ref>) {
    if vs == [] then [] else ValRefs(vs[|vs| - 1]) + ValsRefsDown(vs[..|vs| - 1])
  }

  function OptsRefs(os: seq<Option<Ref>>): (l: seq<Ref>) {
    if os == [] then [] else OptRefs(os[0]) + OptsRefs(os[1..])
  }

  function KeyRefs(k: Key): (l: seq<Ref>) { if k.LiveKey? then ValRefs(k.v) else [] }

  function NodeKids(n: Node): (l: seq<Ref>) { if n.val.Nil? then [] else KeyRefs(n.key) + ValRefs(n.val) }

  function NodesKidsDown(ns: seq<Node>): (l: seq<Ref>) {
    if ns == [] then [] else NodeKids(ns[|ns| - 1]) + NodesKidsDown(ns[..|ns| - 1])
  }

  function NodesRefs(ns: seq<Node>): (l: seq<Ref>) {
    if ns == [] then [] else NodesRefs(ns[..|ns| - 1]) + KeyRefs(ns[|ns| - 1].key) + ValRefs(ns[|ns| - 1].val)
  }

  function Top(o: GCObject): nat
    requires o.Thread?
  {
    if o.top <= |o.stack| then o.top else |o.stack|
  }

  /** The references that marking follows, in the order in which it does. */
  function Kids(o: GCObject): (l: seq<Ref>) {
    match o
    case TString => []
    case Udata(mt, env) => OptRefs(mt) + [env]
    case UpVal(v) => ValRefs(v)
    case CClosure(env, ups) => [env] + ValsRefs(ups)
    case LClosure(env, p, ups) => [env] + [p] + ups
    case Table(mt, arr, node) => OptRefs(mt) + ValsRefsDown(arr) + NodesKidsDown(node)
    case Thread(gt, stack, top) => ValRefs(gt) + ValsRefs(stack[..Top(o)])
    case Proto(src, k, names, ps, lv) => OptRefs(src) + ValsRefs(k) + OptsRefs(names) + OptsRefs(ps) + OptsRefs(lv)
  }

  /** Every reference held, including those the mutator cannot read at the
      moment: keys of emptied nodes and stack slots above the top. */
  function Refs(o: GCObject): (l: seq<Ref>) {
    match o
    case Table(mt, arr, node) => OptRefs(mt) + ValsRefsDown(arr) + NodesRefs(node)
    case Thread(gt, stack, top) => ValRefs(gt) + ValsRefs(stack)
    case _ => Kids(o)
  }

  function CleanNode(n: Node): Node {
    if n.val.Nil? && n.key.LiveKey? && n.key.v.Obj? then Node(DeadKey(n.key.v.r), Nil) else n
  }

  function CleanNodes(ns: seq<Node>): (r: seq<Node>)
    ensures |r| == |ns|
    ensures forall i :: 0 <= i < |ns| ==> r[i] == CleanNode(ns[i])
  {
    seq(|ns|, i requires 0 <= i < |ns| => CleanNode(ns[i]))
  }

  function NilFrom(stack: seq<Value>, top: nat): (r: seq<Value>)
    requires top <= |stack|
    ensures |r| == |stack| && r[..top] == stack[..top]
    ensures forall i :: top <= i < |r| ==> r[i] == Nil
  {
    stack[..top] + seq(|stack| - top, i => Nil)
  }

  /** What a traversal does to the object itself: removeentry on the emptied
      nodes of a table, setnilvalue on the stack slots above the top. */
  function Cleaned(o: GCObject): GCObject {
    match o
    case Table(mt, arr, node) => Table(mt, arr, CleanNodes(node))
    case Thread(gt, stack, top) => Thread(gt, NilFrom(stack, Top(o)), top)
    case _ => o
  }

  predicate IsContainer(o: GCObject) { o.CClosure? || o.LClosure? || o.Table? || o.Thread? || o.Proto? }

  // ---------------------------------------------------------------------
  // Marking

  ghost function Whites(s: State): set<Ref> { set r | r in s.marks && IsWhite(s.marks[r]) }

  function SetMark(s: State, r: Ref, m: Mark): State { s.(marks := s.marks[r := m]) }

  function PushGray(s: State, r: Ref): State { s.(gray := [r] + s.gray) }

  /** What every marking function keeps: only marks and the gray list change,
      whites only disappear, and nothing changes unless a white disappears. */
  ghost predicate Advances(s: State, t: State) {
    && t == s.(marks := t.marks, gray := t.gray)
    && t.marks.Keys == s.marks.Keys
    && Whites(t) <= Whites(s)
    && (Whites(t) == Whites(s) ==> t == s)
    && ((forall x :: x in s.gray ==> x in s.heap) ==> (forall x :: x in t.gray ==> x in t.heap))
  }

  function ReallyMark(s: State, r: Ref): (t: State)
    requires s.heap.Keys == s.marks.Keys
    requires r in s.heap && IsWhite(s.marks[r])
    ensures Advances(s, t) && r !in Whites(t)
    decreases Whites(s), 0
  {
    var g := White2Gray(s.marks[r]);
    var s1 := SetMark(s, r, g);
    assert r in Whites(s) && r !in Whites(s1) && Whites(s1) <= Whites(s);
    match s.heap[r]
    case TString => s1
    case Udata(mt, env) =>
      var s2 := SetMark(s, r, Gray2Black(g));
      assert r !in Whites(s2) && Whites(s2) <= Whites(s);
      MarkObject(if mt.Some? then MarkObject(s2, mt.value) else s2, env)
    case UpVal(v) =>
      var s2 := if v.Obj? then MarkObject(s1, v.r) else s1;
      SetMark(s2, r, Gray2Black(s2.marks[r]))
    case _ => PushGray(s1, r)
  }

  /** markobject and, on a collectable value, markvalue. */
  function MarkObject(s: State, r: Ref): (t: State)
    requires s.heap.Keys == s.marks.Keys
    ensures Advances(s, t)
    decreases Whites(s), 1
  {
    if r in s.marks && IsWhite(s.marks[r]) then ReallyMark(s, r) else s
  }

  function MarkAll(s: State, l: seq<Ref>): (t: State)
    requires s.heap.Keys == s.marks.Keys
    ensures Advances(s, t)
    decreases |l|
  {
    if l == [] then s else MarkAll(MarkObject(s, l[0]), l[1..])
  }

  ghost predicate SameFrame(s: State, t: State) {
    t.(heap := s.heap, marks := s.marks, gray := s.gray, grayagain := s.grayagain) == s
  }

  /** The first gray object leaves the list and turns black, or, if it is a
      thread, stays gray and goes to the grayagain list. */
  function Popped(s: State): State
    requires s.gray != [] && s.gray[0] in s.heap && s.heap.Keys == s.marks.Keys
  {
    var r := s.gray[0];
    if s.heap[r].Thread?
    then s.(gray := s.gray[1..], grayagain := [r] + s.grayagain,
            marks := s.marks[r := Black2Gray(Gray2Black(s.marks[r]))])
    else s.(gray := s.gray[1..], marks := s.marks[r := Gray2Black(s.marks[r])])
  }

  function Opened(s: State): State
    requires s.gray != [] && s.gray[0] in s.heap && s.heap.Keys == s.marks.Keys
  {
    Popped(s).(heap := s.heap[s.gray[0] := Cleaned(s.heap[s.gray[0]])])
  }

  /** propagatemark: traverse one gray object and mark what it refers to. */
  function PropagateMark(s: State): (t: State)
    requires s.heap.Keys == s.marks.Keys
    requires s.gray != [] && forall x :: x in s.gray ==> x in s.heap
    ensures t.heap.Keys == s.heap.Keys && t.marks.Keys == s.marks.Keys && SameFrame(s, t)
    ensures forall x :: x in t.gray ==> x in t.heap
    ensures (forall x :: x in s.grayagain ==> x in s.heap) ==> (forall x :: x in t.grayagain ==> x in t.heap)
    ensures Whites(t) <= Whites(s) && (Whites(t) == Whites(s) ==> |t.gray| < |s.gray|)
  {
    assert Whites(Opened(s)) == Whites(s);
    MarkAll(Opened(s), Kids(s.heap[s.gray[0]]))
  }

  function PropagateAll(s: State): (t: State)
    requires s.heap.Keys == s.marks.Keys
    requires forall x :: x in s.gray ==> x in s.heap
    ensures t.heap.Keys == s.heap.Keys && t.marks.Keys == s.marks.Keys && t.gray == [] && SameFrame(s, t)
    ensures (forall x :: x in s.grayagain ==> x in s.heap) ==> (forall x :: x in t.grayagain ==> x in t.heap)
    ensures Whites(t) <= Whites(s)
    decreases Whites(s), |s.gray|
  {
    if s.gray == [] then s else PropagateAll(PropagateMark(s))
  }

  /** markroot: the lists are emptied and the roots marked. */
  function MarkRoot(s: State): (t: State)
    requires s.heap.Keys == s.marks.Keys
  {
    var s0 := s.(gray := [], grayagain := []);
    var l := [s.mainthread]
             + (if s.mainthread in s.heap && s.heap[s.mainthread].Thread? then ValRefs(s.heap[s.mainthread].gt) else [])
             + ValRefs(s.registry) + OptsRefs(s.mt);
    MarkAll(s0, l).(gcstate := Propagate)
  }

  /** atomic: mark what the mutator may have changed behind the collector's
      back, then flip the current white. */
  function AtomicMark(s: State): (t: State)
    requires s.heap.Keys == s.marks.Keys
    requires forall x :: x in s.gray ==> x in s.heap
    requires forall x :: x in s.grayagain ==> x in s.heap
    ensures t.heap.Keys == s.heap.Keys && t.marks.Keys == s.marks.Keys
  {
    var s1 := PropagateAll(s);
    var s2 := PropagateAll(MarkAll(s1, [s1.cur] + OptsRefs(s1.mt)));
    PropagateAll(s2.(gray := s2.grayagain, grayagain := []))
  }

  function Flip(s: State): State {
    s.(white1 := !s.white1, sweepstrgc := 0, sweepgc := 0, gcstate := SweepString)
  }

  // ---------------------------------------------------------------------
  // Sweeping

  function Free(s: State, r: Ref): State { s.(heap := s.heap - {r}, marks := s.marks - {r}) }

  /** sweeplist over the objects of `l`: the state afterwards and what is left
      of the list. */
  function SweepSeq(s: State, l: seq<Ref>): (t: (State, seq<Ref>))
    decreases |l|
  {
    if l == [] then (s, [])
    else if l[0] !in s.marks then SweepSeq(s, l[1..])
    else if Erasable(s.marks[l[0]], s.white1) then SweepSeq(Free(s, l[0]), l[1..])
    else
      var (t, kept) := SweepSeq(SetMark(s, l[0], MakeWhite(s.marks[l[0]], s.white1)), l[1..]);
      (t, [l[0]] + kept)
  }

  function Min(a: nat, b: nat): nat { if a <= b then a else b }

  function SweepStringStep(s: State): (t: State)
    requires s.sweepstrgc < |s.strt|
  {
    var (t, kept) := SweepSeq(s, s.strt[s.sweepstrgc]);
    var n := s.sweepstrgc + 1;
    t.(strt := s.strt[s.sweepstrgc := kept], sweepstrgc := n, gcstate := if n >= |s.strt| then Sweep else SweepString)
  }

  /** The sweep visits at most GCSWEEPMAX objects of rootgc per step. */
  function SweepEnd(s: State): nat
    requires s.sweepgc <= |s.rootgc|
  {
    s.sweepgc + Min(GCSWEEPMAX, |s.rootgc| - s.sweepgc)
  }

  function SweepStep(s: State): (t: State)
    requires s.sweepgc <= |s.rootgc|
  {
    var hi := SweepEnd(s);
    var (t, kept) := SweepSeq(s, s.rootgc[s.sweepgc..hi]);
    var left := s.rootgc[..s.sweepgc] + kept + s.rootgc[hi..];
    t.(rootgc := left, sweepgc := s.sweepgc + |kept|,
       gcstate := if s.sweepgc + |kept| == |left| then Finalize else Sweep)
  }
}
