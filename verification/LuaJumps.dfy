/** Lists of pending jumps, threaded through the jump instructions themselves. */
module LuaJumps {
  import opened Options
  import opened LuaVM
  import opened LuaCode

  /** One word of the code array.  A pending jump holds the offset to the next
      jump of its list, or NO_JUMP at the end; a patched one the offset to its
      target. */
  datatype Word = JumpW(sbx: int) | OpW(i: Instr)

  // ---------------------------------------------------------------------
  // Chains

  /** getjump. */
  function Next(w: Word, pc: nat): int
    requires w.JumpW?
  {
    if w.sbx == NO_JUMP then NO_JUMP else pc + 1 + w.sbx
  }

  /** The list at `l` visits exactly `s`, each jump once. */
  ghost predicate Chain(c: seq<Word>, l: int, s: seq<nat>)
    decreases s
  {
    if s == [] then l == NO_JUMP
    else l == s[0] && s[0] < |c| && c[s[0]].JumpW? && s[0] !in s[1..] && Chain(c, Next(c[s[0]], s[0]), s[1..])
  }

  ghost function Elems(s: seq<nat>): set<nat> { set x | x in s }

  ghost predicate Holds(c: seq<Word>, l: int, l0: set<nat>) { exists s :: Chain(c, l, s) && Elems(s) == l0 }

  lemma {:induction false} ChainFrame(c: seq<Word>, d: seq<Word>, l: int, s: seq<nat>)
    requires Chain(c, l, s) && |c| <= |d| && forall p: nat :: p in s ==> p < |c| && d[p] == c[p]
    ensures Chain(d, l, s)
    decreases s
  {
    if s != [] {
      assert s[0] in s;
      assert forall p :: p in s[1..] ==> p in s;
      ChainFrame(c, d, Next(c[s[0]], s[0]), s[1..]);
    }
  }

  lemma {:induction false} ChainIn(c: seq<Word>, l: int, s: seq<nat>)
    requires Chain(c, l, s)
    ensures forall p :: p in s ==> p < |c| && c[p].JumpW?
    ensures l == NO_JUMP <==> s == []
    decreases s
  {
    if s != [] {
      ChainIn(c, Next(c[s[0]], s[0]), s[1..]);
      assert forall p :: p in s ==> p == s[0] || p in s[1..];
    }
  }

  /** A list determines the jumps on it, and it never runs in a circle. */
  lemma {:induction false} ChainUnique(c: seq<Word>, l: int, s: seq<nat>, t: seq<nat>)
    requires Chain(c, l, s) && Chain(c, l, t)
    ensures s == t
    decreases s
  {
    if s != [] && t != [] {
      ChainUnique(c, Next(c[s[0]], s[0]), s[1..], t[1..]);
      assert s == [s[0]] + s[1..] && t == [t[0]] + t[1..];
    }
  }

  lemma HoldsUnique(c: seq<Word>, l: int, a: set<nat>, b: set<nat>)
    requires Holds(c, l, a) && Holds(c, l, b)
    ensures a == b
  {
    var s :| Chain(c, l, s) && Elems(s) == a;
    var t :| Chain(c, l, t) && Elems(t) == b;
    ChainUnique(c, l, s, t);
  }

  lemma HoldsFrame(c: seq<Word>, d: seq<Word>, l: int, l0: set<nat>)
    requires Holds(c, l, l0) && |c| <= |d| && forall p :: p in l0 && p < |c| ==> d[p] == c[p]
    ensures Holds(d, l, l0)
  {
    var s :| Chain(c, l, s) && Elems(s) == l0;
    ChainIn(c, l, s);
    assert forall p :: p in s ==> p in Elems(s);
    ChainFrame(c, d, l, s);
  }

  lemma HoldsEmpty(c: seq<Word>)
    ensures Holds(c, NO_JUMP, {})
  {
    assert Chain(c, NO_JUMP, []);
  }

  lemma HoldsIn(c: seq<Word>, l: int, l0: set<nat>)
    requires Holds(c, l, l0)
    ensures forall p :: p in l0 ==> p < |c| && c[p].JumpW?
    ensures l == NO_JUMP <==> l0 == {}
    ensures l != NO_JUMP ==> l >= 0 && l in l0
  {
    var s :| Chain(c, l, s) && Elems(s) == l0;
    ChainIn(c, l, s);
    assert forall p :: p in l0 <==> p in s;
    if l != NO_JUMP { assert s[0] in s; }
  }

  lemma HoldsOne(c: seq<Word>, p: nat)
    requires p < |c| && c[p] == JumpW(NO_JUMP)
    ensures Holds(c, p, {p})
  {
    assert Chain(c, NO_JUMP, []);
    assert Chain(c, p, [p]);
  }

  /** fixjump. */
  function Linked(c: seq<Word>, p: nat, dest: int): seq<Word>
    requires p < |c| && c[p].JumpW?
  {
    c[p := JumpW(dest - (p + 1))]
  }

  /** luaK_concat: linking the last jump of one list to the head of another. */
  lemma {:induction false} ChainConcat(c: seq<Word>, l1: int, s1: seq<nat>, l2: int, s2: seq<nat>)
    requires Chain(c, l1, s1) && Chain(c, l2, s2) && s1 != [] && s2 != []
    requires forall p :: p in s1 ==> p !in s2
    ensures s1[|s1| - 1] < |c| && c[s1[|s1| - 1]].JumpW?
    ensures Chain(Linked(c, s1[|s1| - 1], l2), l1, s1 + s2)
    decreases s1
  {
    ChainIn(c, l1, s1);
    var last := s1[|s1| - 1];
    assert last in s1;
    var d := Linked(c, last, l2);
    if |s1| == 1 {
      assert s1 + s2 == [last] + s2;
      assert s2[0] in s2;
      ChainIn(c, l2, s2);
      ChainFrame(c, d, l2, s2);
    } else {
      var rest := s1[1..];
      assert forall p :: p in rest ==> p in s1;
      assert rest[|rest| - 1] == last && last in rest;
      ChainConcat(c, Next(c[s1[0]], s1[0]), rest, l2, s2);
      ChainStep(c, d, l1, s1, s2);
    }
  }

  /** The first jump of a list stands before a longer rest. */
  lemma ChainStep(c: seq<Word>, d: seq<Word>, l: int, s: seq<nat>, t: seq<nat>)
    requires |s| > 1 && Chain(c, l, s) && |d| == |c| && d[s[0]] == c[s[0]] && s[0] !in t
    requires Chain(d, Next(c[s[0]], s[0]), s[1..] + t)
    ensures Chain(d, l, s + t)
  {
    assert (s + t)[1..] == s[1..] + t && (s + t)[0] == s[0];
  }

  // ---------------------------------------------------------------------
  // The code that the words stand for

  ghost function AbsWord(w: Word, p: nat, pend: set<nat>): Instr {
    match w
    case JumpW(sbx) => Jmp(if p in pend then NO_JUMP else p + 1 + sbx)
    case OpW(i) => i
  }

  ghost function AbsCode(c: seq<Word>, pend: set<nat>): (d: seq<Instr>)
    ensures |d| == |c| && forall p :: 0 <= p < |c| ==> d[p] == AbsWord(c[p], p, pend)
  {
    seq(|c|, p requires 0 <= p < |c| => AbsWord(c[p], p, pend))
  }

  /** `pend` are jumps; the others have been patched, and only JumpW jumps. */
  ghost predicate CodeOK(c: seq<Word>, pend: set<nat>) {
    && (forall p :: p in pend ==> p < |c| && c[p].JumpW?)
    && (forall p :: 0 <= p < |c| && c[p].OpW? ==> !c[p].i.Jmp?)
    && (forall p :: 0 <= p < |c| && c[p].JumpW? && p !in pend ==> p + 1 + c[p].sbx >= 0)
  }

  /** Changing the offset of a pending jump leaves the code as it is. */
  lemma RelinkAbs(c: seq<Word>, pend: set<nat>, p: nat, dest: int)
    requires p in pend && p < |c| && c[p].JumpW?
    ensures AbsCode(Linked(c, p, dest), pend) == AbsCode(c, pend)
    ensures CodeOK(c, pend) ==> CodeOK(Linked(c, p, dest), pend)
  {}

  // ---------------------------------------------------------------------
  // Patching one jump after the other

  /** patchtestreg. */
  function PatchTestW(c: seq<Word>, p: nat, reg: int): seq<Word>
    requires p < |c|
  {
    if p >= 1 && c[p - 1].OpW? && c[p - 1].i.TestSet? then c[p - 1 := OpW(PatchedTest(c[p - 1].i, reg))] else c
  }

  /** One round of patchlistaux. */
  function PatchOneW(c: seq<Word>, p: nat, vtarget: int, reg: int, dtarget: int): seq<Word>
    requires p < |c| && c[p].JumpW?
  {
    var controls := p >= 1 && c[p - 1].OpW? && c[p - 1].i.TestSet?;
    Linked(PatchTestW(c, p, reg), p, if controls then vtarget else dtarget)
  }

  /** What patching the jumps of `done` has come to. */
  ghost predicate Patched(c: seq<Word>, pend: set<nat>, done: set<nat>, v: int, reg: int, d: int, c1: seq<Word>) {
    && CodeOK(c1, pend - done)
    && AbsCode(c1, pend - done) == Patch(AbsCode(c, pend), done, v, reg, d)
    && forall p :: 0 <= p < |c| && c[p].JumpW? && p !in done ==> c1[p] == c[p]
  }

  lemma PatchedStart(c: seq<Word>, pend: set<nat>, v: int, reg: int, d: int)
    requires CodeOK(c, pend)
    ensures Patched(c, pend, {}, v, reg, d, c)
  {
    assert pend - {} == pend;
  }

  lemma PatchedStep(c: seq<Word>, pend: set<nat>, done: set<nat>, v: int, reg: int, d: int, c1: seq<Word>, j: nat)
    requires CodeOK(c, pend) && Patched(c, pend, done, v, reg, d, c1) && |c1| == |c|
    requires j in pend && j !in done && done <= pend && v >= 0
    requires !TestSetControls(AbsCode(c, pend), j) ==> d >= 0
    ensures c1[j].JumpW? && |PatchOneW(c1, j, v, reg, d)| == |c1|
    ensures !(j >= 1 && c1[j - 1].OpW? && c1[j - 1].i.TestSet?) ==> d >= 0
    ensures Patched(c, pend, done + {j}, v, reg, d, PatchOneW(c1, j, v, reg, d))
  {
    var a, a1 := AbsCode(c, pend), AbsCode(c1, pend - done);
    assert c1[j] == c[j];
    var c2 := PatchOneW(c1, j, v, reg, d);
    assert a1[j] == Jmp(NO_JUMP) && a[j] == Jmp(NO_JUMP);
    if j >= 1 {
      assert a1[j - 1] == PatchInstr(a, done, v, reg, d, j - 1);
      assert a1[j - 1].TestSet? == a[j - 1].TestSet? && (a[j - 1].TestSet? ==> a1[j - 1] == a[j - 1]);
      assert a1[j - 1] == AbsWord(c1[j - 1], j - 1, pend - done);
    }
    forall p | 0 <= p < |c|
      ensures AbsWord(c2[p], p, pend - (done + {j})) == PatchInstr(a, done + {j}, v, reg, d, p)
    {
      assert a1[p] == PatchInstr(a, done, v, reg, d, p);
      assert a1[p] == AbsWord(c1[p], p, pend - done);
    }
    assert CodeOK(c2, pend - (done + {j}));
  }

  /** A new jump, on a list by itself. */
  lemma JumpAdded(c: seq<Word>, pend: set<nat>, l: int, l0: set<nat>)
    requires CodeOK(c, pend) && Holds(c, l, l0)
    ensures var d := c + [JumpW(NO_JUMP)];
      && CodeOK(d, pend + {|c|}) && AbsCode(d, pend + {|c|}) == AbsCode(c, pend) + [Jmp(NO_JUMP)]
      && Holds(d, NO_JUMP, {}) && Holds(d, |c|, {|c|}) && Holds(d, l, l0) && |c| !in l0
    ensures |AbsCode(c, pend)| == |c|
  {
    hide Holds;
    var d := c + [JumpW(NO_JUMP)];
    HoldsEmpty(d);
    HoldsOne(d, |c|);
    HoldsIn(c, l, l0);
    HoldsFrame(c, d, l, l0);
  }
}
