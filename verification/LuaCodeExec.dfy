/** How emitting and patching instructions changes the runs of the code. */
module LuaCodeExec {
  import opened Options
  import opened LuaVM
  import opened LuaCode

  ghost function Pending(c: seq<Instr>): set<nat> { set j: nat | j < |c| && c[j] == Jmp(NO_JUMP) }

  /** `p` is not a jump that a test before it controls. */
  predicate Outside(c: seq<Instr>, p: int) { 0 < p <= |c| ==> !IsTest(c[p - 1]) }

  /** Every test is followed by its jump, and control reaches that jump only
      through the test. */
  ghost predicate Tests(c: seq<Instr>) {
    && (forall i :: 0 <= i < |c| && IsTest(c[i]) ==> i + 1 < |c| && c[i + 1].Jmp?)
    && (forall i :: 0 <= i < |c| && c[i].Jmp? && c[i].target != NO_JUMP ==> Outside(c, c[i].target))
    && (forall i :: 0 <= i < |c| && c[i].LoadBool? && c[i].skip ==> Outside(c, i + 2))
  }

  lemma NothingPatched(c: seq<Instr>, v: int, reg: int, d: int)
    ensures Patch(c, {}, v, reg, d) == c
  {}

  lemma RCodeClean(fs: FS)
    requires fs.jpc == {}
    ensures RCode(fs) == fs.code
  {
    NothingPatched(fs.code, |fs.code|, NO_REG, |fs.code|);
  }

  lemma RCodeEmit(fs: FS, i: Instr)
    ensures RCode(Emit(fs, i)) == RCode(fs) + [i]
  {
    RCodeClean(Emit(fs, i));
  }

  /** A run continues through a plain instruction added at the end. */
  lemma ExecSnoc(ctx: Ctx, c: seq<Instr>, i: Instr, p: nat, r: Regs)
    requires IsPlain(i)
    ensures var o := Exec(ctx, c, p, |c|, r);
      match o
      case Fall(s) =>
        Exec(ctx, c + [i], p, |c| + 1, r) == (match Plain(ctx, i, s) case None => Stuck case Some(s') => Fall(s'))
      case Exit(_, _) => Exec(ctx, c + [i], p, |c| + 1, r) == o
      case Fail => Exec(ctx, c + [i], p, |c| + 1, r) == o
      case Stuck => true
  {
    var d := c + [i];
    ExecFrame(ctx, c, d, p, |c|, r);
    ExecSplit(ctx, d, p, |c|, |c| + 1, r);
    assert d[|c|] == i;
  }

  /** The same for the LOADBOOL that does not skip. */
  lemma ExecSnocBool(ctx: Ctx, c: seq<Instr>, a: nat, b: bool, p: nat, r: Regs)
    ensures var o := Exec(ctx, c, p, |c|, r);
      match o
      case Fall(s) => Exec(ctx, c + [LoadBool(a, b, false)], p, |c| + 1, r) == Fall(s[a := Bool(b)])
      case Exit(_, _) => Exec(ctx, c + [LoadBool(a, b, false)], p, |c| + 1, r) == o
      case Fail => Exec(ctx, c + [LoadBool(a, b, false)], p, |c| + 1, r) == o
      case Stuck => true
  {
    var d := c + [LoadBool(a, b, false)];
    ExecFrame(ctx, c, d, p, |c|, r);
    ExecSplit(ctx, d, p, |c|, |c| + 1, r);
    assert d[|c|] == LoadBool(a, b, false);
  }

  /** A test with a pending jump at the end: the run leaves through the jump
      when the condition holds. */
  lemma ExecTest(ctx: Ctx, c: seq<Instr>, i: Instr, p: nat, r: Regs)
    requires IsTest(i)
    ensures var o, d := Exec(ctx, c, p, |c|, r), c + [i] + [Jmp(NO_JUMP)];
      match o
      case Fall(s) =>
        Exec(ctx, d, p, |d|, r) ==
          (match Cond(ctx, i, s) case None => Fail case Some(b) => if b then Exit(|c| + 1, s) else Fall(s))
      case Exit(_, _) => Exec(ctx, d, p, |d|, r) == o
      case Fail => Exec(ctx, d, p, |d|, r) == o
      case Stuck => true
  {
    var d := c + [i] + [Jmp(NO_JUMP)];
    ExecFrame(ctx, c, d, p, |c|, r);
    ExecSplit(ctx, d, p, |c|, |d|, r);
    assert d[|c|] == i && d[|c| + 1] == Jmp(NO_JUMP);
    if Exec(ctx, c, p, |c|, r).Fall? {
      var s := Exec(ctx, c, p, |c|, r).r;
      assert Exec(ctx, d, |c|, |d|, s) == Branch(ctx, d, |c|, |d|, s);
      assert Follow(ctx, d, |c| + 1, |d|, s, Chosen(i, s)) == Exit(|c| + 1, s);
      assert Exec(ctx, d, |c| + 2, |d|, s) == Fall(s);
    }
  }

  // ---------------------------------------------------------------------
  // Patching

  /** Where a pending jump is sent, and the register its TESTSET is to set. */
  datatype Goal = Goal(target: nat, reg: int)

  function Land(c: seq<Instr>, j: nat, reg: int, s: Regs): Regs {
    if TestSetControls(c, j) && reg >= 0 && reg != c[j - 1].b then s[reg := Get(s, c[j - 1].b)] else s
  }

  function RedirectInstr(c: seq<Instr>, m: map<nat, Goal>, i: nat): Instr
    requires i < |c|
  {
    if i in m && c[i].Jmp? then Jmp(m[i].target)
    else if i + 1 in m && c[i].TestSet? then PatchedTest(c[i], m[i + 1].reg)
    else c[i]
  }

  /** `e` is the code `c` with the pending jumps of `m` redirected, and more
      code after it, in which the targets lie. */
  ghost predicate Redirects(c: seq<Instr>, m: map<nat, Goal>, e: seq<Instr>, q: nat) {
    && |c| <= q <= |e|
    && Tests(c) && m.Keys <= Pending(c)
    && (forall j :: j in m ==> |c| <= m[j].target <= q && m[j].reg >= NO_REG)
    && forall i :: 0 <= i < |c| ==> e[i] == RedirectInstr(c, m, i)
  }

  /** Where a run goes that left the code as it was before with `o`. */
  function Resumed(ctx: Ctx, c: seq<Instr>, m: map<nat, Goal>, e: seq<Instr>, q: nat, o: Out): Out
    requires q <= |e|
  {
    match o
    case Fall(s) => Exec(ctx, e, |c|, q, s)
    case Exit(j, s) => if j !in m then o else Exec(ctx, e, m[j].target, q, Land(c, j, m[j].reg, s))
    case _ => o
  }

  /** Patching redirects exactly the runs that leave through the patched jumps. */
  lemma {:induction false} RedirectExec(ctx: Ctx, c: seq<Instr>, m: map<nat, Goal>, e: seq<Instr>, p: nat, q: nat, r: Regs)
    requires Redirects(c, m, e, q) && p <= |c| && Outside(c, p)
    ensures var o := Exec(ctx, c, p, |c|, r);
      && (o != Stuck ==> Exec(ctx, e, p, q, r) == Resumed(ctx, c, m, e, q, o))
      && (o == Stuck && q == |c| ==> Exec(ctx, e, p, q, r) == Stuck)
    decreases |c| - p
  {
    if p < |c| {
      hide Resumed;
      assert e[p] == RedirectInstr(c, m, p);
      match c[p]
      case Jmp(t) => RedirectFollow(ctx, c, m, e, p, q, r, r);
      case LoadBool(a, val, skip) => RedirectPlain(ctx, c, m, e, p, q, r);
      case Cmp(_, _, _, _) => RedirectBranch(ctx, c, m, e, p, q, r);
      case Test(_, _) => RedirectBranch(ctx, c, m, e, p, q, r);
      case TestSet(_, _, _) => RedirectBranch(ctx, c, m, e, p, q, r);
      case _ => RedirectPlain(ctx, c, m, e, p, q, r);
    }
  }

  lemma {:induction false} RedirectPlain(ctx: Ctx, c: seq<Instr>, m: map<nat, Goal>, e: seq<Instr>, p: nat, q: nat, r: Regs)
    requires Redirects(c, m, e, q) && p < |c| && !IsTest(c[p]) && !c[p].Jmp?
    ensures var o := Exec(ctx, c, p, |c|, r);
      && (o != Stuck ==> Exec(ctx, e, p, q, r) == Resumed(ctx, c, m, e, q, o))
      && (o == Stuck && q == |c| ==> Exec(ctx, e, p, q, r) == Stuck)
    decreases |c| - p, 0
  {
    hide Resumed;
    assert e[p] == c[p] by { assert e[p] == RedirectInstr(c, m, p); }
    if c[p].LoadBool? {
      var n := if c[p].skip then p + 2 else p + 1;
      assert Outside(c, n);
      if n <= |c| { RedirectExec(ctx, c, m, e, n, q, r[c[p].a := Bool(c[p].val)]); }
    } else {
      var n := Plain(ctx, c[p], r);
      assert Outside(c, p + 1);
      if n.Some? { RedirectExec(ctx, c, m, e, p + 1, q, n.value); }
    }
  }

  /** A jump that no TESTSET controls, or one that is not patched. */
  lemma {:induction false} RedirectFollow(ctx: Ctx, c: seq<Instr>, m: map<nat, Goal>, e: seq<Instr>, p: nat, q: nat,
                                          r: Regs, s: Regs)
    requires Redirects(c, m, e, q) && p < |c| && c[p].Jmp?
    requires p in m ==> !TestSetControls(c, p)
    requires r == s || c[p].target != NO_JUMP
    ensures var o := Follow(ctx, c, p, |c|, r, s);
      && (o != Stuck ==> Follow(ctx, e, p, q, r, s) == Resumed(ctx, c, m, e, q, o))
      && (o == Stuck && q == |c| ==> Follow(ctx, e, p, q, r, s) == Stuck)
    decreases |c| - p, 0
  {
    assert e[p] == RedirectInstr(c, m, p);
    var t := c[p].target;
    if p < t <= |c| { RedirectExec(ctx, c, m, e, t, q, s); }
  }

  lemma {:induction false} RedirectBranch(ctx: Ctx, c: seq<Instr>, m: map<nat, Goal>, e: seq<Instr>, p: nat, q: nat,
                                          r: Regs)
    requires Redirects(c, m, e, q) && p < |c| && IsTest(c[p])
    ensures var o := Branch(ctx, c, p, |c|, r);
      && IsTest(e[p])
      && (o != Stuck ==> Branch(ctx, e, p, q, r) == Resumed(ctx, c, m, e, q, o))
      && (o == Stuck && q == |c| ==> Branch(ctx, e, p, q, r) == Stuck)
    decreases |c| - p, 0
  {
    assert e[p] == RedirectInstr(c, m, p) && e[p + 1] == RedirectInstr(c, m, p + 1);
    var b := Cond(ctx, c[p], r);
    assert Cond(ctx, e[p], r) == b;
    if b == Some(false) {
      RedirectExec(ctx, c, m, e, p + 2, q, r);
    } else if b == Some(true) {
      if p + 1 in m && c[p].TestSet? {
        assert Chosen(e[p], r) == Land(c, p + 1, m[p + 1].reg, r);
      } else if c[p + 1].target != NO_JUMP {
        RedirectFollow(ctx, c, m, e, p + 1, q, r, Chosen(c[p], r));
      }
    }
  }

  /** The jumps to the next instruction, all sent to it. */
  function Here(l: set<nat>, n: nat): map<nat, Goal> { map j | j in l :: Goal(n, NO_REG) }

  /** Resolving the jumps to the next instruction, in terms of runs. */
  lemma ExecRCode(ctx: Ctx, fs: FS, p: nat, r: Regs)
    requires Tests(fs.code) && fs.jpc <= Pending(fs.code) && p <= |fs.code| && Outside(fs.code, p)
    ensures var n := |fs.code|;
      var o, f := Exec(ctx, fs.code, p, n, r), Exec(ctx, RCode(fs), p, n, r);
      match o
      case Exit(j, s) => if j in fs.jpc then f == Fall(s) else f == o
      case _ => f == o
  {
    var n := |fs.code|;
    var m := Here(fs.jpc, n);
    assert forall i :: 0 <= i < n ==> RCode(fs)[i] == RedirectInstr(fs.code, m, i);
    RedirectExec(ctx, fs.code, m, RCode(fs), p, n, r);
  }

  // ---------------------------------------------------------------------
  // Extending a LOADNIL

  /** Control reaches the end of `c` only through its last instruction. */
  ghost predicate OneWayOut(c: seq<Instr>) {
    && c != [] && IsPlain(c[|c| - 1])
    && (forall i :: 0 <= i < |c| && c[i].Jmp? ==> c[i].target < |c|)
    && (forall i :: 0 <= i < |c| && c[i].LoadBool? && c[i].skip ==> i + 2 < |c|)
  }

  lemma {:induction false} ReachLast(ctx: Ctx, c: seq<Instr>, p: nat, r: Regs)
    requires OneWayOut(c) && p < |c| && Exec(ctx, c, p, |c|, r) != Stuck
    ensures Exec(ctx, c, p, |c| - 1, r) != Stuck
    decreases |c| - p
  {
    var n := |c|;
    if p < n - 1 {
      match c[p]
      case Jmp(t) => if p < t { ReachLast(ctx, c, t, r); }
      case LoadBool(a, val, skip) => ReachLast(ctx, c, if skip then p + 2 else p + 1, r[a := Bool(val)]);
      case Cmp(_, _, _, _) => BranchLast(ctx, c, p, r);
      case Test(_, _) => BranchLast(ctx, c, p, r);
      case TestSet(_, _, _) => BranchLast(ctx, c, p, r);
      case _ => ReachLast(ctx, c, p + 1, Plain(ctx, c[p], r).value);
    }
  }

  lemma {:induction false} BranchLast(ctx: Ctx, c: seq<Instr>, p: nat, r: Regs)
    requires OneWayOut(c) && p < |c| - 1 && IsTest(c[p]) && Branch(ctx, c, p, |c|, r) != Stuck
    ensures Branch(ctx, c, p, |c| - 1, r) != Stuck
    decreases |c| - p, 0
  {
    assert c[p + 1].Jmp? && p + 1 < |c| - 1;
    var b := Cond(ctx, c[p], r);
    if b == Some(false) { ReachLast(ctx, c, p + 2, r); }
    if b == Some(true) {
      var t := c[p + 1].target;
      if p + 1 < t { ReachLast(ctx, c, t, Chosen(c[p], r)); }
    }
  }

  /** A last LOADNIL made to cover one more register. */
  lemma ExecNilMerge(ctx: Ctx, c: seq<Instr>, to: nat, p: nat, r: Regs)
    requires OneWayOut(c) && p < |c| && c[|c| - 1].LoadNil? && c[|c| - 1].b <= to
    ensures var o, d := Exec(ctx, c, p, |c|, r), c[|c| - 1 := LoadNil(c[|c| - 1].a, to)];
      match o
      case Fall(s) =>
        Exec(ctx, d, p, |d|, r).Fall? &&
        forall i: nat :: Get(Exec(ctx, d, p, |d|, r).r, i) == if c[|c| - 1].a <= i <= to then Nil else Get(s, i)
      case Exit(_, _) => Exec(ctx, d, p, |d|, r) == o
      case Fail => Exec(ctx, d, p, |d|, r) == o
      case Stuck => true
  {
    var n, d := |c|, c[|c| - 1 := LoadNil(c[|c| - 1].a, to)];
    if Exec(ctx, c, p, n, r) != Stuck {
      ReachLast(ctx, c, p, r);
      ExecSplit(ctx, c, p, n - 1, n, r);
      ExecFrame(ctx, c, d, p, n - 1, r);
      ExecSplit(ctx, d, p, n - 1, n, r);
    }
  }
}
