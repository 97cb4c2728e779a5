/** Conditions: the code that goes on only if an expression is true (or
    false), `not`, and the comparisons. */
module LuaCodeCond {
  import opened Options
  import opened LuaVM
  import opened LuaCode
  import opened LuaCodeExec
  import opened LuaCodeShape
  import opened LuaCodeDen
  import opened LuaCodeReg
  import opened LuaCodeUse

  /** The run goes on exactly if the value is not `cond`, and has otherwise
      left through `t` or `f`. */
  ghost predicate SplitAt(ctx: Ctx, fs0: FS, fs: FS, t: set<nat>, f: set<nat>, cond: bool, x: Expr, p: nat, r: Regs) {
    var o := Full(ctx, fs, p, r);
    match Full(ctx, fs0, p, r)
    case Fall(r0) => Chose(fs, t, f, cond, fs0.freereg, Eval(ctx.env, x, r0), r0, o)
    case Stuck => true
    case Exit(j, s) => o == Exit(j, s)
    case Fail => o == Fail
  }

  ghost predicate Chose(fs: FS, t: set<nat>, f: set<nat>, cond: bool, n0: nat, res: Option<Value>, r0: Regs, o: Out) {
    match o
    case Fall(s) => Agree(r0, s, n0) && res.Some? && IsFalse(res.value) == cond
    case Exit(j, s) => Agree(r0, s, n0) && res.Some? && Left(fs, Exp(VNil, t, f), res.value, j, s)
    case Fail => res.None?
    case Stuck => false
  }

  /** The generator goes on after a condition: what it has emitted, and which
      exits are open. */
  ghost predicate Splits(ctx: Ctx, fs0: FS, fs: FS, t: set<nat>, f: set<nat>, cond: bool, x: Expr) {
    && WF(fs0) && Grown(fs0, fs, t + f) && t !! f && fs.freereg == fs0.freereg
    && forall p, r :: Entry(fs0, p, r) ==> SplitAt(ctx, fs0, fs, t, f, cond, x, p, r)
  }

  // ---------------------------------------------------------------------
  // luaK_patchtohere

  /** Runs that left through a jump of `l` now go on. */
  lemma HereRun(ctx: Ctx, fs: FS, l: set<nat>, p: nat, r: Regs)
    requires WF(fs) && l <= Open(fs) && p <= |fs.code| && Outside(fs.code, p)
    ensures var o, d := Full(ctx, fs, p, r), Full(ctx, PatchToHere(fs, l), p, r);
      match o
      case Exit(j, s) => d == if j in l then Fall(s) else o
      case _ => d == o
  {
    ExecRCode(ctx, fs, p, r);
    var fs1 := PatchToHere(fs, l);
    ExecRCode(ctx, fs1, p, r);
    hide RCode, Exec;
    assert Full(ctx, fs1, p, r) == Exec(ctx, RCode(fs1), p, |fs.code|, r);
  }

  lemma HereSplitAt(ctx: Ctx, fs0: FS, fs: FS, t: set<nat>, f: set<nat>, cond: bool, x: Expr, p: nat, r: Regs)
    requires WF(fs0) && Grown(fs0, fs, t + f) && t !! f && Entry(fs0, p, r)
    requires SplitAt(ctx, fs0, fs, t, f, cond, x, p, r)
    ensures var fs1 := PatchToHere(fs, if cond then f else t);
      SplitAt(ctx, fs0, fs1, if cond then t else {}, if cond then {} else f, cond, x, p, r)
  {
    var l := if cond then f else t;
    EntryGrown(fs0, fs, t + f, p, r);
    assert l <= Open(fs) && WF(fs);
    assert PatchToHere(fs, l).code == fs.code;
    hide WF, Grown, Full, Entry, PatchToHere, Outside, Eval, Chose;
    HereRun(ctx, fs, l, p, r);
    var o0, o, d := Full(ctx, fs0, p, r), Full(ctx, fs, p, r), Full(ctx, PatchToHere(fs, l), p, r);
    if o0.Exit? { OldExit(ctx, fs0, fs, t + f, p, r); }
    if o0.Fall? { ChoseHere(fs, PatchToHere(fs, l), t, f, cond, fs0.freereg, Eval(ctx.env, x, o0.r), o0.r, o, d); }
  }

  lemma ChoseHere(fs: FS, fs1: FS, t: set<nat>, f: set<nat>, cond: bool, n0: nat, res: Option<Value>, r0: Regs,
                  o: Out, d: Out)
    requires Chose(fs, t, f, cond, n0, res, r0, o) && fs1.code == fs.code && t !! f
    requires match o
      case Exit(j, s) => d == if j in if cond then f else t then Fall(s) else o
      case _ => d == o
    ensures Chose(fs1, if cond then t else {}, if cond then {} else f, cond, n0, res, r0, d)
  {}

  lemma HereSplits(ctx: Ctx, fs0: FS, fs: FS, t: set<nat>, f: set<nat>, cond: bool, x: Expr)
    requires Splits(ctx, fs0, fs, t, f, cond, x)
    ensures var fs1 := PatchToHere(fs, if cond then f else t);
      Splits(ctx, fs0, fs1, if cond then t else {}, if cond then {} else f, cond, x)
  {
    var l := if cond then f else t;
    var fs1 := PatchToHere(fs, l);
    PatchToHereGrown(fs0, fs, t + f, l);
    assert t + f - l == (if cond then t else f);
    hide Grown, SplitAt;
    forall p, r | Entry(fs0, p, r)
      ensures SplitAt(ctx, fs0, fs1, if cond then t else {}, if cond then {} else f, cond, x, p, r)
    {
      HereSplitAt(ctx, fs0, fs, t, f, cond, x, p, r);
    }
  }

  // ---------------------------------------------------------------------
  // jumponcond

  lemma Discharge2AnyRegDen(ctx: Ctx, fs0: FS, fs: FS, e: Exp, x: Expr)
    requires Denotes(ctx, fs0, fs, e, x) && Discharged(e.k) && !e.k.VJmp?
    requires Discharge2AnyReg(fs, e).0.k <= ctx.k
    ensures var (fs1, e1) := Discharge2AnyReg(fs, e);
      && Denotes(ctx, fs0, fs1, e1, x) && e1.k.VNonReloc? && e1 == e.(k := e1.k)
  {
    if !e.k.VNonReloc? {
      assert Reserve(fs, 1) == fs.(freereg := fs0.freereg + 1);
      Discharge2RegDen(ctx, fs0, fs, e, x);
    }
  }

  /** Freeing the register of a value changes neither code nor runs. */
  lemma FreeDen(ctx: Ctx, fs0: FS, fs: FS, e: Exp, x: Expr, p: nat, r: Regs)
    requires Denotes(ctx, fs0, fs, e, x) && Entry(fs0, p, r)
    ensures var fs1 := FreeExp(fs, e);
      && fs1 == fs.(freereg := fs0.freereg) && Grown(fs0, fs1, Own(e)) && DenAt(ctx, fs0, fs1, e, x, p, r)
  {
    FreeForm(fs0, fs, e);
    RegsGrown(fs0, fs, Own(e), fs0.freereg, fs.k);
    var fs1 := FreeExp(fs, e);
    assert RCode(fs1) == RCode(fs);
    assert SameExits(fs, e, fs1, e);
    Transfer(ctx, fs0, fs, e, fs1, e, x, p, r);
  }

  /** A test and its jump, after code that ends with the value in a register. */
  lemma TestSplitAt(ctx: Ctx, fs0: FS, fs: FS, e: Exp, i: Instr, cond: bool, x: Expr, p: nat, r: Regs)
    requires WF(fs0) && Grown(fs0, fs, Own(e)) && e.t !! e.f && End(fs, e.k) == |fs.code|
    requires Entry(fs0, p, r) && DenAt(ctx, fs0, fs, e, x, p, r)
    requires e.k.VNonReloc? && i == TestSet(NO_REG, e.k.r, cond)
    ensures var (fs1, l) := CondJump(fs, i);
      SplitAt(ctx, fs0, fs1, if cond then e.t + l else e.t, if cond then e.f else e.f + l, cond, x, p, r)
  {
    var (fs1, l) := CondJump(fs, i);
    CondRun(ctx, fs0, fs, e, i, p, r);
    CondLeft(fs0, fs, e, i);
    var n0, o0, o, d := fs0.freereg, Full(ctx, fs0, p, r), Full(ctx, fs, p, r), Full(ctx, fs1, p, r);
    hide Grown, WF, Exec, RCode, Eval, CondJump, Meets, Full, Entry, Chose;
    if o0.Fall? { ChoseTest(ctx, fs, fs1, e, i, cond, n0, Eval(ctx.env, x, o0.r), o0.r, o, d); }
  }

  lemma CondRun(ctx: Ctx, fs0: FS, fs: FS, e: Exp, i: Instr, p: nat, r: Regs)
    requires Grown(fs0, fs, Own(e)) && IsTest(i)
    ensures var (fs1, l) := CondJump(fs, i);
      && |fs1.code| == |fs.code| + 2 && l == {|fs.code| + 1} && fs1.code[|fs.code|] == i
      && var o, d := Full(ctx, fs, p, r), Full(ctx, fs1, p, r);
         match o
         case Fall(s) =>
           d == (match Cond(ctx, i, s) case None => Fail case Some(b) => if b then Exit(|fs.code| + 1, s) else Fall(s))
         case Stuck => true
         case _ => d == o
  {
    CondJumpGrown(fs0, fs, Own(e), i);
    RCodeClean(CondJump(fs, i).0);
    ExecTest(ctx, RCode(fs), i, p, r);
    hide Grown, Exec, RCode;
  }

  lemma ChoseTest(ctx: Ctx, fs: FS, fs1: FS, e: Exp, i: Instr, cond: bool, n0: nat, res: Option<Value>, r0: Regs,
                  o: Out, d: Out)
    requires Meets(ctx, n0, fs, e, res, r0, o) && e.k.VNonReloc? && i == TestSet(NO_REG, e.k.r, cond)
    requires |fs1.code| == |fs.code| + 2 && fs1.code[|fs.code|] == i
    requires forall j :: j in e.t + e.f ==>
        j < |fs.code| && TestSetControls(fs1.code, j) == TestSetControls(fs.code, j)
        && (TestSetControls(fs.code, j) ==> fs1.code[j - 1] == fs.code[j - 1])
    requires match o
      case Fall(s) =>
        d == (match Cond(ctx, i, s) case None => Fail case Some(b) => if b then Exit(|fs.code| + 1, s) else Fall(s))
      case Stuck => true
      case _ => d == o
    ensures var l := {|fs.code| + 1};
      Chose(fs1, if cond then e.t + l else e.t, if cond then e.f else e.f + l, cond, n0, res, r0, d)
  {}

  /** condjump leaves the exits of `e` as they are. */
  lemma CondLeft(fs0: FS, fs: FS, e: Exp, i: Instr)
    requires Grown(fs0, fs, Own(e)) && IsTest(i)
    ensures var fs1 := CondJump(fs, i).0;
      forall j :: j in e.t + e.f ==>
        j < |fs.code| && TestSetControls(fs1.code, j) == TestSetControls(fs.code, j)
        && (TestSetControls(fs.code, j) ==> fs1.code[j - 1] == fs.code[j - 1])
  {
    var fs1 := CondJump(fs, i).0;
    EmitLeft(fs0, fs, e, i);
    assert fs1.code == Emit(fs, i).code + [Jmp(NO_JUMP)];
    assert forall j :: j in e.t + e.f ==> j in Open(fs) && j < |fs.code|;
    hide Emit;
  }

  /** jumponcond on a value in a register. */
  lemma RegJump(ctx: Ctx, fs0: FS, fs: FS, e: Exp, cond: bool, x: Expr)
    requires Denotes(ctx, fs0, fs, e, x) && e.k.VNonReloc?
    ensures var (fs1, l) := CondJump(FreeExp(fs, e), TestSet(NO_REG, e.k.r, cond));
      Splits(ctx, fs0, fs1, if cond then e.t + l else e.t, if cond then e.f else e.f + l, cond, x)
  {
    var fs2, i := FreeExp(fs, e), TestSet(NO_REG, e.k.r, cond);
    var (fs1, l) := CondJump(fs2, i);
    FreeForm(fs0, fs, e);
    RegsGrown(fs0, fs, Own(e), fs0.freereg, fs.k);
    CondJumpGrown(fs0, fs2, Own(e), i);
    CondDisjoint(fs0, fs2, e, l, cond);
    hide Grown, WF, CondJump, SplitAt, FreeExp, DenAt;
    forall p, r | Entry(fs0, p, r)
      ensures SplitAt(ctx, fs0, fs1, if cond then e.t + l else e.t, if cond then e.f else e.f + l, cond, x, p, r)
    {
      FreeDen(ctx, fs0, fs, e, x, p, r);
      TestSplitAt(ctx, fs0, fs2, e, i, cond, x, p, r);
    }
  }

  lemma CondDisjoint(fs0: FS, fs: FS, e: Exp, l: set<nat>, cond: bool)
    requires Grown(fs0, fs, Own(e)) && e.t !! e.f && !e.k.VJmp? && l == {|fs.code| + 1}
    ensures var t, f := if cond then e.t + l else e.t, if cond then e.f else e.f + l;
      t !! f && t + f == Own(e) + l
  {
    assert forall j :: j in Own(e) ==> j in Open(fs) && j < |fs.code|;
  }

  /** The state after a trailing NOT has been taken back. */
  function WithoutNot(fs: FS): FS
    requires fs.code != []
  {
    fs.(code := fs.code[..|fs.code| - 1])
  }

  lemma WithoutNotGrown(fs0: FS, fs: FS, e: Exp)
    requires St(fs0, fs, e) && e.k.VReloc? && fs.code[e.k.pc].NotR?
    ensures Grown(fs0, WithoutNot(fs), Own(e)) && WithoutNot(fs).jpc == {}
  {
    var n := |fs.code|;
    hide Tests;
    NoTestAtEnd(fs.code);
    assert e.k.pc == n - 1 && fs.lasttarget < n;
    assert forall j :: j in Open(fs0) ==> j < |fs0.code|;
  }

  lemma NoTestAtEnd(c: seq<Instr>)
    requires c != [] && c[|c| - 1].NotR? && Tests(c)
    requires forall i :: 0 <= i < |c| && c[i].Jmp? ==> c[i].target < |c|
    requires forall i :: 0 <= i < |c| && c[i].LoadBool? && c[i].skip ==> i + 2 < |c|
    ensures Tests(c[..|c| - 1]) && Pending(c[..|c| - 1]) == Pending(c)
  {
  }

  /** jumponcond on a negation: the NOT goes, and the test is on its operand. */
  lemma NotJump(ctx: Ctx, fs0: FS, fs: FS, e: Exp, cond: bool, x: Expr)
    requires Denotes(ctx, fs0, fs, e, x) && e.k.VReloc? && fs.code[e.k.pc].NotR?
    ensures var (fs1, l) := CondJump(WithoutNot(fs), Test(fs.code[e.k.pc].b, !cond));
      Splits(ctx, fs0, fs1, if cond then e.t + l else e.t, if cond then e.f else e.f + l, cond, x)
  {
    var b := fs.code[e.k.pc].b;
    var fs2, i := WithoutNot(fs), Test(b, !cond);
    var (fs1, l) := CondJump(fs2, i);
    WithoutNotGrown(fs0, fs, e);
    CondJumpGrown(fs0, fs2, Own(e), i);
    CondDisjoint(fs0, fs2, e, l, cond);
    assert forall j :: j in e.t + e.f ==> j in Open(fs2) && j < |fs2.code|;
    hide Grown, WF, CondJump, SplitAt, DenAt, KindOK;
    forall p, r | Entry(fs0, p, r)
      ensures SplitAt(ctx, fs0, fs1, if cond then e.t + l else e.t, if cond then e.f else e.f + l, cond, x, p, r)
    {
      DenInst(ctx, fs0, fs, e, x, p, r);
      NotSplitAt(ctx, fs0, fs, e, cond, x, p, r);
    }
  }

  lemma NotShape(fs0: FS, fs: FS, e: Exp)
    requires St(fs0, fs, e) && e.k.VReloc? && fs.code[e.k.pc].NotR?
    ensures e.k.pc + 1 == |fs.code| && WithoutNot(fs).code == fs.code[..|fs.code| - 1]
    ensures RCode(fs) == fs.code && RCode(WithoutNot(fs)) == WithoutNot(fs).code && End(fs, e.k) == |fs.code| - 1
  {
    RCodeClean(fs);
    RCodeClean(WithoutNot(fs));
  }

  lemma NotSplitAt(ctx: Ctx, fs0: FS, fs: FS, e: Exp, cond: bool, x: Expr, p: nat, r: Regs)
    requires St(fs0, fs, e) && e.k.VReloc? && fs.code[e.k.pc].NotR?
    requires Entry(fs0, p, r) && DenAt(ctx, fs0, fs, e, x, p, r)
    ensures var (fs1, l) := CondJump(WithoutNot(fs), Test(fs.code[e.k.pc].b, !cond));
      SplitAt(ctx, fs0, fs1, if cond then e.t + l else e.t, if cond then e.f else e.f + l, cond, x, p, r)
  {
    hide Grown, WF, Exec, RCode, Eval, Meets, Entry, Chose, St, Tests, Pending, Open;
    NotShape(fs0, fs, e);
    var n, i := |fs.code|, Test(fs.code[e.k.pc].b, !cond);
    var fs2 := WithoutNot(fs);
    var (fs1, l) := CondJump(fs2, i);
    WithoutNotGrown(fs0, fs, e);
    ExecFrame(ctx, fs.code, fs2.code, p, n - 1, r);
    CondRun(ctx, fs0, fs2, e, i, p, r);
    CondLeft(fs0, fs2, e, i);
    var n0, o0, o, d := fs0.freereg, Full(ctx, fs0, p, r), Full(ctx, fs2, p, r), Full(ctx, fs1, p, r);
    assert o == Exec(ctx, RCode(fs), p, End(fs, e.k), r);
    hide CondJump, Full;
    if o0.Fall? { ChoseNot(ctx, fs, fs1, e, cond, n0, Eval(ctx.env, x, o0.r), o0.r, o, d); }
  }

  lemma ChoseNot(ctx: Ctx, fs: FS, fs1: FS, e: Exp, cond: bool, n0: nat, res: Option<Value>, r0: Regs, o: Out, d: Out)
    requires e.k.VReloc? && e.k.pc + 1 == |fs.code| && fs.code[e.k.pc].NotR? && Meets(ctx, n0, fs, e, res, r0, o)
    requires |fs1.code| == |fs.code| + 1 && fs1.code[|fs.code| - 1] == Test(fs.code[e.k.pc].b, !cond)
    requires forall j :: j in e.t + e.f ==>
        j < |fs.code| - 1 && TestSetControls(fs1.code, j) == TestSetControls(fs.code[..|fs.code| - 1], j)
        && (TestSetControls(fs1.code, j) ==> fs1.code[j - 1] == fs.code[j - 1])
    requires match o
      case Fall(s) =>
        d == (match Cond(ctx, Test(fs.code[e.k.pc].b, !cond), s)
              case None => Fail
              case Some(b) => if b then Exit(|fs.code|, s) else Fall(s))
      case Stuck => true
      case _ => d == o
    ensures var l := {|fs.code|};
      Chose(fs1, if cond then e.t + l else e.t, if cond then e.f else e.f + l, cond, n0, res, r0, d)
  {}

  /** jumponcond. */
  lemma JumpOnCondSplits(ctx: Ctx, fs0: FS, fs: FS, e: Exp, cond: bool, x: Expr)
    requires Denotes(ctx, fs0, fs, e, x) && Discharged(e.k) && !e.k.VJmp? && JumpOnCond(fs, e, cond).0.k <= ctx.k
    ensures var (fs1, l) := JumpOnCond(fs, e, cond);
      Splits(ctx, fs0, fs1, if cond then e.t + l else e.t, if cond then e.f else e.f + l, cond, x)
  {
    KindBound(ctx, fs0, fs, e, x);
    hide Denotes, Splits;
    if e.k.VReloc? && fs.code[e.k.pc].NotR? {
      NotJump(ctx, fs0, fs, e, cond, x);
    } else {
      var (fs1, e1) := Discharge2AnyReg(fs, e);
      hide Discharge2AnyReg;
      assert JumpOnCond(fs, e, cond).0.k == fs1.k;
      Discharge2AnyRegDen(ctx, fs0, fs, e, x);
      RegJump(ctx, fs0, fs1, e1, cond, x);
    }
  }

  // ---------------------------------------------------------------------
  // Comparisons as conditions

  /** A comparison goes on if it fails. */
  lemma CmpSplits(ctx: Ctx, fs0: FS, fs: FS, e: Exp, x: Expr)
    requires Denotes(ctx, fs0, fs, e, x) && e.k.VJmp?
    ensures Splits(ctx, fs0, fs, e.t + {e.k.j}, e.f, true, x)
  {
    JmpReady(fs0, fs, e);
    assert e.k.j !in e.f && fs.freereg == fs0.freereg;
    hide Grown, TwoLists, SplitAt, DenAt;
    forall p, r | Entry(fs0, p, r) ensures SplitAt(ctx, fs0, fs, e.t + {e.k.j}, e.f, true, x, p, r) {
      DenInst(ctx, fs0, fs, e, x, p, r);
      JmpFullAt(ctx, fs0, fs, e, x, p, r);
      hide *;
      FullSplit(ctx, fs0, fs, e.t + {e.k.j}, e.f, x, p, r);
    }
  }

  lemma FullSplit(ctx: Ctx, fs0: FS, fs: FS, t: set<nat>, f: set<nat>, x: Expr, p: nat, r: Regs)
    requires FullAt(ctx, fs0, fs, true, t, f, x, p, r)
    ensures SplitAt(ctx, fs0, fs, t, f, true, x, p, r)
  {
    hide Full, Eval;
  }

  lemma InvertForm(fs0: FS, fs: FS, e: Exp)
    requires St(fs0, fs, e) && e.k.VJmp?
    ensures var fs1, n := InvertJump(fs, e.k.j), |fs.code|;
      && n >= 2 && e.k.j == n - 1 && fs.code[n - 2].Cmp? && fs.code[n - 1] == Jmp(NO_JUMP) && fs.jpc == {}
      && var i := fs.code[n - 2];
         fs1 == fs.(code := fs.code[n - 2 := Cmp(i.op, !i.cond, i.rb, i.rc)])
  {
    assert e.k.j in Open(fs);
  }

  lemma InvertGrown(fs0: FS, fs: FS, e: Exp)
    requires St(fs0, fs, e) && e.k.VJmp?
    ensures var fs1, n := InvertJump(fs, e.k.j), |fs.code|;
      && St(fs0, fs1, e) && SameExits(fs, e, fs1, e)
      && |fs1.code| == n >= 2 && fs1.code[n - 1] == Jmp(NO_JUMP) && fs1.code[..n - 2] == fs.code[..n - 2]
  {
    var fs1, n := InvertJump(fs, e.k.j), |fs.code|;
    InvertForm(fs0, fs, e);
    hide InvertJump, SameExits;
    assert Pending(fs1.code) == Pending(fs.code);
    assert forall i :: 0 <= i < n ==> IsTest(fs1.code[i]) == IsTest(fs.code[i]);
    assert Tests(fs1.code);
    assert forall j :: j in e.t + e.f ==> j in Open(fs) && j < n - 1;
    CmpExits(fs, fs1, e);
  }

  lemma CmpExits(fs: FS, fs1: FS, e: Exp)
    requires |fs1.code| == |fs.code| >= 2 && fs1.code[..|fs.code| - 2] == fs.code[..|fs.code| - 2]
    requires forall j :: j in e.t + e.f ==> j < |fs.code| - 1
    ensures SameExits(fs, e, fs1, e)
  {
    forall i: nat | i < |fs.code| - 2 ensures fs1.code[i] == fs.code[i] {
      assert fs1.code[..|fs.code| - 2][i] == fs.code[..|fs.code| - 2][i];
    }
  }

  lemma InvertRun(ctx: Ctx, fs0: FS, fs: FS, e: Exp, p: nat, r: Regs)
    requires St(fs0, fs, e) && e.k.VJmp?
    ensures var fs1 := InvertJump(fs, e.k.j);
      && Exec(ctx, RCode(fs1), p, End(fs1, e.k), r) == Exec(ctx, RCode(fs), p, End(fs, e.k), r)
      && forall s :: KindValue(ctx, fs1, e.k, s) ==
             (match KindValue(ctx, fs, e.k, s) case Some(Bool(b)) => Some(Bool(!b)) case o => o)
  {
    var fs1, n := InvertJump(fs, e.k.j), |fs.code|;
    InvertForm(fs0, fs, e);
    RCodeClean(fs);
    RCodeClean(fs1);
    hide Grown, WF, St, RCode;
    ExecFrame(ctx, fs.code, fs1.code, p, n - 2, r);
  }

  /** An inverted comparison goes on if it holds. */
  lemma InvertSplits(ctx: Ctx, fs0: FS, fs: FS, e: Exp, x: Expr)
    requires Denotes(ctx, fs0, fs, e, x) && e.k.VJmp?
    ensures Splits(ctx, fs0, InvertJump(fs, e.k.j), e.t, e.f + {e.k.j}, false, x)
  {
    var fs1, n := InvertJump(fs, e.k.j), |fs.code|;
    InvertForm(fs0, fs, e);
    InvertGrown(fs0, fs, e);
    assert e.t + (e.f + {e.k.j}) == Own(e);
    assert e.k.j !in e.t && fs.freereg == fs0.freereg && e.k.j == n - 1 && fs.jpc == {};
    assert fs1.code[n - 2].Cmp? && fs1.jpc == {};
    RCodeClean(fs1);
    hide Grown, SplitAt, DenAt, InvertJump;
    forall p, r | Entry(fs0, p, r) ensures SplitAt(ctx, fs0, fs1, e.t, e.f + {e.k.j}, false, x, p, r) {
      DenInst(ctx, fs0, fs, e, x, p, r);
      InvertRun(ctx, fs0, fs, e, p, r);
      JmpRun(ctx, fs1.code, p, r);
      hide St;
      InvertAt(ctx, fs0, fs, fs1, e, x, p, r);
    }
  }

  lemma InvertAt(ctx: Ctx, fs0: FS, fs: FS, fs1: FS, e: Exp, x: Expr, p: nat, r: Regs)
    requires e.k.VJmp? && e.k.j + 1 == |fs1.code| && |fs1.code| >= 2 && SameExits(fs, e, fs1, e)
    requires DenAt(ctx, fs0, fs, e, x, p, r) && RCode(fs1) == fs1.code && fs1.code[|fs1.code| - 2].Cmp?
    requires Exec(ctx, RCode(fs1), p, End(fs1, e.k), r) == Exec(ctx, RCode(fs), p, End(fs, e.k), r)
    requires forall s :: (KindValue(ctx, fs1, e.k, s) ==
             (match KindValue(ctx, fs, e.k, s) case Some(Bool(b)) => Some(Bool(!b)) case o => o))
    requires var n := |fs1.code|;
      var o, d := Exec(ctx, fs1.code, p, n - 2, r), Exec(ctx, fs1.code, p, n, r);
      match o
      case Fall(s) =>
        d == (match Cond(ctx, fs1.code[n - 2], s) case None => Fail case Some(b) => if b then Exit(n - 1, s) else Fall(s))
      case Stuck => true
      case _ => d == o
    ensures SplitAt(ctx, fs0, fs1, e.t, e.f + {e.k.j}, false, x, p, r)
  {
    hide Exec, RCode, Eval, Cond;
  }

  // ---------------------------------------------------------------------
  // luaK_goiftrue and luaK_goiffalse

  /** The only constants in sight are strings, which count as true. */
  predicate StrK(fs: FS, e: Exp) { e.k.VK? ==> e.k.info < |fs.k| && fs.k[e.k.info].Str? }

  /** A constant whose truth is known needs no test. */
  lemma ConstSplits(ctx: Ctx, fs0: FS, fs: FS, e: Exp, cond: bool, x: Expr)
    requires Denotes(ctx, fs0, fs, e, x) && StrK(fs, e) && fs.k <= ctx.k && if cond then Falsy(e.k) else Truthy(e.k)
    ensures Splits(ctx, fs0, fs, e.t, e.f, cond, x)
  {
    assert Own(e) == e.t + e.f;
    assert e.k.VK? ==> ctx.k[e.k.info] == fs.k[e.k.info];
    hide Grown;
    forall p, r | Entry(fs0, p, r) ensures SplitAt(ctx, fs0, fs, e.t, e.f, cond, x, p, r) {
      DenInst(ctx, fs0, fs, e, x, p, r);
      hide St, Den, Exec, RCode, Eval, WF;
    }
  }

  lemma GoIfTrueSplits(ctx: Ctx, fs0: FS, fs: FS, e: Exp, x: Expr)
    requires Denotes(ctx, fs0, fs, e, x) && StrK(fs, e) && GoIfTrue(fs, e).0.k <= ctx.k && fs.k <= ctx.k
    ensures var (fs1, e1) := GoIfTrue(fs, e); Splits(ctx, fs0, fs1, {}, e1.f, false, x) && e1.t == {}
  {
    hide St, Den, DischargeVars, JumpOnCond, Splits, InvertJump;
    var (fs1, e1) := DischargeVars(fs, e);
    DischargeVarsDen(ctx, fs0, fs, e, x);
    assert StrK(fs1, e1) by { DischargeKind(fs, e); }
    hide StrK;
    var (fs2, l) :=
      match e1.k
      case VK(_) => (fs1, {})
      case VKNum(_) => (fs1, {})
      case VTrue => (fs1, {})
      case VJmp(j) => (InvertJump(fs1, j), {j})
      case _ => JumpOnCond(fs1, e1, false);
    assert GoIfTrue(fs, e) == (PatchToHere(fs2, e1.t), Exp(e1.k, {}, e1.f + l));
    assert PatchToHere(fs2, e1.t).k == fs2.k;
    hide GoIfTrue, Denotes;
    assert Denotes(ctx, fs0, fs1, e1, x) by { DenotesIntro(ctx, fs0, fs1, e1, x); }
    if Truthy(e1.k) {
      ConstSplits(ctx, fs0, fs1, e1, false, x);
      assert e1.f + {} == e1.f;
    } else if e1.k.VJmp? {
      InvertSplits(ctx, fs0, fs1, e1, x);
    } else {
      JumpOnCondSplits(ctx, fs0, fs1, e1, false, x);
    }
    HereSplits(ctx, fs0, fs2, e1.t, e1.f + l, false, x);
  }

  lemma DenotesIntro(ctx: Ctx, fs0: FS, fs: FS, e: Exp, x: Expr)
    requires St(fs0, fs, e) && Den(ctx, fs0, fs, e, x)
    ensures Denotes(ctx, fs0, fs, e, x)
  {}

  lemma DischargeKind(fs: FS, e: Exp)
    ensures var (fs1, e1) := DischargeVars(fs, e); fs1.k == fs.k && (e1.k.VK? ==> e1.k == e.k)
  {}

  lemma GoIfFalseSplits(ctx: Ctx, fs0: FS, fs: FS, e: Exp, x: Expr)
    requires Denotes(ctx, fs0, fs, e, x) && StrK(fs, e) && GoIfFalse(fs, e).0.k <= ctx.k && fs.k <= ctx.k
    ensures var (fs1, e1) := GoIfFalse(fs, e); Splits(ctx, fs0, fs1, e1.t, {}, true, x) && e1.f == {}
  {
    hide St, Den, DischargeVars, JumpOnCond, Splits;
    var (fs1, e1) := DischargeVars(fs, e);
    DischargeVarsDen(ctx, fs0, fs, e, x);
    assert StrK(fs1, e1) by { DischargeKind(fs, e); }
    hide StrK;
    var (fs2, l) :=
      match e1.k
      case VNil => (fs1, {})
      case VFalse => (fs1, {})
      case VJmp(j) => (fs1, {j})
      case _ => JumpOnCond(fs1, e1, true);
    assert GoIfFalse(fs, e) == (PatchToHere(fs2, e1.f), Exp(e1.k, e1.t + l, {}));
    assert PatchToHere(fs2, e1.f).k == fs2.k;
    hide GoIfFalse, Denotes;
    assert Denotes(ctx, fs0, fs1, e1, x) by { DenotesIntro(ctx, fs0, fs1, e1, x); }
    if Falsy(e1.k) {
      ConstSplits(ctx, fs0, fs1, e1, true, x);
      assert e1.t + {} == e1.t;
    } else if e1.k.VJmp? {
      CmpSplits(ctx, fs0, fs1, e1, x);
    } else {
      JumpOnCondSplits(ctx, fs0, fs1, e1, true, x);
    }
    HereSplits(ctx, fs0, fs2, e1.t + l, e1.f, true, x);
  }
}
