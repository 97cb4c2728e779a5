/** Compiling an expression preserves its meaning. */
module LuaCodeCompile {
  import opened Options
  import opened LuaVM
  import opened LuaCode
  import opened LuaCodeExec
  import opened LuaCodeShape
  import opened LuaCodeDen
  import opened LuaCodeReg
  import opened LuaCodeUse
  import opened LuaCodeCond
  import opened LuaCodeNot

  /** Every local of the expression is an active variable. */
  predicate Scoped(x: Expr, n: nat) {
    match x
    case ELocal(r) => r < n
    case EParen(e) => Scoped(e, n)
    case ENot(e) => Scoped(e, n)
    case EBin(_, a, b) => Scoped(a, n) && Scoped(b, n)
    case _ => true
  }

  lemma {:induction false} EvalAgree(env: Env, x: Expr, n: nat, r: Regs, s: Regs)
    requires Scoped(x, n) && Agree(r, s, n)
    ensures Eval(env, x, r) == Eval(env, x, s)
  {
    match x
    case EParen(e) => EvalAgree(env, e, n, r, s);
    case ENot(e) => EvalAgree(env, e, n, r, s);
    case EBin(_, a, b) => EvalAgree(env, a, n, r, s); EvalAgree(env, b, n, r, s);
    case _ =>
  }

  /** A starting point stays one as code is added. */
  lemma EntryLater(fs0: FS, fs: FS, own: set<nat>, p: nat, r: Regs)
    requires Grown(fs0, fs, own) && Entry(fs0, p, r)
    ensures Entry(fs, p, r)
  {}

  // ---------------------------------------------------------------------
  // `and` and `or`

  /** The exits of the first operand join those of the second. */
  function Joined(e: Exp, t: set<nat>, f: set<nat>): Exp { Exp(e.k, e.t + t, e.f + f) }

  lemma JoinSt(fs0: FS, fs1: FS, fs2: FS, e: Exp, t: set<nat>, f: set<nat>)
    requires WF(fs0) && Grown(fs0, fs1, t + f) && t !! f && fs1.freereg == fs0.freereg && St(fs1, fs2, e)
    ensures St(fs0, fs2, Joined(e, t, f))
  {
    GrownTrans(fs0, fs1, fs2, t + f, Own(e));
    assert Own(Joined(e, t, f)) == t + f + Own(e);
    assert forall j :: j in t + f ==> j < |fs1.code|;
  }

  lemma JoinExits(fs1: FS, fs2: FS, own: set<nat>, j: nat)
    requires WF(fs1) && Grown(fs1, fs2, own) && j in Open(fs1)
    ensures TestSetControls(fs2.code, j) == TestSetControls(fs1.code, j)
    ensures TestSetControls(fs1.code, j) ==> fs2.code[j - 1] == fs1.code[j - 1]
  {}

  /** `a and b` if `cond` is false, `a or b` if it is true. */
  function Join(cond: bool, a: Expr, b: Expr): Expr { EBin(if cond then Or else And, a, b) }

  lemma JoinAt(ctx: Ctx, fs0: FS, fs1: FS, fs2: FS, e: Exp, t: set<nat>, f: set<nat>, cond: bool, a: Expr, b: Expr,
               p: nat, r: Regs)
    requires Splits(ctx, fs0, fs1, t, f, cond, a) && Denotes(ctx, fs1, fs2, e, b) && Scoped(b, fs0.nactvar)
    requires (if cond then f == {} else t == {}) && Entry(fs0, p, r)
    ensures DenAt(ctx, fs0, fs2, Joined(e, t, f), Join(cond, a, b), p, r)
  {
    assert Joined(e, t, f).k == e.k;
    hide *;
    EndSame(fs2, fs2, e.k);
    var n0, o0, o := fs0.freereg, Full(ctx, fs0, p, r), Full(ctx, fs1, p, r);
    SplitsFacts(ctx, fs0, fs1, t, f, cond, a, p, r);
    DenotesAt(ctx, fs1, fs2, e, b, p, r);
    if o.Exit? && (o.j in t || o.j in f) { JoinExits(fs1, fs2, Own(e), o.j); }
    JoinParts(ctx, fs0, fs1, fs2, e, t, f, cond, a, b, p, r);
    if o0.Fall? {
      EvalJoin(ctx.env, cond, a, b, o0.r);
      JoinMeets(ctx, n0, fs1, fs2, e, t, f, cond, Eval(ctx.env, a, o0.r), Eval(ctx.env, b, o0.r),
                Eval(ctx.env, Join(cond, a, b), o0.r), o0.r, o, Exec(ctx, RCode(fs2), p, End(fs2, e.k), r));
    }
    JoinedAt(ctx, fs0, fs2, Joined(e, t, f), Join(cond, a, b), e.k, p, r);
  }

  lemma JoinedAt(ctx: Ctx, fs0: FS, fs: FS, e: Exp, x: Expr, k: Kind, p: nat, r: Regs)
    requires e.k == k
    requires var o0, d := Full(ctx, fs0, p, r), Exec(ctx, RCode(fs), p, End(fs, k), r);
      && (o0.Fall? ==> Meets(ctx, fs0.freereg, fs, e, Eval(ctx.env, x, o0.r), o0.r, d))
      && (o0.Exit? || o0.Fail? ==> d == o0)
    ensures DenAt(ctx, fs0, fs, e, x, p, r)
  {
    hide Full, Exec, RCode, Eval, Meets;
  }

  lemma EvalJoin(env: Env, cond: bool, a: Expr, b: Expr, r: Regs)
    ensures var v, w := Eval(env, a, r), Eval(env, b, r);
      Eval(env, Join(cond, a, b), r) == if v.None? then None else if IsFalse(v.value) == cond then w else v
  {}

  lemma SplitsFacts(ctx: Ctx, fs0: FS, fs1: FS, t: set<nat>, f: set<nat>, cond: bool, a: Expr, p: nat, r: Regs)
    requires Splits(ctx, fs0, fs1, t, f, cond, a) && Entry(fs0, p, r)
    ensures SplitAt(ctx, fs0, fs1, t, f, cond, a, p, r) && Entry(fs1, p, r) && WF(fs1)
    ensures fs0.nactvar <= fs0.freereg == fs1.freereg
    ensures forall j: nat :: j in t || j in f ==> j in Open(fs1)
  {
    EntryLater(fs0, fs1, t + f, p, r);
  }

  lemma DenotesAt(ctx: Ctx, fs0: FS, fs: FS, e: Exp, x: Expr, p: nat, r: Regs)
    requires Denotes(ctx, fs0, fs, e, x) && Entry(fs0, p, r)
    ensures DenAt(ctx, fs0, fs, e, x, p, r) && Grown(fs0, fs, Own(e))
  {}

  /** The run of both operands, piece by piece. */
  lemma JoinParts(ctx: Ctx, fs0: FS, fs1: FS, fs2: FS, e: Exp, t: set<nat>, f: set<nat>, cond: bool, a: Expr, b: Expr,
                  p: nat, r: Regs)
    requires SplitAt(ctx, fs0, fs1, t, f, cond, a, p, r) && DenAt(ctx, fs1, fs2, e, b, p, r)
    requires Scoped(b, fs0.nactvar) && fs0.nactvar <= fs0.freereg == fs1.freereg
    ensures var o0, o := Full(ctx, fs0, p, r), Full(ctx, fs1, p, r);
      var d := Exec(ctx, RCode(fs2), p, End(fs2, e.k), r);
      && (o0.Fall? ==> Chose(fs1, t, f, cond, fs0.freereg, Eval(ctx.env, a, o0.r), o0.r, o))
      && (o0.Exit? || o0.Fail? ==> o == o0)
      && (o.Exit? || o.Fail? ==> d == o)
      && (o0.Fall? && o.Fall? ==> Meets(ctx, fs0.freereg, fs2, e, Eval(ctx.env, b, o0.r), o.r, d))
  {
    var o0, o := Full(ctx, fs0, p, r), Full(ctx, fs1, p, r);
    if o0.Fall? && o.Fall? {
      assert Agree(o0.r, o.r, fs0.freereg);
      EvalAgree(ctx.env, b, fs0.nactvar, o0.r, o.r);
    }
    hide Full, Exec, RCode, Eval, Meets, Scoped;
  }

  lemma JoinMeets(ctx: Ctx, n0: nat, fs1: FS, fs2: FS, e: Exp, t: set<nat>, f: set<nat>, cond: bool,
                  v: Option<Value>, w: Option<Value>, res: Option<Value>, r0: Regs, o: Out, d: Out)
    requires Chose(fs1, t, f, cond, n0, v, r0, o) && if cond then f == {} else t == {}
    requires o.Exit? ==> d == o
    requires o.Fail? ==> d == o
    requires o.Fall? ==> Meets(ctx, n0, fs2, e, w, o.r, d)
    requires res == if v.None? then None else if IsFalse(v.value) == cond then w else v
    requires o.Exit? && (o.j in t || o.j in f) ==>
      TestSetControls(fs2.code, o.j) == TestSetControls(fs1.code, o.j)
      && (TestSetControls(fs1.code, o.j) ==> fs2.code[o.j - 1] == fs1.code[o.j - 1])
    ensures Meets(ctx, n0, fs2, Joined(e, t, f), res, r0, d)
  {}

  /** luaK_posfix for `and` and `or`. */
  lemma JoinDen(ctx: Ctx, fs0: FS, fs1: FS, fs2: FS, e: Exp, t: set<nat>, f: set<nat>, cond: bool, a: Expr, b: Expr)
    requires Splits(ctx, fs0, fs1, t, f, cond, a) && Denotes(ctx, fs1, fs2, e, b) && Scoped(b, fs0.nactvar)
    requires if cond then f == {} else t == {}
    ensures var (fs3, e3) := DischargeVars(fs2, e);
      && Denotes(ctx, fs0, fs3, Joined(e3, t, f), Join(cond, a, b))
      && fs3.k == fs2.k && (e3.k.VK? ==> e3.k == e.k)
  {
    var (fs3, e3) := DischargeVars(fs2, e);
    DischargeVarsDen(ctx, fs1, fs2, e, b);
    DischargeKind(fs2, e);
    hide DischargeVars;
    JoinSt(fs0, fs1, fs3, e3, t, f);
    assert Denotes(ctx, fs1, fs3, e3, b);
    hide *;
    forall p, r | Entry(fs0, p, r) ensures DenAt(ctx, fs0, fs3, Joined(e3, t, f), Join(cond, a, b), p, r) {
      JoinAt(ctx, fs0, fs1, fs3, e3, t, f, cond, a, b, p, r);
    }
    SwapAll(ctx, fs0, fs3, Joined(e3, t, f), Join(cond, a, b));
  }

  // ---------------------------------------------------------------------
  // Comparisons

  function CmpOf(op: BinOp): CmpOp
    requires op != And && op != Or
  {
    match op
    case Eq => CmpOp.EQ
    case Ne => CmpOp.EQ
    case Lt => CmpOp.LT
    case Le => CmpOp.LE
    case Gt => CmpOp.LT
    case Ge => CmpOp.LE
  }

  predicate CondOf(op: BinOp) { op == Eq || op == Lt || op == Le }

  /** The comparison instruction for two operands. */
  function CmpInstr(op: BinOp, a: RK, b: RK): Instr
    requires op != And && op != Or
  {
    if op == Gt || op == Ge then Cmp(CmpOf(op), true, b, a) else Cmp(CmpOf(op), CondOf(op), a, b)
  }

  lemma CodeCompForm(ctx: Ctx, fs0: FS, fs1: FS, fs2: FS, op: BinOp, e1: Exp, e2: Exp, a: Expr)
    requires op != And && op != Or && Denotes(ctx, fs0, fs1, e1, a) && InRK(fs1, e1)
    ensures var (fs3, x2) := Exp2RK(fs2, e2);
      var fs4 := FreeExp(FreeExp(fs3, x2), e1);
      var (fs5, l) := CondJump(fs4, CmpInstr(op, Operand(e1), Operand(x2)));
      Posfix(fs2, op, e1, e2) == (fs5, Exp(VJmp(|fs5.code| - 1), {}, {}))
  {
    SecondRK(fs2, e1);
    hide Exp2RK, FreeExp, CondJump, Denotes;
  }

  /** luaK_exp2RK does nothing the second time. */
  lemma SecondRK(fs: FS, e: Exp)
    requires e.t == {} == e.f && (e.k.VNonReloc? || (e.k.VK? && e.k.info <= MAXINDEXRK))
    ensures Exp2RK(fs, e) == (fs, e)
  {}

  /** The operands of a comparison, when it is reached. */
  lemma OperandValue(ctx: Ctx, fs: FS, e: Exp, s: Regs)
    requires InRK(fs, e)
    ensures RKValue(ctx, s, Operand(e)) == KindValue(ctx, fs, e.k, s)
  {}

  /** Both operands are at hand. */
  ghost predicate BothAt(ctx: Ctx, n0: nat, va: Option<Value>, vb: Option<Value>, o1: RK, o2: RK, r0: Regs, o: Out) {
    match o
    case Fall(s) => Agree(r0, s, n0) && va.Some? && RKValue(ctx, s, o1) == va && RKValue(ctx, s, o2) == vb
    case Exit(_, _) => false
    case Fail => va.None? || vb.None?
    case Stuck => false
  }

  lemma BothMeet(ctx: Ctx, fs0: FS, fs1: FS, fs2: FS, e1: Exp, e2: Exp, a: Expr, b: Expr, p: nat, r: Regs)
    requires Denotes(ctx, fs0, fs1, e1, a) && InRK(fs1, e1) && fs1.k <= ctx.k
    requires Denotes(ctx, fs1, fs2, e2, b) && InRK(fs2, e2) && fs2.k <= ctx.k
    requires Scoped(b, fs0.nactvar) && Entry(fs0, p, r)
    ensures var o0, o := Full(ctx, fs0, p, r), Full(ctx, fs2, p, r);
      && (o0.Fall? ==> BothAt(ctx, fs0.freereg, Eval(ctx.env, a, o0.r), Eval(ctx.env, b, o0.r),
                              Operand(e1), Operand(e2), o0.r, o))
      && (o0.Exit? || o0.Fail? ==> o == o0)
  {
    hide *;
    var o0, o1, o := Full(ctx, fs0, p, r), Full(ctx, fs1, p, r), Full(ctx, fs2, p, r);
    DenotesSt(ctx, fs0, fs1, e1, a);
    DenotesAt(ctx, fs0, fs1, e1, a, p, r);
    EntryLater(fs0, fs1, Own(e1), p, r);
    DenotesAt(ctx, fs1, fs2, e2, b, p, r);
    RunOf(ctx, fs0, fs1, e1, a, p, r);
    RunOf(ctx, fs1, fs2, e2, b, p, r);
    if o0.Fall? {
      if o1.Fall? {
        MeetsAgree(ctx, fs0.freereg, fs1, e1, Eval(ctx.env, a, o0.r), o0.r, o1);
        AgreeLess(o0.r, o1.r, fs0.nactvar, fs0.freereg);
        EvalAgree(ctx.env, b, fs0.nactvar, o0.r, o1.r);
        if o.Fall? {
          MeetsAgree(ctx, fs1.freereg, fs2, e2, Eval(ctx.env, b, o1.r), o1.r, o);
          OperandKept(ctx, fs0, fs1, e1, o1.r, o.r);
        }
      }
      StRegs(fs0, fs1, e1);
      TwoRuns(ctx, fs0.freereg, fs1, fs2, e1, e2, Eval(ctx.env, a, o0.r), Eval(ctx.env, b, o0.r), o0.r, o1, o);
    }
  }

  lemma StRegs(fs0: FS, fs: FS, e: Exp)
    requires St(fs0, fs, e)
    ensures fs0.freereg <= fs.freereg
  {}

  lemma AgreeLess(r: Regs, s: Regs, m: nat, n: nat)
    requires Agree(r, s, n) && m <= n
    ensures Agree(r, s, m)
  {}

  /** A descriptor that stands at the end of the code. */
  lemma RunOf(ctx: Ctx, fs0: FS, fs: FS, e: Exp, x: Expr, p: nat, r: Regs)
    requires DenAt(ctx, fs0, fs, e, x, p, r) && InRK(fs, e)
    ensures var o0, o := Full(ctx, fs0, p, r), Full(ctx, fs, p, r);
      && (o0.Fall? ==> Meets(ctx, fs0.freereg, fs, e, Eval(ctx.env, x, o0.r), o0.r, o))
      && (o0.Exit? || o0.Fail? ==> o == o0)
  {
    hide Exec, RCode, Eval, Meets;
  }

  lemma MeetsAgree(ctx: Ctx, n0: nat, fs: FS, e: Exp, res: Option<Value>, r0: Regs, o: Out)
    requires Meets(ctx, n0, fs, e, res, r0, o) && o.Fall?
    ensures Agree(r0, o.r, n0)
  {}

  lemma TwoRuns(ctx: Ctx, n0: nat, fs1: FS, fs2: FS, e1: Exp, e2: Exp, va: Option<Value>, vb: Option<Value>, r0: Regs,
                o1: Out, o: Out)
    requires InRK(fs1, e1) && InRK(fs2, e2) && fs1.k <= ctx.k && fs2.k <= ctx.k && n0 <= fs1.freereg
    requires Meets(ctx, n0, fs1, e1, va, r0, o1)
    requires o1.Fall? ==> Meets(ctx, fs1.freereg, fs2, e2, vb, o1.r, o)
    requires o1.Fail? ==> o == o1
    requires o1.Fall? && o.Fall? ==> RKValue(ctx, o.r, Operand(e1)) == RKValue(ctx, o1.r, Operand(e1))
    ensures BothAt(ctx, n0, va, vb, Operand(e1), Operand(e2), r0, o)
  {
    if o1.Fall? { OperandValue(ctx, fs1, e1, o1.r); }
    if o.Fall? { OperandValue(ctx, fs2, e2, o.r); }
    hide Operand, RKValue;
  }

  /** The first operand survives the evaluation of the second. */
  lemma OperandKept(ctx: Ctx, fs0: FS, fs1: FS, e: Exp, s: Regs, s1: Regs)
    requires St(fs0, fs1, e) && InRK(fs1, e) && Agree(s, s1, fs1.freereg)
    ensures RKValue(ctx, s1, Operand(e)) == RKValue(ctx, s, Operand(e))
  {}

  /** The instruction computes the comparison of the source. */
  lemma CmpValue(ctx: Ctx, op: BinOp, o1: RK, o2: RK, v: Value, w: Value, s: Regs)
    requires op != And && op != Or && RKValue(ctx, s, o1) == Some(v) && RKValue(ctx, s, o2) == Some(w)
    ensures var c := Cond(ctx, CmpInstr(op, o1, o2), s);
      Compare(ctx.env, op, v, w) == if c.None? then None else Some(Bool(c.value))
  {}

  lemma BothMeets(ctx: Ctx, n0: nat, fs: FS, op: BinOp, va: Option<Value>, vb: Option<Value>, o1: RK, o2: RK, r0: Regs,
                  o: Out)
    requires op != And && op != Or && BothAt(ctx, n0, va, vb, o1, o2, r0, o)
    requires |fs.code| >= 2 && fs.code[|fs.code| - 2] == CmpInstr(op, o1, o2)
    requires vb.None? ==> forall s :: RKValue(ctx, s, o2).Some?
    ensures Meets(ctx, n0, fs, Exp(VJmp(|fs.code| - 1), {}, {}),
                  if va.None? || vb.None? then None else Compare(ctx.env, op, va.value, vb.value), r0, o)
  {
    if o.Fall? { CmpValue(ctx, op, o1, o2, va.value, vb.value, o.r); }
  }

  lemma RKTotal(ctx: Ctx, fs: FS, e: Exp)
    requires InRK(fs, e) && fs.k <= ctx.k
    ensures forall s :: RKValue(ctx, s, Operand(e)).Some?
  {}

  lemma EvalCmp(env: Env, op: BinOp, a: Expr, b: Expr, r: Regs)
    requires op != And && op != Or
    ensures var v, w := Eval(env, a, r), Eval(env, b, r);
      Eval(env, EBin(op, a, b), r) == if v.None? || w.None? then None else Compare(env, op, v.value, w.value)
  {}

  lemma CmpSt(fs0: FS, fs1: FS, fs3: FS, e1: Exp, x2: Exp, i: Instr)
    requires St(fs0, fs1, e1) && St(fs1, fs3, x2) && InRK(fs1, e1) && InRK(fs3, x2) && IsTest(i) && i.Cmp?
    ensures var fs4 := FreeExp(FreeExp(fs3, x2), e1);
      var fs5 := CondJump(fs4, i).0;
      && fs4 == fs3.(freereg := fs0.freereg)
      && |fs5.code| == |fs4.code| + 2 && fs5.code == RCode(fs4) + [i] + [Jmp(NO_JUMP)] && fs5.jpc == {}
      && fs5.k == fs3.k
      && St(fs0, fs5, Exp(VJmp(|fs5.code| - 1), {}, {}))
  {
    FreeForm(fs1, fs3, x2);
    var fs4 := FreeExp(FreeExp(fs3, x2), e1);
    var fs5, e5 := CondJump(fs4, i).0, Exp(VJmp(|CondJump(fs4, i).0.code| - 1), {}, {});
    assert Own(e1) == {} && Own(x2) == {};
    GrownTrans(fs0, fs1, fs3, {}, {});
    RegsGrown(fs0, fs3, {}, fs0.freereg, fs3.k);
    CondJumpGrown(fs0, fs4, {}, i);
    assert Own(e5) == {} + {|fs4.code| + 1};
    hide Grown, CondJump;
    assert fs5.freereg == fs0.freereg by { CondJumpRegs(fs4, i); }
    assert fs5.code[|fs5.code| - 2] == i;
  }

  lemma CondJumpRegs(fs: FS, i: Instr)
    ensures CondJump(fs, i).0.freereg == fs.freereg && CondJump(fs, i).0.k == fs.k
  {}

  /** One run of a comparison. */
  lemma CmpAt(ctx: Ctx, fs0: FS, fs1: FS, fs3: FS, fs5: FS, op: BinOp, e1: Exp, x2: Exp, a: Expr, b: Expr, p: nat,
              r: Regs)
    requires op != And && op != Or && Scoped(b, fs0.nactvar) && Entry(fs0, p, r)
    requires Denotes(ctx, fs0, fs1, e1, a) && InRK(fs1, e1) && fs1.k <= ctx.k
    requires Denotes(ctx, fs1, fs3, x2, b) && InRK(fs3, x2) && fs3.k <= ctx.k
    requires fs5.jpc == {} && fs5.code == RCode(fs3) + [CmpInstr(op, Operand(e1), Operand(x2))] + [Jmp(NO_JUMP)]
    ensures DenAt(ctx, fs0, fs5, Exp(VJmp(|fs5.code| - 1), {}, {}), EBin(op, a, b), p, r)
  {
    var e5, n := Exp(VJmp(|fs5.code| - 1), {}, {}), |fs5.code|;
    var o1, o2 := Operand(e1), Operand(x2);
    assert End(fs5, e5.k) == |fs3.code| && fs5.code[n - 2] == CmpInstr(op, o1, o2);
    assert Full(ctx, fs3, p, r) == Exec(ctx, RCode(fs3), p, |fs3.code|, r);
    hide *;
    RCodeClean(fs5);
    BothMeet(ctx, fs0, fs1, fs3, e1, x2, a, b, p, r);
    ExecFrame(ctx, RCode(fs3), fs5.code, p, |fs3.code|, r);
    RKTotal(ctx, fs3, x2);
    var o0, o := Full(ctx, fs0, p, r), Full(ctx, fs3, p, r);
    if o0.Fall? {
      EvalCmp(ctx.env, op, a, b, o0.r);
      BothMeets(ctx, fs0.freereg, fs5, op, Eval(ctx.env, a, o0.r), Eval(ctx.env, b, o0.r), o1, o2, o0.r, o);
    }
    JoinedAt(ctx, fs0, fs5, e5, EBin(op, a, b), e5.k, p, r);
  }

  lemma CompK(fs: FS, fs3: FS, x2: Exp, e1: Exp, i: Instr)
    ensures FreeExp(FreeExp(fs3, x2), e1).k == fs3.k && RCode(FreeExp(FreeExp(fs3, x2), e1)) == RCode(fs3)
    ensures CondJump(FreeExp(FreeExp(fs3, x2), e1), i).0.k == fs3.k
  {
    var fs4 := FreeExp(FreeExp(fs3, x2), e1);
    assert fs4 == fs3.(freereg := fs4.freereg);
    CondJumpRegs(fs4, i);
  }

  lemma CmpIsTest(op: BinOp, a: RK, b: RK)
    requires op != And && op != Or
    ensures CmpInstr(op, a, b).Cmp? && IsTest(CmpInstr(op, a, b))
  {}

  /** luaK_posfix for a comparison. */
  lemma CodeCompDen(ctx: Ctx, fs0: FS, fs1: FS, fs2: FS, op: BinOp, e1: Exp, e2: Exp, a: Expr, b: Expr)
    requires op != And && op != Or && Denotes(ctx, fs0, fs1, e1, a) && InRK(fs1, e1)
    requires Denotes(ctx, fs1, fs2, e2, b) && Scoped(b, fs0.nactvar) && Posfix(fs2, op, e1, e2).0.k <= ctx.k
    ensures var (fs5, e5) := Posfix(fs2, op, e1, e2); Denotes(ctx, fs0, fs5, e5, EBin(op, a, b)) && !e5.k.VK?
  {
    var (fs3, x2) := Exp2RK(fs2, e2);
    var i := CmpInstr(op, Operand(e1), Operand(x2));
    hide *;
    CmpIsTest(op, Operand(e1), Operand(x2));
    CodeCompForm(ctx, fs0, fs1, fs2, op, e1, e2, a);
    var fs5, e5 := CondJump(FreeExp(FreeExp(fs3, x2), e1), i).0, Posfix(fs2, op, e1, e2).1;
    CompK(fs2, fs3, x2, e1, i);
    Exp2RKDen(ctx, fs1, fs2, e2, b);
    DenotesSt(ctx, fs0, fs1, e1, a);
    DenotesSt(ctx, fs1, fs3, x2, b);
    CmpSt(fs0, fs1, fs3, e1, x2, i);
    forall p, r | Entry(fs0, p, r) ensures DenAt(ctx, fs0, fs5, e5, EBin(op, a, b), p, r) {
      CmpAt(ctx, fs0, fs1, fs3, fs5, op, e1, x2, a, b, p, r);
    }
    SwapAll(ctx, fs0, fs5, e5, EBin(op, a, b));
  }

  lemma DenotesSt(ctx: Ctx, fs0: FS, fs: FS, e: Exp, x: Expr)
    requires Denotes(ctx, fs0, fs, e, x)
    ensures St(fs0, fs, e) && WF(fs) && fs0.k <= fs.k && fs0.nactvar == fs.nactvar && fs0.nactvar <= fs0.freereg
  {}

  // ---------------------------------------------------------------------
  // Constants only ever get added

  lemma GoIfK(fs: FS, e: Exp)
    ensures fs.k <= GoIfTrue(fs, e).0.k && fs.k <= GoIfFalse(fs, e).0.k
  {
    hide Discharge2Reg, RCode;
    var (fs1, e1) := DischargeVars(fs, e);
    RegK(Reserve(fs1, 1), e1, fs1.freereg);
    assert fs.k <= JumpOnCond(fs1, e1, false).0.k && fs.k <= JumpOnCond(fs1, e1, true).0.k;
    hide JumpOnCond;
  }

  lemma InfixK(fs: FS, op: BinOp, e: Exp)
    ensures fs.k <= Infix(fs, op, e).0.k
  {
    hide GoIfTrue, GoIfFalse, Exp2RK;
    GoIfK(fs, e);
    RKK(fs, e);
  }

  lemma CodeNotK(fs: FS, e: Exp)
    ensures fs.k <= CodeNot(fs, e).0.k
  {
    hide Discharge2Reg, RCode;
    var (fs1, e1) := DischargeVars(fs, e);
    RegK(Reserve(fs1, 1), e1, fs1.freereg);
  }

  lemma CodeCompK(fs: FS, op: CmpOp, cond: bool, e1: Exp, e2: Exp)
    ensures fs.k <= CodeComp(fs, op, cond, e1, e2).0.k
  {
    hide Exp2RK, CondJump;
    var (fs1, x1) := Exp2RK(fs, e1);
    var (fs2, x2) := Exp2RK(fs1, e2);
    RKK(fs, e1);
    RKK(fs1, e2);
    var fs3 := FreeExp(FreeExp(fs2, x2), x1);
    var o1, o2 := Operand(x1), Operand(x2);
    CondJumpRegs(fs3, if !cond && op != EQ then Cmp(op, true, o2, o1) else Cmp(op, cond, o1, o2));
  }

  lemma PosfixK(fs: FS, op: BinOp, e1: Exp, e2: Exp)
    ensures fs.k <= Posfix(fs, op, e1, e2).0.k
  {
    hide CodeComp, RCode;
    match op
    case And => case Or =>
    case Eq => CodeCompK(fs, CmpOp.EQ, true, e1, e2);
    case Ne => CodeCompK(fs, CmpOp.EQ, false, e1, e2);
    case Lt => CodeCompK(fs, CmpOp.LT, true, e1, e2);
    case Le => CodeCompK(fs, CmpOp.LE, true, e1, e2);
    case Gt => CodeCompK(fs, CmpOp.LT, false, e1, e2);
    case Ge => CodeCompK(fs, CmpOp.LE, false, e1, e2);
  }

  lemma {:induction false} CompileK(fs: FS, x: Expr)
    ensures fs.k <= Compile(fs, x).0.k
    decreases x
  {
    hide CodeNot, Infix, Posfix, RCode;
    match x
    case EParen(e) => CompileK(fs, e);
    case ENot(e) =>
      CompileK(fs, e);
      CodeNotK(Compile(fs, e).0, Compile(fs, e).1);
    case EBin(op, a, b) =>
      var (fs1, e1) := Compile(fs, a);
      var (fs2, e2) := Infix(fs1, op, e1);
      var (fs3, e3) := Compile(fs2, b);
      CompileK(fs, a);
      InfixK(fs1, op, e1);
      CompileK(fs2, b);
      PosfixK(fs3, op, e2, e3);
    case _ =>
  }

  // ---------------------------------------------------------------------
  // The theorem

  lemma StrDen(ctx: Ctx, fs: FS, v: string)
    requires WF(fs) && AddK(fs, Str(v)).0.k <= ctx.k
    ensures var (fs1, i) := AddK(fs, Str(v)); Denotes(ctx, fs, fs1, Exp(VK(i), {}, {}), EStr(v))
  {
    var (fs1, i) := AddK(fs, Str(v));
    GrownRefl(fs);
    RegsGrown(fs, fs, {}, fs.freereg, fs1.k);
    assert fs1 == fs.(freereg := fs.freereg, k := fs1.k);
    assert RCode(fs1) == RCode(fs);
    hide Grown, AddK;
  }

  lemma ParenDen(ctx: Ctx, fs0: FS, fs: FS, e: Exp, x: Expr)
    requires Denotes(ctx, fs0, fs, e, x)
    ensures Denotes(ctx, fs0, fs, e, EParen(x))
  {
    hide St, Exec, RCode;
    forall p, r | Entry(fs0, p, r) ensures DenAt(ctx, fs0, fs, e, EParen(x), p, r) {
      DenInst(ctx, fs0, fs, e, x, p, r);
    }
  }

  predicate IsAtom(x: Expr) { !x.EStr? && !x.EParen? && !x.ENot? && !x.EBin? }

  lemma AtomCase(ctx: Ctx, fs: FS, x: Expr)
    requires WF(fs) && IsAtom(x) && Scoped(x, fs.nactvar)
    ensures var (fs1, e1) := Compile(fs, x); Denotes(ctx, fs, fs1, e1, x) && StrK(fs1, e1)
  {
    AtomDen(ctx, fs, Compile(fs, x).1.k, x);
  }

  lemma SplitsWF(ctx: Ctx, fs0: FS, fs: FS, t: set<nat>, f: set<nat>, cond: bool, x: Expr)
    requires Splits(ctx, fs0, fs, t, f, cond, x)
    ensures WF(fs) && fs.nactvar == fs0.nactvar
  {}

  /** Compiling an expression yields code and a descriptor that denote it. */
  lemma {:induction false} CompileDen(ctx: Ctx, fs: FS, x: Expr)
    requires WF(fs) && Scoped(x, fs.nactvar) && Compile(fs, x).0.k <= ctx.k
    ensures var (fs1, e1) := Compile(fs, x); Denotes(ctx, fs, fs1, e1, x) && StrK(fs1, e1)
    decreases x, 1
  {
    hide WF, Denotes, CodeNot, Infix, Posfix;
    match x
    case EStr(v) => StrDen(ctx, fs, v);
    case EParen(e) =>
      var (fs1, e1) := Compile(fs, e);
      DischargeKind(fs1, e1);
      CompileDen(ctx, fs, e);
      DischargeDenotes(ctx, fs, fs1, e1, e);
      ParenDen(ctx, fs, DischargeVars(fs1, e1).0, DischargeVars(fs1, e1).1, e);
    case ENot(e) =>
      var (fs1, e1) := Compile(fs, e);
      CodeNotK(fs1, e1);
      CompileDen(ctx, fs, e);
      CodeNotDen(ctx, fs, fs1, e1, e);
    case EBin(op, a, b) => CompileBin(ctx, fs, op, a, b);
    case _ => AtomCase(ctx, fs, x);
  }

  lemma DischargeDenotes(ctx: Ctx, fs0: FS, fs: FS, e: Exp, x: Expr)
    requires Denotes(ctx, fs0, fs, e, x)
    ensures Denotes(ctx, fs0, DischargeVars(fs, e).0, DischargeVars(fs, e).1, x)
  {
    hide St, Den;
    DischargeVarsDen(ctx, fs0, fs, e, x);
  }

  lemma BinForm(fs: FS, op: BinOp, a: Expr, b: Expr)
    ensures var (fs1, e1) := Compile(fs, a);
      var (fs2, e2) := Infix(fs1, op, e1);
      var (fs3, e3) := Compile(fs2, b);
      && Compile(fs, EBin(op, a, b)) == Posfix(fs3, op, e2, e3)
      && (op == And ==> (fs2, e2) == GoIfTrue(fs1, e1))
      && (op == Or ==> (fs2, e2) == GoIfFalse(fs1, e1))
      && (op != And && op != Or ==> (fs2, e2) == Exp2RK(fs1, e1))
    ensures forall n: nat :: Scoped(EBin(op, a, b), n) ==> Scoped(a, n) && Scoped(b, n)
  {
    hide Posfix, GoIfTrue, GoIfFalse, Exp2RK;
  }

  lemma {:induction false} CompileBin(ctx: Ctx, fs: FS, op: BinOp, a: Expr, b: Expr)
    requires WF(fs) && Scoped(EBin(op, a, b), fs.nactvar) && Compile(fs, EBin(op, a, b)).0.k <= ctx.k
    ensures var (fs4, e4) := Compile(fs, EBin(op, a, b)); Denotes(ctx, fs, fs4, e4, EBin(op, a, b)) && StrK(fs4, e4)
    decreases EBin(op, a, b), 0
  {
    var (fs1, e1) := Compile(fs, a);
    var (fs2, e2) := Infix(fs1, op, e1);
    var (fs3, e3) := Compile(fs2, b);
    hide *;
    BinForm(fs, op, a, b);
    CompileK(fs, a);
    InfixK(fs1, op, e1);
    CompileK(fs2, b);
    PosfixK(fs3, op, e2, e3);
    CompileDen(ctx, fs, a);
    if op == And {
      GoIfTrueSplits(ctx, fs, fs1, e1, a);
      SplitsWF(ctx, fs, fs2, {}, e2.f, false, a);
      CompileDen(ctx, fs2, b);
      JoinPosfix(ctx, fs, fs2, fs3, e2, e3, false, a, b);
    } else if op == Or {
      GoIfFalseSplits(ctx, fs, fs1, e1, a);
      SplitsWF(ctx, fs, fs2, e2.t, {}, true, a);
      CompileDen(ctx, fs2, b);
      JoinPosfix(ctx, fs, fs2, fs3, e2, e3, true, a, b);
    } else {
      Exp2RKDen(ctx, fs, fs1, e1, a);
      DenotesSt(ctx, fs, fs2, e2, a);
      CompileDen(ctx, fs2, b);
      CodeCompDen(ctx, fs, fs2, fs3, op, e2, e3, a, b);
      NoConst(Posfix(fs3, op, e2, e3).0, Posfix(fs3, op, e2, e3).1);
    }
  }

  lemma NoConst(fs: FS, e: Exp)
    requires !e.k.VK?
    ensures StrK(fs, e)
  {}

  lemma JoinPosfix(ctx: Ctx, fs: FS, fs2: FS, fs3: FS, e2: Exp, e3: Exp, cond: bool, a: Expr, b: Expr)
    requires Splits(ctx, fs, fs2, if cond then e2.t else {}, if cond then {} else e2.f, cond, a)
    requires Denotes(ctx, fs2, fs3, e3, b) && StrK(fs3, e3) && Scoped(b, fs.nactvar)
    ensures var op := if cond then Or else And;
      var (fs4, e4) := Posfix(fs3, op, e2, e3); Denotes(ctx, fs, fs4, e4, EBin(op, a, b)) && StrK(fs4, e4)
  {
    hide Splits, Denotes, Scoped, DischargeVars;
    var (fs4, x) := DischargeVars(fs3, e3);
    JoinDen(ctx, fs, fs2, fs3, e3, if cond then e2.t else {}, if cond then {} else e2.f, cond, a, b);
    assert Joined(x, if cond then e2.t else {}, if cond then {} else e2.f) ==
           Posfix(fs3, if cond then Or else And, e2, e3).1;
  }

  /** Compilation preserves meaning.  A run of the code before the expression
      that reaches its end goes on through the code of the expression and
      leaves the value in the first register that was free, all registers below
      it unchanged; it fails exactly if the expression does, and the only
      pending jumps are those that were pending before. */
  lemma CompilePreservesMeaning(ctx: Ctx, fs: FS, x: Expr, p: nat, r: Regs)
    requires WF(fs) && Scoped(x, fs.nactvar) && Entry(fs, p, r)
    requires CompileToNextReg(fs, x).0.k <= ctx.k && Full(ctx, fs, p, r).Fall?
    ensures var (fs1, e1) := CompileToNextReg(fs, x);
      var r0, o := Full(ctx, fs, p, r).r, Full(ctx, fs1, p, r);
      && e1 == Exp(VNonReloc(fs.freereg), {}, {}) && fs1.freereg == fs.freereg + 1
      && WF(fs1) && Open(fs1) == Open(fs)
      && match Eval(ctx.env, x, r0)
         case Some(v) =>
           o.Fall? && Get(o.r, fs.freereg) == v && forall i: nat :: i < fs.freereg ==> Get(o.r, i) == Get(r0, i)
         case None => o == Fail
  {
    var (fs2, e2) := Compile(fs, x);
    var (fs1, e1) := Exp2NextReg(fs2, e2);
    assert CompileToNextReg(fs, x) == (fs1, e1);
    hide CompileToNextReg, Compile, Exp2NextReg, Scoped;
    NextRegK(fs2, e2);
    CompileDen(ctx, fs, x);
    Exp2NextRegDen(ctx, fs, fs2, e2, x);
    DenotesAt(ctx, fs, fs1, e1, x, p, r);
    OwnNothing(fs, fs1, e1);
    hide Exec, RCode, Grown, WF, Entry, Denotes, Eval;
  }

  lemma OwnNothing(fs0: FS, fs: FS, e: Exp)
    requires Grown(fs0, fs, Own(e)) && !e.k.VJmp? && e.t == {} == e.f
    ensures WF(fs) && Open(fs) == Open(fs0)
  {
    assert Own(e) == {};
  }

  /** At a label, where the next instruction starts a new stretch of code, the
      code of the expression computes it from the registers at the label. */
  lemma CompileAtLabel(ctx: Ctx, fs: FS, x: Expr, r: Regs)
    requires WF(fs) && Scoped(x, fs.nactvar) && fs.lasttarget == |fs.code|
    requires CompileToNextReg(fs, x).0.k <= ctx.k
    ensures var fs1 := CompileToNextReg(fs, x).0;
      var o := Full(ctx, fs1, |fs.code|, r);
      match Eval(ctx.env, x, r)
      case Some(v) =>
        o.Fall? && Get(o.r, fs.freereg) == v && forall i: nat :: i < fs.freereg ==> Get(o.r, i) == Get(r, i)
      case None => o == Fail
  {
    LastNoTest(fs.code);
    assert Full(ctx, fs, |fs.code|, r) == Fall(r);
    CompilePreservesMeaning(ctx, fs, x, |fs.code|, r);
  }

  /** An expression as a condition: the code goes on exactly if the value is
      true, and leaves through the false exits otherwise. */
  lemma ConditionMeaning(ctx: Ctx, fs: FS, x: Expr, p: nat, r: Regs)
    requires WF(fs) && Scoped(x, fs.nactvar) && Entry(fs, p, r)
    requires GoIfTrue(Compile(fs, x).0, Compile(fs, x).1).0.k <= ctx.k && Full(ctx, fs, p, r).Fall?
    ensures var (fs1, e1) := GoIfTrue(Compile(fs, x).0, Compile(fs, x).1);
      var r0, o := Full(ctx, fs, p, r).r, Full(ctx, fs1, p, r);
      && e1.t == {} && fs1.freereg == fs.freereg && Open(fs1) == Open(fs) + e1.f
      && match Eval(ctx.env, x, r0)
         case Some(v) =>
           && (if IsFalse(v) then o.Exit? && o.j in e1.f else o.Fall?)
           && forall i: nat :: i < fs.freereg ==> Get(o.r, i) == Get(r0, i)
         case None => o == Fail
  {
    var (fs2, e2) := Compile(fs, x);
    var (fs1, e1) := GoIfTrue(fs2, e2);
    hide Compile, GoIfTrue, Scoped;
    GoIfK(fs2, e2);
    CompileDen(ctx, fs, x);
    GoIfTrueSplits(ctx, fs, fs2, e2, x);
    SplitsFacts(ctx, fs, fs1, {}, e1.f, false, x, p, r);
    assert {} + e1.f == e1.f;
    hide Exec, RCode, WF, Entry, Denotes, Eval;
  }
}
