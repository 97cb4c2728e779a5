/** The ways in which the value of an expression is put to use: in a register,
    as an operand, as a condition. */
module LuaCodeUse {
  import opened Options
  import opened LuaVM
  import opened LuaCode
  import opened LuaCodeExec
  import opened LuaCodeShape
  import opened LuaCodeDen
  import opened LuaCodeReg

  ghost predicate Denotes(ctx: Ctx, fs0: FS, fs: FS, e: Exp, x: Expr) {
    St(fs0, fs, e) && Den(ctx, fs0, fs, e, x)
  }

  // ---------------------------------------------------------------------
  // Registers

  /** The register that an expression holds is given back. */
  lemma FreeForm(fs0: FS, fs: FS, e: Exp)
    requires St(fs0, fs, e)
    ensures FreeExp(fs, e) == fs.(freereg := fs0.freereg)
  {}

  lemma DischargedForm(fs: FS, e: Exp)
    requires Discharged(e.k)
    ensures DischargeVars(fs, e) == (fs, e)
  {}

  /** luaK_exp2nextreg: the value ends in the first register that was free. */
  lemma Exp2NextRegDen(ctx: Ctx, fs0: FS, fs: FS, e: Exp, x: Expr)
    requires Denotes(ctx, fs0, fs, e, x) && Exp2NextReg(fs, e).0.k <= ctx.k
    ensures var (fs1, e1) := Exp2NextReg(fs, e);
      && Denotes(ctx, fs0, fs1, e1, x) && e1 == Exp(VNonReloc(fs0.freereg), {}, {})
      && fs1.freereg == fs0.freereg + 1
  {
    hide St, Den, Exp2Reg, DischargeVars, FreeExp;
    var (fs1, e1) := DischargeVars(fs, e);
    DischargeVarsDen(ctx, fs0, fs, e, x);
    FreeForm(fs0, fs1, e1);
    assert Reserve(FreeExp(fs1, e1), 1) == fs1.(freereg := fs0.freereg + 1);
    Exp2RegDen(ctx, fs0, fs1, e1, x);
  }

  /** The value is in a register, and nowhere else. */
  predicate InReg(e: Exp) { e.k.VNonReloc? && e.t == {} == e.f }

  /** luaK_exp2anyreg. */
  lemma Exp2AnyRegDen(ctx: Ctx, fs0: FS, fs: FS, e: Exp, x: Expr)
    requires Denotes(ctx, fs0, fs, e, x) && Exp2AnyReg(fs, e).0.k <= ctx.k
    ensures var (fs1, e1) := Exp2AnyReg(fs, e); Denotes(ctx, fs0, fs1, e1, x) && InReg(e1)
  {
    hide St, Den, Exp2Reg, DischargeVars, Exp2NextReg;
    var (fs1, e1) := DischargeVars(fs, e);
    DischargeVarsDen(ctx, fs0, fs, e, x);
    StWF(fs0, fs1, e1);
    DischargedForm(fs1, e1);
    if e1.k.VNonReloc? && HasJumps(e1) && e1.k.r >= fs1.nactvar {
      TempForm(fs0, fs1, e1);
      Exp2RegDen(ctx, fs0, fs1, e1, x);
    } else if !e1.k.VNonReloc? || HasJumps(e1) {
      assert Exp2AnyReg(fs, e) == Exp2NextReg(fs1, e1);
      Exp2NextRegDen(ctx, fs0, fs1, e1, x);
    }
  }

  lemma TempForm(fs0: FS, fs: FS, e: Exp)
    requires St(fs0, fs, e) && e.k.VNonReloc? && e.k.r >= fs.nactvar
    ensures e.k.r == fs0.freereg && fs == fs.(freereg := fs0.freereg + 1)
  {}

  /** luaK_exp2val. */
  lemma Exp2ValDen(ctx: Ctx, fs0: FS, fs: FS, e: Exp, x: Expr)
    requires Denotes(ctx, fs0, fs, e, x) && Exp2Val(fs, e).0.k <= ctx.k
    ensures var (fs1, e1) := Exp2Val(fs, e); Denotes(ctx, fs0, fs1, e1, x) && e1.t == {} == e1.f
  {
    StWF(fs0, fs, e);
    hide St, Den, Exp2AnyReg, DischargeVars;
    if HasJumps(e) { Exp2AnyRegDen(ctx, fs0, fs, e, x); } else { DischargeVarsDen(ctx, fs0, fs, e, x); }
  }

  /** An operand: a register, or a constant that fits. */
  predicate InRK(fs: FS, e: Exp) {
    && e.t == {} == e.f
    && (e.k.VNonReloc? || (e.k.VK? && e.k.info <= 255 && e.k.info < |fs.k|))
  }

  lemma ConstDen(ctx: Ctx, fs0: FS, fs: FS, e: Exp, x: Expr)
    requires Denotes(ctx, fs0, fs, e, x) && IsConst(e.k) && AddK(fs, ConstValue(e.k)).0.k <= ctx.k
    ensures var (fs1, i) := AddK(fs, ConstValue(e.k)); Denotes(ctx, fs0, fs1, e.(k := VK(i)), x)
  {
    var (fs1, i) := AddK(fs, ConstValue(e.k));
    var e1 := e.(k := VK(i));
    assert fs1 == fs.(freereg := fs.freereg, k := fs1.k);
    RegsGrown(fs0, fs, Own(e), fs.freereg, fs1.k);
    assert Own(e1) == Own(e);
    assert St(fs0, fs1, e1);
    assert RCode(fs1) == RCode(fs);
    hide St, Grown, RCode, AddK;
    forall p, r | Entry(fs0, p, r) ensures DenAt(ctx, fs0, fs1, e1, x, p, r) {
      DenInst(ctx, fs0, fs, e, x, p, r);
      hide Den;
      Transfer(ctx, fs0, fs, e, fs1, e1, x, p, r);
    }
  }

  /** luaK_exp2RK. */
  lemma Exp2RKDen(ctx: Ctx, fs0: FS, fs: FS, e: Exp, x: Expr)
    requires Denotes(ctx, fs0, fs, e, x) && Exp2RK(fs, e).0.k <= ctx.k
    ensures var (fs1, e1) := Exp2RK(fs, e); Denotes(ctx, fs0, fs1, e1, x) && InRK(fs1, e1)
  {
    hide Denotes, Exp2Val, AddK, Exp2AnyReg;
    var (fs1, e1) := Exp2Val(fs, e);
    assert fs1.k <= Exp2RK(fs, e).0.k by { AnyRegK(fs1, e1); }
    Exp2ValDen(ctx, fs0, fs, e, x);
    if IsConst(e1.k) && |fs1.k| <= MAXINDEXRK {
      ConstDen(ctx, fs0, fs1, e1, x);
      AddKIndex(fs1, ConstValue(e1.k));
    } else if e1.k.VK? && e1.k.info <= MAXINDEXRK {
      KindBound(ctx, fs0, fs1, e1, x);
    } else {
      Exp2AnyRegDen(ctx, fs0, fs1, e1, x);
    }
  }

  lemma KindBound(ctx: Ctx, fs0: FS, fs: FS, e: Exp, x: Expr)
    requires Denotes(ctx, fs0, fs, e, x)
    ensures KindOK(fs0, fs, e.k)
  {}

  lemma AddKIndex(fs: FS, v: Value)
    ensures AddK(fs, v).1 <= |fs.k|
  {}

  // ---------------------------------------------------------------------
  // Constants only ever get added

  lemma FinishK(fs: FS, isjmp: bool, t: set<nat>, f: set<nat>, reg: nat)
    ensures FinishJumps(fs, isjmp, t, f, reg).k == fs.k
  {
    hide RCode, Patch, NeedValue;
  }

  lemma Exp2RegK(fs: FS, e: Exp, reg: nat)
    ensures fs.k <= Exp2Reg(fs, e, reg).0.k
  {
    hide Discharge2Reg, FinishJumps;
    RegK(fs, e, reg);
    var (fs1, e1) := Discharge2Reg(fs, e, reg);
    FinishK(fs1, e1.k.VJmp?, if e1.k.VJmp? then e1.t + {e1.k.j} else e1.t, e1.f, reg);
  }

  lemma NextRegK(fs: FS, e: Exp)
    ensures fs.k <= Exp2NextReg(fs, e).0.k
  {
    hide Exp2Reg, RCode;
    var (fs1, e1) := DischargeVars(fs, e);
    var fs2 := FreeExp(fs1, e1);
    Exp2RegK(Reserve(fs2, 1), e1, fs2.freereg);
  }

  lemma AnyRegK(fs: FS, e: Exp)
    ensures fs.k <= Exp2AnyReg(fs, e).0.k
  {
    hide Exp2Reg, RCode, Exp2NextReg;
    var (fs1, e1) := DischargeVars(fs, e);
    if e1.k.VNonReloc? { Exp2RegK(fs1, e1, e1.k.r); }
    NextRegK(fs1, e1);
  }

  lemma RKK(fs: FS, e: Exp)
    ensures fs.k <= Exp2RK(fs, e).0.k
  {
    hide Exp2AnyReg, RCode;
    AnyRegK(fs, e);
    var (fs1, e1) := Exp2Val(fs, e);
    assert fs.k <= fs1.k;
    AnyRegK(fs1, e1);
  }
}
