/** `not`: the value is negated, the two lists of exits change places, and no
    exit carries a value any more. */
module LuaCodeNot {
  import opened Options
  import opened LuaVM
  import opened LuaCode
  import opened LuaCodeExec
  import opened LuaCodeShape
  import opened LuaCodeDen
  import opened LuaCodeReg
  import opened LuaCodeUse
  import opened LuaCodeCond

  // ---------------------------------------------------------------------
  // removevalues

  /** A TESTSET whose jump is pending may have become a TEST. */
  predicate DroppedAt(c: seq<Instr>, d: seq<Instr>, i: nat)
    requires i < |c| == |d|
  {
    d[i] == c[i]
    || (c[i].TestSet? && d[i] == Test(c[i].b, c[i].cond) && i + 1 < |c| && c[i + 1] == Jmp(NO_JUMP))
  }

  ghost predicate Dropped(c: seq<Instr>, d: seq<Instr>) {
    |c| == |d| && forall i :: 0 <= i < |c| ==> DroppedAt(c, d, i)
  }

  /** A pending jump carries no value out of the code, so nothing changes. */
  lemma {:induction false} DroppedExec(ctx: Ctx, c: seq<Instr>, d: seq<Instr>, p: nat, q: nat, r: Regs)
    requires Dropped(c, d) && q <= |c|
    ensures Exec(ctx, d, p, q, r) == Exec(ctx, c, p, q, r)
    decreases if p <= q then q - p else 0
  {
    if p < q {
      assert DroppedAt(c, d, p);
      match c[p]
      case Jmp(t) => if p < t <= q { DroppedExec(ctx, c, d, t, q, r); }
      case LoadBool(a, val, skip) => DroppedExec(ctx, c, d, if skip then p + 2 else p + 1, q, r[a := Bool(val)]);
      case Cmp(_, _, _, _) => DroppedBranch(ctx, c, d, p, q, r);
      case Test(_, _) => DroppedBranch(ctx, c, d, p, q, r);
      case TestSet(_, _, _) => DroppedBranch(ctx, c, d, p, q, r);
      case _ =>
        var n := Plain(ctx, c[p], r);
        if n.Some? { DroppedExec(ctx, c, d, p + 1, q, n.value); }
    }
  }

  lemma {:induction false} DroppedBranch(ctx: Ctx, c: seq<Instr>, d: seq<Instr>, p: nat, q: nat, r: Regs)
    requires Dropped(c, d) && p < q <= |c| && IsTest(c[p])
    ensures IsTest(d[p]) && Branch(ctx, d, p, q, r) == Branch(ctx, c, p, q, r)
    decreases q - p, 0
  {
    assert DroppedAt(c, d, p);
    if p + 1 < q { assert DroppedAt(c, d, p + 1); }
    if p + 1 < q && c[p + 1].Jmp? {
      DroppedExec(ctx, c, d, p + 2, q, r);
      var t := c[p + 1].target;
      if p + 1 < t <= q { DroppedExec(ctx, c, d, t, q, Chosen(c[p], r)); }
    }
  }

  lemma RemoveDropped(fs: FS, l: set<nat>)
    requires WF(fs) && l <= Open(fs)
    ensures var fs1 := RemoveValues(fs, l);
      && Dropped(fs.code, fs1.code) && Dropped(RCode(fs), RCode(fs1))
      && (forall j :: j in l ==> !TestSetControls(fs1.code, j))
      && (forall j :: !TestSetControls(fs.code, j) ==> !TestSetControls(fs1.code, j))
  {
    var fs1 := RemoveValues(fs, l);
    var c, d, h, n := fs.code, fs1.code, fs.jpc, |fs.code|;
    assert forall i :: 0 <= i < n ==> DroppedAt(c, d, i);
    forall i: nat | i < n ensures DroppedAt(RCode(fs), RCode(fs1), i)
    {
      assert RCode(fs)[i] == PatchInstr(c, h, n, NO_REG, n, i);
      assert RCode(fs1)[i] == PatchInstr(d, h, n, NO_REG, n, i);
      if i + 1 < n {
        assert RCode(fs)[i + 1] == PatchInstr(c, h, n, NO_REG, n, i + 1);
      }
    }
  }

  lemma DroppedTrans(c: seq<Instr>, d: seq<Instr>, e: seq<Instr>)
    requires Dropped(c, d) && Dropped(d, e)
    ensures Dropped(c, e)
  {
    forall i: nat | i < |c| ensures DroppedAt(c, e, i) {
      assert DroppedAt(c, d, i) && DroppedAt(d, e, i);
      if i + 1 < |c| { assert DroppedAt(c, d, i + 1); }
    }
  }

  lemma RemoveShape(fs: FS, l: set<nat>)
    requires WF(fs) && l <= Open(fs)
    ensures var fs1 := RemoveValues(fs, l);
      && WF(fs1) && Open(fs1) == Open(fs)
      && (forall i :: 0 <= i < |fs.code| ==> IsTest(fs1.code[i]) == IsTest(fs.code[i]))
      && (forall i :: 0 <= i < |fs.code| && (!IsTest(fs.code[i]) || i + 1 !in l) ==> fs1.code[i] == fs.code[i])
  {
    var fs1, n := RemoveValues(fs, l), |fs.code|;
    assert forall i :: 0 <= i < n ==> IsTest(fs1.code[i]) == IsTest(fs.code[i]);
    assert forall i :: 0 <= i < n && !IsTest(fs.code[i]) ==> fs1.code[i] == fs.code[i];
    hide RemoveValues;
    assert Pending(fs1.code) == Pending(fs.code);
    assert Tests(fs1.code);
  }

  lemma RemoveGrown(fs0: FS, fs: FS, own: set<nat>, l: set<nat>)
    requires WF(fs0) && Grown(fs0, fs, own) && l <= own
    ensures Grown(fs0, RemoveValues(fs, l), own)
  {
    RemoveShape(fs, l);
    var fs1 := RemoveValues(fs, l);
    assert fs1 == fs.(code := fs1.code);
    hide RemoveValues, WF;
    assert forall j :: j in Open(fs0) ==> j !in l;
    assert SameTests(fs0.code, fs1.code, Open(fs0));
  }

  // ---------------------------------------------------------------------
  // codenot

  function Negated(v: Option<Value>): Option<Value> {
    if v.None? then None else Some(Bool(IsFalse(v.value)))
  }

  ghost predicate MeetsNot(ctx: Ctx, n0: nat, fs: FS, k: Kind, e: Exp, res: Option<Value>, r0: Regs, o: Out) {
    match o
    case Fall(s) => Agree(r0, s, n0) && KindValue(ctx, fs, k, s) == Negated(res)
    case Exit(j, s) => Agree(r0, s, n0) && res.Some? && Left(fs, e, res.value, j, s)
    case Fail => res.None?
    case Stuck => false
  }

  /** The kind `k` has the negated value, and the exits are still those of `e`. */
  ghost predicate NotAt(ctx: Ctx, fs0: FS, fs: FS, k: Kind, e: Exp, x: Expr, p: nat, r: Regs) {
    var o := Exec(ctx, RCode(fs), p, End(fs, k), r);
    match Full(ctx, fs0, p, r)
    case Fall(r0) => MeetsNot(ctx, fs0.freereg, fs, k, e, Eval(ctx.env, x, r0), r0, o)
    case Stuck => true
    case Exit(j, s) => o == Exit(j, s)
    case Fail => o == Fail
  }

  ghost predicate NotReady(ctx: Ctx, fs0: FS, fs: FS, k: Kind, e: Exp, x: Expr) {
    && St(fs0, fs, e.(k := k))
    && forall p, r :: Entry(fs0, p, r) ==> NotAt(ctx, fs0, fs, k, e, x, p, r)
  }

  /** Exchanging the lists and dropping the values finishes the negation. */
  lemma SwapDen(ctx: Ctx, fs0: FS, fs: FS, k: Kind, e: Exp, x: Expr)
    requires NotReady(ctx, fs0, fs, k, e, x)
    ensures Denotes(ctx, fs0, RemoveValues(RemoveValues(fs, e.t), e.f), Exp(k, e.f, e.t), ENot(x))
  {
    var fs1 := RemoveValues(fs, e.t);
    var fs2, e2 := RemoveValues(fs1, e.f), Exp(k, e.f, e.t);
    SwapSt(fs0, fs, k, e);
    hide *;
    forall p, r | Entry(fs0, p, r) ensures DenAt(ctx, fs0, fs2, e2, ENot(x), p, r) {
      NotInst(ctx, fs0, fs, k, e, x, p, r);
      DroppedExec(ctx, RCode(fs), RCode(fs2), p, End(fs, k), r);
      EndSame(fs, fs2, k);
      KindSame(ctx, fs0, fs, fs2, k);
      SwapAt(ctx, fs0, fs, fs2, k, e, x, p, r);
    }
    SwapAll(ctx, fs0, fs2, e2, ENot(x));
  }

  lemma SwapAll(ctx: Ctx, fs0: FS, fs: FS, e: Exp, x: Expr)
    requires St(fs0, fs, e) && forall p, r | Entry(fs0, p, r) :: DenAt(ctx, fs0, fs, e, x, p, r)
    ensures Denotes(ctx, fs0, fs, e, x)
  {}

  lemma NotInst(ctx: Ctx, fs0: FS, fs: FS, k: Kind, e: Exp, x: Expr, p: nat, r: Regs)
    requires NotReady(ctx, fs0, fs, k, e, x) && Entry(fs0, p, r)
    ensures NotAt(ctx, fs0, fs, k, e, x, p, r)
  {}

  lemma EndSame(fs: FS, fs2: FS, k: Kind)
    requires |fs2.code| == |fs.code|
    ensures End(fs2, k) == End(fs, k) <= |fs.code| == |RCode(fs)|
  {}

  lemma SwapSt(fs0: FS, fs: FS, k: Kind, e: Exp)
    requires St(fs0, fs, e.(k := k))
    ensures var fs2 := RemoveValues(RemoveValues(fs, e.t), e.f);
      && St(fs0, fs2, Exp(k, e.f, e.t)) && Dropped(RCode(fs), RCode(fs2)) && KindOK(fs0, fs, k)
      && |fs2.code| == |fs.code|
      && (forall i :: 0 <= i < |fs.code| && !fs.code[i].TestSet? ==> fs2.code[i] == fs.code[i])
      && (forall j :: j in e.t + e.f ==> !TestSetControls(fs2.code, j))
  {
    var fs1 := RemoveValues(fs, e.t);
    var fs2, e2 := RemoveValues(fs1, e.f), Exp(k, e.f, e.t);
    var own := Own(e.(k := k));
    assert Own(e2) == own && e.t <= own && e.f <= own && WF(fs0);
    RemoveGrown(fs0, fs, own, e.t);
    RemoveGrown(fs0, fs1, own, e.f);
    assert e.t <= Open(fs) && e.f <= Open(fs1);
    RemoveDropped(fs, e.t);
    RemoveDropped(fs1, e.f);
    DroppedTrans(RCode(fs), RCode(fs1), RCode(fs2));
    assert forall i :: 0 <= i < |fs.code| && !fs.code[i].TestSet? ==> fs2.code[i] == fs.code[i];
    assert fs2 == fs.(code := fs2.code);
    hide Grown, RCode, Dropped, RemoveValues;
    assert KindOK(fs0, fs2, k);
  }

  lemma KindSame(ctx: Ctx, fs0: FS, fs: FS, fs2: FS, k: Kind)
    requires KindOK(fs0, fs, k) && |fs2.code| == |fs.code|
    requires forall i :: 0 <= i < |fs.code| && !fs.code[i].TestSet? ==> fs2.code[i] == fs.code[i]
    ensures forall s :: KindValue(ctx, fs2, k, s) == KindValue(ctx, fs, k, s)
  {}

  lemma SwapAt(ctx: Ctx, fs0: FS, fs: FS, fs2: FS, k: Kind, e: Exp, x: Expr, p: nat, r: Regs)
    requires NotAt(ctx, fs0, fs, k, e, x, p, r)
    requires Exec(ctx, RCode(fs2), p, End(fs2, k), r) == Exec(ctx, RCode(fs), p, End(fs, k), r)
    requires forall s :: KindValue(ctx, fs2, k, s) == KindValue(ctx, fs, k, s)
    requires forall j :: j in e.t + e.f ==> !TestSetControls(fs2.code, j)
    ensures DenAt(ctx, fs0, fs2, Exp(k, e.f, e.t), ENot(x), p, r)
  {
    hide Exec, RCode, Full;
    var o0 := Full(ctx, fs0, p, r);
    if o0.Fall? {
      assert Eval(ctx.env, ENot(x), o0.r) == Negated(Eval(ctx.env, x, o0.r));
      hide Eval, TestSetControls;
    }
  }

  function NotKind(k: Kind): Kind { if k.VNil? || k.VFalse? then VTrue else VFalse }

  lemma NotConst(ctx: Ctx, fs0: FS, fs: FS, e: Exp, x: Expr)
    requires Denotes(ctx, fs0, fs, e, x) && StrK(fs, e) && fs.k <= ctx.k && (Truthy(e.k) || Falsy(e.k))
    ensures NotReady(ctx, fs0, fs, NotKind(e.k), e, x)
  {
    var k := NotKind(e.k);
    assert Own(e.(k := k)) == Own(e);
    assert e.k.VK? ==> ctx.k[e.k.info] == fs.k[e.k.info];
    assert St(fs0, fs, e.(k := k));
    forall p, r | Entry(fs0, p, r) ensures NotAt(ctx, fs0, fs, k, e, x, p, r) {
      DenInst(ctx, fs0, fs, e, x, p, r);
      hide St, Den, Exec, RCode, Eval, Grown;
    }
  }

  lemma NotJmp(ctx: Ctx, fs0: FS, fs: FS, e: Exp, x: Expr)
    requires Denotes(ctx, fs0, fs, e, x) && e.k.VJmp?
    ensures NotReady(ctx, fs0, InvertJump(fs, e.k.j), e.k, e, x)
  {
    var fs1 := InvertJump(fs, e.k.j);
    InvertGrown(fs0, fs, e);
    assert e.(k := e.k) == e;
    hide InvertJump;
    forall p, r | Entry(fs0, p, r) ensures NotAt(ctx, fs0, fs1, e.k, e, x, p, r) {
      DenInst(ctx, fs0, fs, e, x, p, r);
      InvertRun(ctx, fs0, fs, e, p, r);
      hide St, Den, Exec, RCode, Eval, Grown;
      NotJmpAt(ctx, fs0, fs, fs1, e, x, p, r);
    }
  }

  lemma NotJmpAt(ctx: Ctx, fs0: FS, fs: FS, fs1: FS, e: Exp, x: Expr, p: nat, r: Regs)
    requires e.k.VJmp? && SameExits(fs, e, fs1, e) && DenAt(ctx, fs0, fs, e, x, p, r)
    requires Exec(ctx, RCode(fs1), p, End(fs1, e.k), r) == Exec(ctx, RCode(fs), p, End(fs, e.k), r)
    requires forall s :: (KindValue(ctx, fs1, e.k, s) ==
             (match KindValue(ctx, fs, e.k, s) case Some(Bool(b)) => Some(Bool(!b)) case o => o))
    ensures NotAt(ctx, fs0, fs1, e.k, e, x, p, r)
  {
    hide Exec, RCode, Eval, Cond;
  }

  /** A NOT instruction for a value in a register. */
  lemma NotReg(ctx: Ctx, fs0: FS, fs: FS, e: Exp, x: Expr)
    requires Denotes(ctx, fs0, fs, e, x) && e.k.VNonReloc?
    ensures var fs1 := FreeExp(fs, e);
      NotReady(ctx, fs0, Emit(fs1, NotR(0, e.k.r)), VReloc(|fs1.code|), e, x)
  {
    var fs1, i := FreeExp(fs, e), NotR(0, e.k.r);
    var fs2, k := Emit(fs1, i), VReloc(|fs1.code|);
    FreeForm(fs0, fs, e);
    RegsGrown(fs0, fs, Own(e), fs0.freereg, fs.k);
    EmitGrown(fs0, fs1, Own(e), i);
    EmitLeft(fs0, fs1, e, i);
    RCodeEmit(fs1, i);
    assert Own(e.(k := k)) == Own(e);
    assert St(fs0, fs2, e.(k := k));
    assert SameExits(fs1, e, fs2, e);
    hide St, Grown, FreeExp, RCode, Emit, SameExits;
    forall p, r | Entry(fs0, p, r) ensures NotAt(ctx, fs0, fs2, k, e, x, p, r) {
      FreeDen(ctx, fs0, fs, e, x, p, r);
      ExecFrame(ctx, RCode(fs1), RCode(fs2), p, |fs1.code|, r);
      NotRegAt(ctx, fs0, fs1, fs2, e, x, p, r);
    }
  }

  lemma NotRegAt(ctx: Ctx, fs0: FS, fs1: FS, fs2: FS, e: Exp, x: Expr, p: nat, r: Regs)
    requires e.k.VNonReloc? && SameExits(fs1, e, fs2, e) && DenAt(ctx, fs0, fs1, e, x, p, r)
    requires |fs2.code| == |fs1.code| + 1 && fs2.code[|fs1.code|] == NotR(0, e.k.r)
    requires Exec(ctx, RCode(fs2), p, |fs1.code|, r) == Exec(ctx, RCode(fs1), p, |fs1.code|, r)
    ensures NotAt(ctx, fs0, fs2, VReloc(|fs1.code|), e, x, p, r)
  {
    hide Exec, RCode, Eval;
  }

  lemma RemoveK(fs: FS, l: set<nat>, m: set<nat>)
    ensures RemoveValues(RemoveValues(fs, l), m).k == fs.k
  {}

  /** codenot. */
  lemma CodeNotDen(ctx: Ctx, fs0: FS, fs: FS, e: Exp, x: Expr)
    requires Denotes(ctx, fs0, fs, e, x) && StrK(fs, e) && CodeNot(fs, e).0.k <= ctx.k && fs.k <= ctx.k
    ensures var (fs1, e1) := CodeNot(fs, e); Denotes(ctx, fs0, fs1, e1, ENot(x)) && !e1.k.VK?
  {
    hide St, Den, DischargeVars, InvertJump, RemoveValues, Discharge2AnyReg;
    var (fs1, e1) := DischargeVars(fs, e);
    DischargeVarsDen(ctx, fs0, fs, e, x);
    assert StrK(fs1, e1) by { DischargeKind(fs, e); }
    assert Denotes(ctx, fs0, fs1, e1, x);
    hide StrK, Denotes, NotReady;
    if Truthy(e1.k) || Falsy(e1.k) {
      NotConst(ctx, fs0, fs1, e1, x);
      SwapDen(ctx, fs0, fs1, NotKind(e1.k), e1, x);
    } else if e1.k.VJmp? {
      NotJmp(ctx, fs0, fs1, e1, x);
      SwapDen(ctx, fs0, InvertJump(fs1, e1.k.j), e1.k, e1, x);
    } else {
      var (fs3, e3) := Discharge2AnyReg(fs1, e1);
      var fs4 := FreeExp(fs3, e3);
      RemoveK(Emit(fs4, NotR(0, if e3.k.VNonReloc? then e3.k.r else 0)), e1.t, e1.f);
      Discharge2AnyRegDen(ctx, fs0, fs1, e1, x);
      NotReg(ctx, fs0, fs3, e3, x);
      SwapDen(ctx, fs0, Emit(fs4, NotR(0, e3.k.r)), VReloc(|fs4.code|), e3, x);
    }
  }
}
