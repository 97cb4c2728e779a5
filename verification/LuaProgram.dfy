/** From the text of an expression to its value: the parser, the generator and
    the interpreter, one after the other. */
module LuaProgram {
  import opened Options
  import opened LuaVM
  import opened LuaCode
  import opened LuaCodeShape
  import opened LuaCodeDen
  import opened LuaCodeCompile
  import opened LuaJumps
  import G = LuaGenerator
  import X = LuaExecute
  import P = LuaParser

  /** What running the code of an expression with the value `x` from the
      registers `r0` must come to: the value in register `n`, all registers below
      unchanged, or an error if there is no value as a comparison fails. */
  ghost predicate Delivers(x: Option<Value>, n: nat, r0: Regs, o: Out) {
    match x
    case Some(v) => o.Fall? && Get(o.r, n) == v && forall i: nat :: i < n ==> Get(o.r, i) == Get(r0, i)
    case None => o == Fail
  }

  lemma Meaning(ctx: Ctx, fs: FS, x: Expr, r: Regs)
    requires WF(fs) && fs.jpc == {} && Scoped(x, fs.nactvar) && Entry(fs, |fs.code|, r)
    requires CompileToNextReg(fs, x).0.k <= ctx.k
    ensures var fs1 := CompileToNextReg(fs, x).0;
      Open(fs1) == Open(fs) && Delivers(Eval(ctx.env, x, r), fs.freereg, r, Full(ctx, fs1, |fs.code|, r))
  {
    hide *;
    NoStep(ctx, fs, r);
    CompilePreservesMeaning(ctx, fs, x, |fs.code|, r);
    Delivered(ctx, fs, x, r, Full(ctx, CompileToNextReg(fs, x).0, |fs.code|, r));
  }

  lemma NoStep(ctx: Ctx, fs: FS, r: Regs)
    ensures Full(ctx, fs, |fs.code|, r) == Fall(r)
  {
  }

  lemma Delivered(ctx: Ctx, fs: FS, x: Expr, r: Regs, o: Out)
    requires match Eval(ctx.env, x, r)
      case Some(v) =>
        o.Fall? && Get(o.r, fs.freereg) == v && forall i: nat :: i < fs.freereg ==> Get(o.r, i) == Get(r, i)
      case None => o == Fail
    ensures Delivers(Eval(ctx.env, x, r), fs.freereg, r, o)
  {
  }

  /** Code without open jumps. */
  lemma Closed(fs: G.FuncState)
    requires fs.Valid() && fs.pend == {}
    ensures fs.Opened() == {} && CodeOK(fs.code, {}) && AbsCode(fs.code, {}) == fs.Abs().code
    ensures |fs.Abs().code| == |fs.code| && fs.Abs().jpc == {}
    ensures fs.Abs().freereg == fs.freereg && fs.Abs().nactvar == fs.nactvar && fs.Abs().k == fs.k
  {
  }

  lemma FullRun(ctx: Ctx, fs: FS, p: nat, r: Regs)
    ensures |RCode(fs)| == |fs.code| && Full(ctx, fs, p, r) == Exec(ctx, RCode(fs), p, |fs.code|, r)
  {
  }

  /** The in-place generator emits the code of an expression at the end of code
      without open jumps, and the interpreter runs it: the value of the
      expression comes to the first free register. */
  method CompileAndExecute(fs: G.FuncState, x: Expr, m: X.Machine, env: Env) returns (o: Out)
    requires fs.Valid() && fs.pend == {} && WF(fs.Abs()) && Scoped(x, fs.nactvar)
    requires m.pc == |fs.code| && Entry(fs.Abs(), |fs.code|, m.regs)
    modifies fs, m
    ensures fs.Valid() && fs.pend == {}
    ensures Delivers(Eval(env, x, old(m.regs)), old(fs.freereg), old(m.regs), o)
    ensures o.Fall? ==> m.pc == |fs.code| && m.regs == o.r
  {
    hide *;
    ghost var fs0, r := fs.Abs(), m.regs;
    Closed(fs);
    var e;
    ghost var y;
    e, y := fs.CompileToNextReg(x);
    ghost var fs1 := fs.Abs();
    Meaning(Ctx(fs1.k, env), fs0, x, r);
    FullRun(Ctx(fs1.k, env), fs1, |fs0.code|, r);
    fs.DischargeJpc();
    Closed(fs);
    o := m.Execute(Ctx(fs.k, env), fs.code, |fs.code|);
  }

  // ---------------------------------------------------------------------
  // From the tree of the parser to that of the generator

  /** Arithmetic and concatenation are not part of the generator's model. */
  predicate Covered(e: P.Expr) {
    match e
    case EAtom(_) => true
    case EParen(x) => Covered(x)
    case EUn(op, x) => op == P.UnOp.Not && Covered(x)
    case EBin(op, a, b) =>
      (op.And? || op.Or? || op.Eq? || op.Ne? || op.Lt? || op.Le? || op.Gt? || op.Ge?) && Covered(a) && Covered(b)
  }

  /** The operator of the generator; only those of covered trees matter. */
  function OpOf(op: P.BinOp): BinOp {
    match op
    case And => BinOp.And
    case Or => BinOp.Or
    case Ne => BinOp.Ne
    case Lt => BinOp.Lt
    case Le => BinOp.Le
    case Gt => BinOp.Gt
    case Ge => BinOp.Ge
    case _ => BinOp.Eq
  }

  /** What the parser passes on; `scope` is what simpleexp and singlevar make of
      a literal or a name. */
  function Lower(scope: P.Token -> Expr, e: P.Expr): Expr
    requires Covered(e)
  {
    match e
    case EAtom(t) => scope(t)
    case EParen(x) => EParen(Lower(scope, x))
    case EUn(_, x) => ENot(Lower(scope, x))
    case EBin(op, a, b) => EBin(OpOf(op), Lower(scope, a), Lower(scope, b))
  }

  // ---------------------------------------------------------------------
  // The value of a tree

  predicate Untrue(v: Value) { v.Nil? || (v.Bool? && !v.b) }

  /** Sections 2.5.2 and 2.5.3 of the Lua 5.1 reference manual: `and` and `or`
      give one of their operands, the second of which may not be evaluated, and
      the others a boolean; None if a comparison fails. */
  function TreeValue(env: Env, scope: P.Token -> Expr, e: P.Expr, r: Regs): (v: Option<Value>)
    requires Covered(e)
  {
    match e
    case EAtom(t) => Eval(env, scope(t), r)
    case EParen(x) => TreeValue(env, scope, x, r)
    case EUn(_, x) =>
      (match TreeValue(env, scope, x, r)
       case None => None
       case Some(v) => Some(Bool(Untrue(v))))
    case EBin(op, a, b) =>
      (match TreeValue(env, scope, a, r)
       case None => None
       case Some(v) =>
         match op
         case And => if Untrue(v) then Some(v) else TreeValue(env, scope, b, r)
         case Or => if Untrue(v) then TreeValue(env, scope, b, r) else Some(v)
         case _ =>
           match TreeValue(env, scope, b, r)
           case None => None
           case Some(w) => Related(env, op, v, w))
  }

  /** The comparisons: `a ~= b` is the negation of `a == b`, and `a > b` and
      `a >= b` are `b < a` and `b <= a`. */
  function Related(env: Env, op: P.BinOp, v: Value, w: Value): Option<Value> {
    match op
    case Eq => Truth(env.compare(CmpOp.EQ, v, w), true)
    case Ne => Truth(env.compare(CmpOp.EQ, v, w), false)
    case Lt => Truth(env.compare(CmpOp.LT, v, w), true)
    case Le => Truth(env.compare(CmpOp.LE, v, w), true)
    case Gt => Truth(env.compare(CmpOp.LT, w, v), true)
    case Ge => Truth(env.compare(CmpOp.LE, w, v), true)
    case _ => None
  }

  function Truth(res: Option<bool>, wanted: bool): Option<Value> {
    match res case None => None case Some(b) => Some(Bool(b == wanted))
  }

  /** What is passed on to the generator has the value of the tree. */
  lemma {:induction false} LowerValue(env: Env, scope: P.Token -> Expr, e: P.Expr, r: Regs)
    requires Covered(e)
    ensures Eval(env, Lower(scope, e), r) == TreeValue(env, scope, e, r)
  {
    hide Compare, Related;
    match e
    case EAtom(_) =>
    case EParen(x) => LowerValue(env, scope, x, r);
    case EUn(_, x) => LowerValue(env, scope, x, r);
    case EBin(op, a, b) =>
      LowerValue(env, scope, a, r);
      LowerValue(env, scope, b, r);
      forall v, w ensures op.And? || op.Or? || Compare(env, OpOf(op), v, w) == Related(env, op, v, w) {
        if !op.And? && !op.Or? { RelatedIs(env, op, v, w); }
      }
  }

  lemma RelatedIs(env: Env, op: P.BinOp, v: Value, w: Value)
    requires op.Eq? || op.Ne? || op.Lt? || op.Le? || op.Gt? || op.Ge?
    ensures Compare(env, OpOf(op), v, w) == Related(env, op, v, w)
  {}

  /** What a leaf stands for. */
  lemma LeafValues(env: Env, r: Regs)
    ensures Eval(env, ENil, r) == Some(Nil)
    ensures Eval(env, ETrue, r) == Some(Bool(true)) && Eval(env, EFalse, r) == Some(Bool(false))
    ensures forall s :: Eval(env, EStr(s), r) == Some(Str(s))
    ensures forall n :: Eval(env, ENum(n), r) == Some(Num(n))
    ensures forall i: nat :: i in r ==> Eval(env, ELocal(i), r) == Some(r[i])
    ensures forall u: nat :: u < |env.upvals| ==> Eval(env, EUpval(u), r) == Some(env.upvals[u])
  {}

  /** Parentheses matter to the reading of a text only, not to the value of the
      tree. */
  lemma {:induction false} StripValue(env: Env, scope: P.Token -> Expr, e: P.Expr, r: Regs)
    requires Covered(e)
    ensures Covered(P.Strip(e)) && TreeValue(env, scope, P.Strip(e), r) == TreeValue(env, scope, e, r)
  {
    match e
    case EAtom(_) =>
    case EParen(x) => StripValue(env, scope, x, r);
    case EUn(_, x) => StripValue(env, scope, x, r);
    case EBin(_, a, b) =>
      StripValue(env, scope, a, r);
      StripValue(env, scope, b, r);
  }

  /** A text is parsed, compiled and run: what comes to the register is the value
      of the tree that the manual's precedences give the text. */
  method EvaluateText(ts: seq<P.Token>, scope: P.Token -> Expr, fs: G.FuncState, m: X.Machine, env: Env, ghost e: P.Expr)
    returns (o: Out)
    requires P.Yield(e) == ts && P.Manual(e) && P.Depth(e) <= 200 && Covered(e)
    requires fs.Valid() && fs.pend == {} && WF(fs.Abs()) && Scoped(Lower(scope, e), fs.nactvar)
    requires m.pc == |fs.code| && Entry(fs.Abs(), |fs.code|, m.regs)
    modifies fs, m
    ensures fs.Valid() && fs.pend == {}
    ensures Delivers(TreeValue(env, scope, e, old(m.regs)), old(fs.freereg), old(m.regs), o)
    ensures o.Fall? ==> m.pc == |fs.code| && m.regs == o.r
  {
    var ls := new P.LexState(ts, 0);
    P.ParseExact(ts, e, 0);
    var tree, next := ls.SubExpr(0);
    StripValue(env, scope, e, m.regs);
    LowerValue(env, scope, tree.value, m.regs);
    o := CompileAndExecute(fs, Lower(scope, tree.value), m, env);
  }
}
