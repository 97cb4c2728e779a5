/** The expression code generator of lcode.c, with the lists of pending jumps
    taken as sets; LuaJumps threads them through the code. */
module LuaCode {
  import opened Options
  import opened LuaVM

  // ---------------------------------------------------------------------
  // Source expressions and their meaning

  datatype BinOp = And | Or | Eq | Ne | Lt | Le | Gt | Ge

  datatype Expr =
    | ENil | ETrue | EFalse
    | EStr(s: string)
    | ENum(n: int)
    | ELocal(r: nat)
    | EUpval(u: nat)
    | EParen(e: Expr)
    | ENot(e: Expr)
    | EBin(op: BinOp, a: Expr, b: Expr)

  /** The value of an expression, or None if a comparison fails. */
  function Eval(env: Env, x: Expr, r: Regs): Option<Value> {
    match x
    case ENil => Some(Nil)
    case ETrue => Some(Bool(true))
    case EFalse => Some(Bool(false))
    case EStr(s) => Some(Str(s))
    case ENum(n) => Some(Num(n))
    case ELocal(i) => Some(Get(r, i))
    case EUpval(u) => Some(Upval(env, u))
    case EParen(e) => Eval(env, e, r)
    case ENot(e) =>
      var v := Eval(env, e, r);
      if v.None? then None else Some(Bool(IsFalse(v.value)))
    case EBin(op, a, b) =>
      var v := Eval(env, a, r);
      if v.None? then None
      else if op == And then (if IsFalse(v.value) then v else Eval(env, b, r))
      else if op == Or then (if IsFalse(v.value) then Eval(env, b, r) else v)
      else
        var w := Eval(env, b, r);
        if w.None? then None else Compare(env, op, v.value, w.value)
  }

  /** `>` and `>=` are `<` and `<=` with the operands exchanged. */
  function Compare(env: Env, op: BinOp, v: Value, w: Value): Option<Value>
    requires op != And && op != Or
  {
    var res :=
      match op
      case Eq => env.compare(CmpOp.EQ, v, w)
      case Ne => env.compare(CmpOp.EQ, v, w)
      case Lt => env.compare(CmpOp.LT, v, w)
      case Le => env.compare(CmpOp.LE, v, w)
      case Gt => env.compare(CmpOp.LT, w, v)
      case Ge => env.compare(CmpOp.LE, w, v);
    if res.None? then None else Some(Bool(if op == Ne then !res.value else res.value))
  }

  // ---------------------------------------------------------------------
  // State of the generator

  datatype Kind =
    | VNil | VTrue | VFalse
    | VK(info: nat)
    | VKNum(nval: int)
    | VLocal(reg: nat)
    | VUpval(idx: nat)
    | VJmp(j: nat)
    | VReloc(pc: nat)
    | VNonReloc(r: nat)

  /** expdesc: `t` and `f` are the pending exits on true and on false. */
  datatype Exp = Exp(k: Kind, t: set<nat>, f: set<nat>)

  /** FuncState.  `jpc` holds the pending jumps to the next instruction. */
  datatype FS = FS(code: seq<Instr>, jpc: set<nat>, freereg: nat, nactvar: nat, k: seq<Value>, lasttarget: int)

  const MAXINDEXRK: nat := 255

  // ---------------------------------------------------------------------
  // Jumps

  /** getjumpcontrol: the test before a jump, if there is one, controls it. */
  predicate TestSetControls(code: seq<Instr>, j: nat) {
    1 <= j <= |code| && code[j - 1].TestSet?
  }

  /** patchtestreg on the controlling TESTSET. */
  function PatchedTest(i: Instr, reg: int): Instr
    requires i.TestSet?
  {
    if reg != NO_REG && reg != i.b then i.(dst := reg) else Test(i.b, i.cond)
  }

  function PatchInstr(code: seq<Instr>, l: set<nat>, vtarget: int, reg: int, dtarget: int, i: nat): Instr
    requires i < |code|
  {
    if i in l && code[i].Jmp? then Jmp(if TestSetControls(code, i) then vtarget else dtarget)
    else if i + 1 in l && code[i].TestSet? then PatchedTest(code[i], reg)
    else code[i]
  }

  /** patchlistaux. */
  function Patch(code: seq<Instr>, l: set<nat>, vtarget: int, reg: int, dtarget: int): (c: seq<Instr>)
    ensures |c| == |code|
    ensures forall i :: 0 <= i < |c| ==> c[i] == PatchInstr(code, l, vtarget, reg, dtarget, i)
  {
    seq(|code|, i requires 0 <= i < |code| => PatchInstr(code, l, vtarget, reg, dtarget, i))
  }

  /** The code with the pending jumps to the next instruction resolved. */
  function RCode(fs: FS): (c: seq<Instr>)
    ensures |c| == |fs.code|
  {
    Patch(fs.code, fs.jpc, |fs.code|, NO_REG, |fs.code|)
  }

  /** luaK_code: emit one instruction, after dischargejpc. */
  function Emit(fs: FS, i: Instr): FS {
    fs.(code := RCode(fs) + [i], jpc := {})
  }

  /** luaK_jump: jumps to this jump go where it goes. */
  function Jump(fs: FS): (FS, set<nat>) {
    (fs.(code := fs.code + [Jmp(NO_JUMP)], jpc := {}), {|fs.code|} + fs.jpc)
  }

  function CondJump(fs: FS, i: Instr): (FS, set<nat>) { Jump(Emit(fs, i)) }

  function GetLabel(fs: FS): FS { fs.(lasttarget := |fs.code|) }

  function PatchToHere(fs: FS, l: set<nat>): FS { GetLabel(fs).(jpc := fs.jpc + l) }

  predicate NeedValue(fs: FS, l: set<nat>) { exists j :: j in l && !TestSetControls(fs.code, j) }

  /** removevalues. */
  function RemoveValues(fs: FS, l: set<nat>): FS {
    fs.(code := seq(|fs.code|, i requires 0 <= i < |fs.code| =>
                 if i + 1 in l && fs.code[i].TestSet? then Test(fs.code[i].b, fs.code[i].cond) else fs.code[i]))
  }

  // ---------------------------------------------------------------------
  // Registers and constants

  function FreeReg(fs: FS, r: nat): FS {
    if r >= fs.nactvar && fs.freereg > 0 then fs.(freereg := fs.freereg - 1) else fs
  }

  function FreeExp(fs: FS, e: Exp): FS { if e.k.VNonReloc? then FreeReg(fs, e.k.r) else fs }

  function FindK(k: seq<Value>, v: Value): (i: nat)
    ensures i <= |k| && (i < |k| ==> k[i] == v)
  {
    if k == [] then 0 else if k[0] == v then 0 else 1 + FindK(k[1..], v)
  }

  /** addk: constants are shared. */
  function AddK(fs: FS, v: Value): (t: (FS, nat))
    ensures t.0 == fs.(k := t.0.k) && fs.k <= t.0.k && t.1 < |t.0.k| && t.0.k[t.1] == v
  {
    var i := FindK(fs.k, v);
    if i < |fs.k| then (fs, i) else (fs.(k := fs.k + [v]), |fs.k|)
  }

  /** A constant that is there already is shared, and a new one put last. */
  lemma {:induction false} AddKShares(fs: FS, v: Value)
    ensures AddK(fs, v).0.k == if v in fs.k then fs.k else fs.k + [v]
    decreases |fs.k|
  {
    if fs.k != [] {
      AddKShares(fs.(k := fs.k[1..]), v);
      assert fs.k == [fs.k[0]] + fs.k[1..];
    }
  }

  // ---------------------------------------------------------------------
  // Discharging expressions

  function DischargeVars(fs: FS, e: Exp): (FS, Exp) {
    match e.k
    case VLocal(r) => (fs, e.(k := VNonReloc(r)))
    case VUpval(u) => (Emit(fs, GetUpval(0, u)), e.(k := VReloc(|fs.code|)))
    case _ => (fs, e)
  }

  /** luaK_nil for one register: extend a preceding LOADNIL if no jump comes
      between, and rely on fresh registers at the start of a function. */
  function NilInto(fs: FS, from: nat): FS {
    var n := |fs.code|;
    if n > fs.lasttarget && n == 0 && from >= fs.nactvar then fs
    else if n > fs.lasttarget && n > 0 && fs.code[n - 1].LoadNil?
            && fs.code[n - 1].a <= from <= fs.code[n - 1].b + 1 then
      if from > fs.code[n - 1].b then fs.(code := fs.code[n - 1 := LoadNil(fs.code[n - 1].a, from)]) else fs
    else Emit(fs, LoadNil(from, from))
  }

  function SetA(i: Instr, reg: nat): Instr {
    match i
    case GetUpval(_, b) => GetUpval(reg, b)
    case NotR(_, b) => NotR(reg, b)
    case _ => i
  }

  function Discharge2Reg(fs: FS, e: Exp, reg: nat): (FS, Exp) {
    var (fs1, e1) := DischargeVars(fs, e);
    var done := e1.(k := VNonReloc(reg));
    match e1.k
    case VNil => (NilInto(fs1, reg), done)
    case VTrue => (Emit(fs1, LoadBool(reg, true, false)), done)
    case VFalse => (Emit(fs1, LoadBool(reg, false, false)), done)
    case VK(i) => (Emit(fs1, LoadK(reg, i)), done)
    case VKNum(n) => var (fs2, i) := AddK(fs1, Num(n)); (Emit(fs2, LoadK(reg, i)), done)
    case VReloc(pc) => (if pc < |fs1.code| then fs1.(code := fs1.code[pc := SetA(fs1.code[pc], reg)]) else fs1, done)
    case VNonReloc(r) => (if r != reg then Emit(fs1, Move(reg, r)) else fs1, done)
    case VJmp(_) => (fs1, e1)
    case VLocal(_) => (fs1, e1)
    case VUpval(_) => (fs1, e1)
  }

  function Reserve(fs: FS, n: nat): FS { fs.(freereg := fs.freereg + n) }

  function Discharge2AnyReg(fs: FS, e: Exp): (FS, Exp) {
    if e.k.VNonReloc? then (fs, e) else Discharge2Reg(Reserve(fs, 1), e, fs.freereg)
  }

  /** code_label: these instructions may be jump targets. */
  function CodeLabel(fs: FS, reg: nat, val: bool, skip: bool): FS { Emit(GetLabel(fs), LoadBool(reg, val, skip)) }

  /** exp2reg: the value ends in `reg`, however the code leaves. */
  function Exp2Reg(fs: FS, e: Exp, reg: nat): (FS, Exp) {
    var (fs1, e1) := Discharge2Reg(fs, e, reg);
    var t := if e1.k.VJmp? then e1.t + {e1.k.j} else e1.t;
    var fs4 := if t == e1.f then fs1 else FinishJumps(fs1, e1.k.VJmp?, t, e1.f, reg);
    (fs4, Exp(VNonReloc(reg), {}, {}))
  }

  /** The second half of exp2reg: the loads of true and false for the exits
      that carry no value, and the patching of both lists. */
  function FinishJumps(fs: FS, isjmp: bool, t: set<nat>, f: set<nat>, reg: nat): FS {
    if NeedValue(fs, t) || NeedValue(fs, f) then
      var (fs1, fj) := if isjmp then (fs, {}) else Jump(fs);
      var pf := |fs1.code|;
      var fs2 := CodeLabel(CodeLabel(fs1, reg, false, true), reg, true, false);
      var fs3 := PatchToHere(fs2, fj);
      PatchBoth(GetLabel(fs3), t, f, reg, pf, pf + 1)
    else
      PatchBoth(GetLabel(fs), t, f, reg, NO_JUMP, NO_JUMP)
  }

  function PatchBoth(fs: FS, t: set<nat>, f: set<nat>, reg: nat, pf: int, pt: int): FS {
    var n := |fs.code|;
    fs.(code := Patch(Patch(fs.code, f, n, reg, pf), t, n, reg, pt))
  }

  function Exp2NextReg(fs: FS, e: Exp): (FS, Exp) {
    var (fs1, e1) := DischargeVars(fs, e);
    var fs2 := FreeExp(fs1, e1);
    Exp2Reg(Reserve(fs2, 1), e1, fs2.freereg)
  }

  predicate HasJumps(e: Exp) { e.t != e.f }

  function Exp2AnyReg(fs: FS, e: Exp): (FS, Exp) {
    var (fs1, e1) := DischargeVars(fs, e);
    if e1.k.VNonReloc? && !HasJumps(e1) then (fs1, e1)
    else if e1.k.VNonReloc? && e1.k.r >= fs1.nactvar then Exp2Reg(fs1, e1, e1.k.r)
    else Exp2NextReg(fs1, e1)
  }

  function Exp2Val(fs: FS, e: Exp): (FS, Exp) { if HasJumps(e) then Exp2AnyReg(fs, e) else DischargeVars(fs, e) }

  function ConstValue(k: Kind): Value
    requires k.VNil? || k.VTrue? || k.VFalse? || k.VKNum?
  {
    match k case VNil => Nil case VTrue => Bool(true) case VFalse => Bool(false) case VKNum(n) => Num(n)
  }

  predicate IsConst(k: Kind) { k.VNil? || k.VTrue? || k.VFalse? || k.VKNum? }

  /** luaK_exp2RK: a constant operand if it fits, else a register. */
  function Exp2RK(fs: FS, e: Exp): (FS, Exp) {
    var (fs1, e1) := Exp2Val(fs, e);
    if IsConst(e1.k) && |fs1.k| <= MAXINDEXRK then
      var (fs2, i) := AddK(fs1, ConstValue(e1.k));
      (fs2, e1.(k := VK(i)))
    else if e1.k.VK? && e1.k.info <= MAXINDEXRK then (fs1, e1)
    else Exp2AnyReg(fs1, e1)
  }

  /** The operand that an expression put through luaK_exp2RK denotes. */
  function Operand(e: Exp): RK {
    match e.k
    case VK(i) => Kst(i)
    case VNonReloc(r) => Reg(r)
    case _ => Reg(0)
  }

  // ---------------------------------------------------------------------
  // Conditions

  /** Constants, whose truth is known (VK only ever holds a string here). */
  predicate Truthy(k: Kind) { k.VK? || k.VKNum? || k.VTrue? }

  predicate Falsy(k: Kind) { k.VNil? || k.VFalse? }

  function InvertJump(fs: FS, j: nat): FS {
    if 1 <= j <= |fs.code| && fs.code[j - 1].Cmp? then
      var i := fs.code[j - 1];
      fs.(code := fs.code[j - 1 := Cmp(i.op, !i.cond, i.rb, i.rc)])
    else fs
  }

  /** jumponcond: jump if the value is `cond`. */
  function JumpOnCond(fs: FS, e: Exp, cond: bool): (FS, set<nat>) {
    if e.k.VReloc? && e.k.pc < |fs.code| && fs.code[e.k.pc].NotR? then
      CondJump(fs.(code := fs.code[..|fs.code| - 1]), Test(fs.code[e.k.pc].b, !cond))
    else
      var (fs1, e1) := Discharge2AnyReg(fs, e);
      var fs2 := FreeExp(fs1, e1);
      CondJump(fs2, TestSet(NO_REG, if e1.k.VNonReloc? then e1.k.r else 0, cond))
  }

  function GoIfTrue(fs: FS, e: Exp): (FS, Exp) {
    var (fs1, e1) := DischargeVars(fs, e);
    var (fs2, l) :=
      match e1.k
      case VK(_) => (fs1, {})
      case VKNum(_) => (fs1, {})
      case VTrue => (fs1, {})
      case VJmp(j) => (InvertJump(fs1, j), {j})
      case _ => JumpOnCond(fs1, e1, false);
    (PatchToHere(fs2, e1.t), Exp(e1.k, {}, e1.f + l))
  }

  function GoIfFalse(fs: FS, e: Exp): (FS, Exp) {
    var (fs1, e1) := DischargeVars(fs, e);
    var (fs2, l) :=
      match e1.k
      case VNil => (fs1, {})
      case VFalse => (fs1, {})
      case VJmp(j) => (fs1, {j})
      case _ => JumpOnCond(fs1, e1, true);
    (PatchToHere(fs2, e1.f), Exp(e1.k, e1.t + l, {}))
  }

  function CodeNot(fs: FS, e: Exp): (FS, Exp) {
    var (fs1, e1) := DischargeVars(fs, e);
    var (fs2, k) :=
      match e1.k
      case VNil => (fs1, VTrue)
      case VFalse => (fs1, VTrue)
      case VK(_) => (fs1, VFalse)
      case VKNum(_) => (fs1, VFalse)
      case VTrue => (fs1, VFalse)
      case VJmp(j) => (InvertJump(fs1, j), e1.k)
      case _ =>
        var (fs3, e3) := Discharge2AnyReg(fs1, e1);
        var fs4 := FreeExp(fs3, e3);
        (Emit(fs4, NotR(0, if e3.k.VNonReloc? then e3.k.r else 0)), VReloc(|fs4.code|));
    (RemoveValues(RemoveValues(fs2, e1.t), e1.f), Exp(k, e1.f, e1.t))
  }

  function CodeComp(fs: FS, op: CmpOp, cond: bool, e1: Exp, e2: Exp): (FS, Exp) {
    var (fs1, x1) := Exp2RK(fs, e1);
    var (fs2, x2) := Exp2RK(fs1, e2);
    var fs3 := FreeExp(FreeExp(fs2, x2), x1);
    var o1, o2 := Operand(x1), Operand(x2);
    var i := if !cond && op != EQ then Cmp(op, true, o2, o1) else Cmp(op, cond, o1, o2);
    var (fs4, l) := CondJump(fs3, i);
    (fs4, Exp(VJmp(|fs4.code| - 1), x1.t, x1.f))
  }

  // ---------------------------------------------------------------------
  // Operators

  function Infix(fs: FS, op: BinOp, e: Exp): (FS, Exp) {
    match op
    case And => GoIfTrue(fs, e)
    case Or => GoIfFalse(fs, e)
    case _ => Exp2RK(fs, e)
  }

  function Posfix(fs: FS, op: BinOp, e1: Exp, e2: Exp): (FS, Exp) {
    match op
    case And => var (fs1, x) := DischargeVars(fs, e2); (fs1, x.(f := x.f + e1.f))
    case Or => var (fs1, x) := DischargeVars(fs, e2); (fs1, x.(t := x.t + e1.t))
    case Eq => CodeComp(fs, CmpOp.EQ, true, e1, e2)
    case Ne => CodeComp(fs, CmpOp.EQ, false, e1, e2)
    case Lt => CodeComp(fs, CmpOp.LT, true, e1, e2)
    case Le => CodeComp(fs, CmpOp.LE, true, e1, e2)
    case Gt => CodeComp(fs, CmpOp.LT, false, e1, e2)
    case Ge => CodeComp(fs, CmpOp.LE, false, e1, e2)
  }

  /** What the parser does for an expression tree. */
  function Compile(fs: FS, x: Expr): (FS, Exp)
    decreases x
  {
    match x
    case ENil => (fs, Exp(VNil, {}, {}))
    case ETrue => (fs, Exp(VTrue, {}, {}))
    case EFalse => (fs, Exp(VFalse, {}, {}))
    case EStr(s) => var (fs1, i) := AddK(fs, Str(s)); (fs1, Exp(VK(i), {}, {}))
    case ENum(n) => (fs, Exp(VKNum(n), {}, {}))
    case ELocal(r) => (fs, Exp(VLocal(r), {}, {}))
    case EUpval(u) => (fs, Exp(VUpval(u), {}, {}))
    case EParen(e) => var (fs1, e1) := Compile(fs, e); DischargeVars(fs1, e1)
    case ENot(e) => var (fs1, e1) := Compile(fs, e); CodeNot(fs1, e1)
    case EBin(op, a, b) =>
      var (fs1, e1) := Compile(fs, a);
      var (fs2, e2) := Infix(fs1, op, e1);
      var (fs3, e3) := Compile(fs2, b);
      Posfix(fs3, op, e2, e3)
  }

  /** An expression whose value goes to the next free register. */
  function CompileToNextReg(fs: FS, x: Expr): (FS, Exp) {
    var (fs1, e1) := Compile(fs, x);
    Exp2NextReg(fs1, e1)
  }
}
