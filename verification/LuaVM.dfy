/** The instructions that lcode.c emits for conditions, and their meaning in
    luaV_execute.  A jump whose target is NO_JUMP is still pending. */
module LuaVM {
  import opened Options

  datatype Value = Nil | Bool(b: bool) | Num(n: int) | Str(s: string) | Other(id: int)

  type Regs = map<nat, Value>

  datatype CmpOp = EQ | LT | LE

  /** An operand that is a register or a constant (BITRK). */
  datatype RK = Reg(r: nat) | Kst(i: nat)

  datatype Instr =
    | Move(a: nat, b: nat)
    | LoadK(a: nat, bx: nat)
    | LoadBool(a: nat, val: bool, skip: bool)
    | LoadNil(a: nat, b: nat)
    | GetUpval(a: nat, b: nat)
    | NotR(a: nat, b: nat)
    | Jmp(target: int)
    | Cmp(op: CmpOp, cond: bool, rb: RK, rc: RK)
    | Test(b: nat, cond: bool)
    | TestSet(dst: int, b: nat, cond: bool)

  const NO_JUMP: int := -1

  /** A register number that no register has. */
  const NO_REG: int := -1

  /** What the code runs in: the upvalues, and the comparisons, which may fail
      on operands that cannot be compared. */
  datatype Env = Env(upvals: seq<Value>, compare: (CmpOp, Value, Value) -> Option<bool>)

  datatype Ctx = Ctx(k: seq<Value>, env: Env)

  /** How a stretch of code ends: at its end, through a pending jump, or with
      an error.  `Stuck` is a run that leaves the stretch in any other way. */
  datatype Out = Fall(r: Regs) | Exit(j: nat, r: Regs) | Fail | Stuck

  function Get(r: Regs, i: nat): Value { if i in r then r[i] else Nil }

  predicate IsFalse(v: Value) { v == Nil || v == Bool(false) }

  function Upval(env: Env, i: nat): Value { if i < |env.upvals| then env.upvals[i] else Nil }

  function RKValue(ctx: Ctx, r: Regs, x: RK): Option<Value> {
    match x
    case Reg(i) => Some(Get(r, i))
    case Kst(i) => if i < |ctx.k| then Some(ctx.k[i]) else None
  }

  function NilRange(r: Regs, a: nat, b: nat): (t: Regs)
    ensures forall i: nat :: Get(t, i) == if a <= i <= b then Nil else Get(r, i)
    decreases b
  {
    if a > b then r
    else if b == 0 then r[0 := Nil]
    else NilRange(r[b := Nil], a, b - 1)
  }

  predicate IsTest(i: Instr) { i.Cmp? || i.Test? || i.TestSet? }

  /** Whether the test at hand takes the jump that follows it. */
  function Cond(ctx: Ctx, i: Instr, r: Regs): Option<bool>
    requires IsTest(i)
  {
    match i
    case Cmp(op, cond, rb, rc) =>
      var b, c := RKValue(ctx, r, rb), RKValue(ctx, r, rc);
      if b.None? || c.None? then None
      else
        (match ctx.env.compare(op, b.value, c.value)
         case None => None
         case Some(res) => Some(res == cond))
    case Test(b, cond) => Some(IsFalse(Get(r, b)) != cond)
    case TestSet(_, b, cond) => Some(IsFalse(Get(r, b)) != cond)
  }

  predicate IsPlain(i: Instr) { !IsTest(i) && !i.Jmp? && !i.LoadBool? }

  /** An instruction that only writes registers; None if it is malformed. */
  function Plain(ctx: Ctx, i: Instr, r: Regs): Option<Regs>
    requires IsPlain(i)
  {
    match i
    case Move(a, b) => Some(r[a := Get(r, b)])
    case LoadK(a, bx) => if bx < |ctx.k| then Some(r[a := ctx.k[bx]]) else None
    case LoadNil(a, b) => if a <= b then Some(NilRange(r, a, b)) else None
    case GetUpval(a, b) => Some(r[a := Upval(ctx.env, b)])
    case NotR(a, b) => Some(r[a := Bool(IsFalse(Get(r, b)))])
  }

  /** luaV_execute from `p` until `q` is reached. */
  function Exec(ctx: Ctx, c: seq<Instr>, p: nat, q: nat, r: Regs): Out
    requires q <= |c|
    decreases if p <= q then q - p else 0
  {
    if p == q then Fall(r)
    else if p > q then Stuck
    else
      match c[p]
      case Jmp(d) => Follow(ctx, c, p, q, r, r)
      case LoadBool(a, val, skip) => Exec(ctx, c, if skip then p + 2 else p + 1, q, r[a := Bool(val)])
      case Cmp(_, _, _, _) => Branch(ctx, c, p, q, r)
      case Test(_, _) => Branch(ctx, c, p, q, r)
      case TestSet(_, _, _) => Branch(ctx, c, p, q, r)
      case _ =>
        var n := Plain(ctx, c[p], r);
        if n.None? then Stuck else Exec(ctx, c, p + 1, q, n.value)
  }

  /** A test: skip the next instruction, or take the jump it holds. */
  function Branch(ctx: Ctx, c: seq<Instr>, p: nat, q: nat, r: Regs): Out
    requires p < q <= |c| && IsTest(c[p])
    decreases q - p, 1
  {
    if p + 1 >= q || !c[p + 1].Jmp? then Stuck
    else
      match Cond(ctx, c[p], r)
      case None => Fail
      case Some(false) => Exec(ctx, c, p + 2, q, r)
      case Some(true) => Follow(ctx, c, p + 1, q, r, Chosen(c[p], r))
  }

  /** What TESTSET stores when it takes its jump. */
  function Chosen(i: Instr, r: Regs): Regs {
    if i.TestSet? && i.dst >= 0 then r[i.dst := Get(r, i.b)] else r
  }

  /** The jump at `p`: `r` if it is pending, `s` where it leads. */
  function Follow(ctx: Ctx, c: seq<Instr>, p: nat, q: nat, r: Regs, s: Regs): Out
    requires p < q <= |c| && c[p].Jmp?
    decreases q - p, 0
  {
    var d := c[p].target;
    if d == NO_JUMP then Exit(p, r)
    else if d <= p || d > q then Stuck
    else Exec(ctx, c, d, q, s)
  }

  // ---------------------------------------------------------------------
  // Running stretches of code

  /** A run looks only at the stretch it covers. */
  lemma {:induction false} ExecFrame(ctx: Ctx, c: seq<Instr>, d: seq<Instr>, p: nat, q: nat, r: Regs)
    requires q <= |c| && q <= |d| && forall i :: p <= i < q ==> c[i] == d[i]
    ensures Exec(ctx, c, p, q, r) == Exec(ctx, d, p, q, r)
    decreases if p <= q then q - p else 0
  {
    if p < q {
      match c[p]
      case Jmp(t) => if p < t <= q { ExecFrame(ctx, c, d, t, q, r); }
      case LoadBool(a, val, skip) => ExecFrame(ctx, c, d, if skip then p + 2 else p + 1, q, r[a := Bool(val)]);
      case Cmp(_, _, _, _) => BranchFrame(ctx, c, d, p, q, r);
      case Test(_, _) => BranchFrame(ctx, c, d, p, q, r);
      case TestSet(_, _, _) => BranchFrame(ctx, c, d, p, q, r);
      case _ =>
        var n := Plain(ctx, c[p], r);
        if n.Some? { ExecFrame(ctx, c, d, p + 1, q, n.value); }
    }
  }

  lemma {:induction false} BranchFrame(ctx: Ctx, c: seq<Instr>, d: seq<Instr>, p: nat, q: nat, r: Regs)
    requires p < q <= |c| && q <= |d| && IsTest(c[p]) && forall i :: p <= i < q ==> c[i] == d[i]
    ensures Branch(ctx, c, p, q, r) == Branch(ctx, d, p, q, r)
    decreases q - p, 0
  {
    if p + 1 < q && c[p + 1].Jmp? {
      ExecFrame(ctx, c, d, p + 2, q, r);
      var t := c[p + 1].target;
      if p + 1 < t <= q { ExecFrame(ctx, c, d, t, q, Chosen(c[p], r)); }
    }
  }

  /** A run to `q2` is the run to an earlier `q1` and then on from there. */
  lemma {:induction false} ExecSplit(ctx: Ctx, c: seq<Instr>, p: nat, q1: nat, q2: nat, r: Regs)
    requires q1 <= q2 <= |c|
    ensures var o := Exec(ctx, c, p, q1, r);
      match o
      case Fall(s) => Exec(ctx, c, p, q2, r) == Exec(ctx, c, q1, q2, s)
      case Exit(_, _) => Exec(ctx, c, p, q2, r) == o
      case Fail => Exec(ctx, c, p, q2, r) == o
      case Stuck => true
    decreases if p <= q1 then q1 - p else 0
  {
    if p < q1 {
      match c[p]
      case Jmp(t) => if p < t <= q1 { ExecSplit(ctx, c, t, q1, q2, r); }
      case LoadBool(a, val, skip) => ExecSplit(ctx, c, if skip then p + 2 else p + 1, q1, q2, r[a := Bool(val)]);
      case Cmp(_, _, _, _) => BranchSplit(ctx, c, p, q1, q2, r);
      case Test(_, _) => BranchSplit(ctx, c, p, q1, q2, r);
      case TestSet(_, _, _) => BranchSplit(ctx, c, p, q1, q2, r);
      case _ =>
        var n := Plain(ctx, c[p], r);
        if n.Some? { ExecSplit(ctx, c, p + 1, q1, q2, n.value); }
    }
  }

  lemma {:induction false} BranchSplit(ctx: Ctx, c: seq<Instr>, p: nat, q1: nat, q2: nat, r: Regs)
    requires p < q1 <= q2 <= |c| && IsTest(c[p])
    ensures var o := Exec(ctx, c, p, q1, r);
      match o
      case Fall(s) => Exec(ctx, c, p, q2, r) == Exec(ctx, c, q1, q2, s)
      case Exit(_, _) => Exec(ctx, c, p, q2, r) == o
      case Fail => Exec(ctx, c, p, q2, r) == o
      case Stuck => true
    decreases q1 - p, 0
  {
    assert Exec(ctx, c, p, q1, r) == Branch(ctx, c, p, q1, r);
    assert Exec(ctx, c, p, q2, r) == Branch(ctx, c, p, q2, r);
    if p + 1 < q1 && c[p + 1].Jmp? {
      ExecSplit(ctx, c, p + 2, q1, q2, r);
      FollowSplit(ctx, c, p + 1, q1, q2, r, Chosen(c[p], r));
    }
  }

  lemma {:induction false} FollowSplit(ctx: Ctx, c: seq<Instr>, p: nat, q1: nat, q2: nat, r: Regs, s: Regs)
    requires p < q1 <= q2 <= |c| && c[p].Jmp?
    ensures var o := Follow(ctx, c, p, q1, r, s);
      match o
      case Fall(t) => Follow(ctx, c, p, q2, r, s) == Exec(ctx, c, q1, q2, t)
      case Exit(_, _) => Follow(ctx, c, p, q2, r, s) == o
      case Fail => Follow(ctx, c, p, q2, r, s) == o
      case Stuck => true
    decreases q1 - p, 0
  {
    if p < c[p].target <= q1 { ExecSplit(ctx, c, c[p].target, q1, q2, s); }
  }
}
