/** What an expression descriptor denotes, and that every way of discharging it
    keeps the denotation. */
module LuaCodeDen {
  import opened Options
  import opened LuaVM
  import opened LuaCode
  import opened LuaCodeExec
  import opened LuaCodeShape

  // ---------------------------------------------------------------------
  // Denotation

  function Own(e: Exp): set<nat> { e.t + e.f + (if e.k.VJmp? then {e.k.j} else {}) }

  /** Where a kind keeps its value, relative to the state `fs0` in which the
      expression began. */
  ghost predicate KindOK(fs0: FS, fs: FS, k: Kind) {
    var n := |fs.code|;
    match k
    case VJmp(j) =>
      j + 1 == n && j > |fs0.code| && fs.code[j - 1].Cmp? && fs.jpc == {} && fs.lasttarget + 2 <= n
    case VReloc(pc) =>
      pc + 1 == n && pc >= |fs0.code| && (fs.code[pc].NotR? || fs.code[pc].GetUpval?) && fs.jpc == {}
      && fs.lasttarget < n
    case VNonReloc(r) => r < fs.nactvar || r == fs0.freereg
    case VLocal(r) => r < fs.nactvar
    case VK(i) => i < |fs.k|
    case _ => true
  }

  predicate IsTemp(fs: FS, k: Kind) { k.VNonReloc? && k.r >= fs.nactvar }

  ghost predicate St(fs0: FS, fs: FS, e: Exp) {
    && WF(fs0) && Grown(fs0, fs, Own(e)) && e.t !! e.f
    && (e.k.VJmp? ==> e.k.j !in e.t + e.f)
    && KindOK(fs0, fs, e.k)
    && fs.freereg == fs0.freereg + (if IsTemp(fs, e.k) then 1 else 0)
  }

  ghost predicate Agree(r: Regs, s: Regs, n: nat) { forall i: nat :: i < n ==> Get(r, i) == Get(s, i) }

  /** The starting points of a run: a label, or the start of the function. */
  ghost predicate Entry(fs0: FS, p: nat, r: Regs) {
    && p <= |fs0.code| && Outside(fs0.code, p)
    && (p <= fs0.lasttarget || (p == 0 && forall i: nat :: i >= fs0.nactvar ==> Get(r, i) == Nil))
  }

  /** How far the code goes before the kind itself takes over. */
  function End(fs: FS, k: Kind): nat {
    var n := |fs.code|;
    match k
    case VJmp(_) => if n >= 2 then n - 2 else 0
    case VReloc(_) => if n >= 1 then n - 1 else 0
    case _ => n
  }

  function KindValue(ctx: Ctx, fs: FS, k: Kind, s: Regs): Option<Value> {
    match k
    case VNil => Some(Nil)
    case VTrue => Some(Bool(true))
    case VFalse => Some(Bool(false))
    case VK(i) => if i < |ctx.k| then Some(ctx.k[i]) else None
    case VKNum(n) => Some(Num(n))
    case VLocal(i) => Some(Get(s, i))
    case VUpval(u) => Some(Upval(ctx.env, u))
    case VNonReloc(i) => Some(Get(s, i))
    case VReloc(pc) => if pc < |fs.code| then RelocValue(ctx, fs.code[pc], s) else None
    case VJmp(j) =>
      if 1 <= j <= |fs.code| && IsTest(fs.code[j - 1]) then
        var b := Cond(ctx, fs.code[j - 1], s);
        if b.None? then None else Some(Bool(b.value))
      else None
  }

  /** The value that a relocatable instruction puts into its register. */
  function RelocValue(ctx: Ctx, i: Instr, s: Regs): Option<Value> {
    match i
    case NotR(_, b) => Some(Bool(IsFalse(Get(s, b))))
    case GetUpval(_, u) => Some(Upval(ctx.env, u))
    case _ => None
  }

  /** The run has left through the exit `j` of `e` with the value `v`. */
  ghost predicate Left(fs: FS, e: Exp, v: Value, j: nat, s: Regs) {
    && (if IsFalse(v) then j in e.f else j in e.t)
    && if TestSetControls(fs.code, j) then v == Get(s, fs.code[j - 1].b) else v == Bool(!IsFalse(v))
  }

  ghost predicate Meets(ctx: Ctx, n0: nat, fs: FS, e: Exp, res: Option<Value>, r0: Regs, o: Out) {
    match o
    case Fall(s) => Agree(r0, s, n0) && KindValue(ctx, fs, e.k, s) == res
    case Exit(j, s) => Agree(r0, s, n0) && res.Some? && Left(fs, e, res.value, j, s)
    case Fail => res.None?
    case Stuck => false
  }

  /** A run of everything emitted so far. */
  function Full(ctx: Ctx, fs: FS, p: nat, r: Regs): Out { Exec(ctx, RCode(fs), p, |fs.code|, r) }

  ghost predicate DenAt(ctx: Ctx, fs0: FS, fs: FS, e: Exp, x: Expr, p: nat, r: Regs) {
    var o := Exec(ctx, RCode(fs), p, End(fs, e.k), r);
    match Full(ctx, fs0, p, r)
    case Fall(r0) => Meets(ctx, fs0.freereg, fs, e, Eval(ctx.env, x, r0), r0, o)
    case Stuck => true
    case Exit(j, s) => o == Exit(j, s)
    case Fail => o == Fail
  }

  /** `e`, in the state `fs`, denotes the expression `x` begun in `fs0`. */
  ghost predicate Den(ctx: Ctx, fs0: FS, fs: FS, e: Exp, x: Expr) {
    forall p, r :: Entry(fs0, p, r) ==> DenAt(ctx, fs0, fs, e, x, p, r)
  }

  // ---------------------------------------------------------------------
  // Atoms

  lemma AtomDen(ctx: Ctx, fs: FS, k: Kind, x: Expr)
    requires WF(fs) && !k.VJmp? && !k.VReloc? && !k.VNonReloc? && KindOK(fs, fs, k)
    requires forall r :: KindValue(ctx, fs, k, r) == Eval(ctx.env, x, r)
    ensures St(fs, fs, Exp(k, {}, {})) && Den(ctx, fs, fs, Exp(k, {}, {}), x)
  {
    GrownRefl(fs);
  }

  // ---------------------------------------------------------------------
  // luaK_dischargevars

  predicate Discharged(k: Kind) { !k.VLocal? && !k.VUpval? }

  lemma DischargeVarsDen(ctx: Ctx, fs0: FS, fs: FS, e: Exp, x: Expr)
    requires St(fs0, fs, e) && Den(ctx, fs0, fs, e, x)
    ensures var (fs1, e1) := DischargeVars(fs, e);
      && St(fs0, fs1, e1) && Den(ctx, fs0, fs1, e1, x) && Discharged(e1.k)
      && e1.t == e.t && e1.f == e.f && fs1.k == fs.k && fs1.freereg == fs.freereg
  {
    match e.k
    case VUpval(u) => UpvalDen(ctx, fs0, fs, e, x);
    case VLocal(i) => LocalDen(ctx, fs0, fs, e, x);
    case _ =>
  }

  lemma LocalDen(ctx: Ctx, fs0: FS, fs: FS, e: Exp, x: Expr)
    requires St(fs0, fs, e) && Den(ctx, fs0, fs, e, x) && e.k.VLocal?
    ensures var e1 := e.(k := VNonReloc(e.k.reg)); St(fs0, fs, e1) && Den(ctx, fs0, fs, e1, x)
  {
    var e1 := e.(k := VNonReloc(e.k.reg));
    assert Own(e1) == Own(e);
    forall p, r | Entry(fs0, p, r) ensures DenAt(ctx, fs0, fs, e1, x, p, r) {
      assert DenAt(ctx, fs0, fs, e, x, p, r);
    }
  }

  lemma UpvalDen(ctx: Ctx, fs0: FS, fs: FS, e: Exp, x: Expr)
    requires St(fs0, fs, e) && Den(ctx, fs0, fs, e, x) && e.k.VUpval?
    ensures var (fs1, e1) := DischargeVars(fs, e); St(fs0, fs1, e1) && Den(ctx, fs0, fs1, e1, x)
  {
    var (fs1, e1) := DischargeVars(fs, e);
    var i := GetUpval(0, e.k.idx);
    EmitGrown(fs0, fs, Own(e), i);
    RCodeEmit(fs, i);
    assert Own(e1) == Own(e);
    assert fs1.code[|fs.code|] == i;
    assert St(fs0, fs1, e1);
    EmitLeft(fs0, fs, e, i);
    assert SameExits(fs, e, fs1, e1);
    assert forall s :: KindValue(ctx, fs1, e1.k, s) == KindValue(ctx, fs, e.k, s);
    assert End(fs1, e1.k) == End(fs, e.k) == |fs.code|;
    hide St, Grown, Meets, DenAt, KindValue, End, SameExits, Emit;
    forall p, r | Entry(fs0, p, r) ensures DenAt(ctx, fs0, fs1, e1, x, p, r) {
      assert DenAt(ctx, fs0, fs, e, x, p, r);
      ExecFrame(ctx, RCode(fs), RCode(fs1), p, |fs.code|, r);
      Transfer(ctx, fs0, fs, e, fs1, e1, x, p, r);
    }
  }

  /** The exits of `e` are those of `e1`, and their tests have not changed. */
  ghost predicate SameExits(fs: FS, e: Exp, fs1: FS, e1: Exp) {
    && e1.t == e.t && e1.f == e.f
    && forall j :: j in e.t + e.f ==>
         TestSetControls(fs1.code, j) == TestSetControls(fs.code, j)
         && (TestSetControls(fs.code, j) ==> fs1.code[j - 1] == fs.code[j - 1])
  }

  /** A change that alters neither the run nor the value keeps the denotation. */
  lemma Transfer(ctx: Ctx, fs0: FS, fs: FS, e: Exp, fs1: FS, e1: Exp, x: Expr, p: nat, r: Regs)
    requires DenAt(ctx, fs0, fs, e, x, p, r) && SameExits(fs, e, fs1, e1)
    requires Exec(ctx, RCode(fs1), p, End(fs1, e1.k), r) == Exec(ctx, RCode(fs), p, End(fs, e.k), r)
    requires forall s :: KindValue(ctx, fs1, e1.k, s) == KindValue(ctx, fs, e.k, s)
    ensures DenAt(ctx, fs0, fs1, e1, x, p, r)
  {
    hide Exec;
  }

  /** Emitting leaves the exits of `e` as they are. */
  lemma EmitLeft(fs0: FS, fs: FS, e: Exp, i: Instr)
    requires Grown(fs0, fs, Own(e))
    ensures forall j :: j in e.t + e.f ==>
      TestSetControls(Emit(fs, i).code, j) == TestSetControls(fs.code, j)
      && (TestSetControls(fs.code, j) ==> Emit(fs, i).code[j - 1] == fs.code[j - 1])
  {
    RCodeShape(fs);
    forall j | j in e.t + e.f
      ensures TestSetControls(Emit(fs, i).code, j) == TestSetControls(fs.code, j)
      ensures TestSetControls(fs.code, j) ==> Emit(fs, i).code[j - 1] == fs.code[j - 1]
    {
      assert j in Open(fs) && j < |fs.code|;
      if j >= 1 {
        assert Emit(fs, i).code[j - 1] == RCode(fs)[j - 1];
        assert IsTest(fs.code[j - 1]) ==> RCode(fs)[j - 1] == fs.code[j - 1];
      }
    }
  }

  // ---------------------------------------------------------------------
  // discharge2reg into the first register free at the start

  /** From the end of `e` the run goes on and leaves the value in `n0`. */
  ghost predicate Loads(ctx: Ctx, fs: FS, k: Kind, fs1: FS, n0: nat, p: nat, r: Regs) {
    var o, o1 := Exec(ctx, RCode(fs), p, End(fs, k), r), Full(ctx, fs1, p, r);
    match o
    case Fall(s) => o1.Fall? && Agree(s, o1.r, n0) && KindValue(ctx, fs, k, s) == Some(Get(o1.r, n0))
    case Stuck => true
    case _ => o1 == o
  }

  lemma LoadTransfer(ctx: Ctx, fs0: FS, fs: FS, e: Exp, fs1: FS, e1: Exp, x: Expr, p: nat, r: Regs)
    requires DenAt(ctx, fs0, fs, e, x, p, r) && SameExits(fs, e, fs1, e1)
    requires e1.k == VNonReloc(fs0.freereg) && Loads(ctx, fs, e.k, fs1, fs0.freereg, p, r)
    ensures DenAt(ctx, fs0, fs1, e1, x, p, r)
  {
    hide Exec, RCode;
  }

  predicate IsLoad(i: Instr, n0: nat) {
    (i.Move? && i.a == n0) || (i.LoadK? && i.a == n0) || (i.LoadBool? && i.a == n0 && !i.skip)
    || (i.LoadNil? && i.a == n0 == i.b)
  }

  function LoadedValue(ctx: Ctx, i: Instr, s: Regs): Option<Value> {
    match i
    case Move(_, b) => Some(Get(s, b))
    case LoadK(_, bx) => if bx < |ctx.k| then Some(ctx.k[bx]) else None
    case LoadBool(_, b, _) => Some(Bool(b))
    case LoadNil(_, _) => Some(Nil)
    case _ => None
  }

  lemma EmitLoads(ctx: Ctx, fs: FS, k: Kind, i: Instr, n0: nat, p: nat, r: Regs)
    requires IsLoad(i, n0) && End(fs, k) == |fs.code|
    requires forall s :: KindValue(ctx, fs, k, s) == LoadedValue(ctx, i, s)
    requires i.LoadK? ==> i.bx < |ctx.k|
    ensures Loads(ctx, fs, k, Emit(fs, i), n0, p, r)
  {
    RCodeEmit(fs, i);
    if i.LoadBool? {
      ExecSnocBool(ctx, RCode(fs), n0, i.val, p, r);
    } else {
      ExecSnoc(ctx, RCode(fs), i, p, r);
      var o := Full(ctx, fs, p, r);
      if o.Fall? && i.LoadNil? {
        var s := o.r;
        assert Get(NilRange(s, n0, n0), n0) == Nil;
      }
    }
  }

  lemma EmitLoadDen(ctx: Ctx, fs0: FS, fs: FS, e: Exp, fs1: FS, i: Instr, x: Expr)
    requires St(fs0, fs, e) && Den(ctx, fs0, fs, e, x)
    requires IsLoad(i, fs0.freereg) && End(fs, e.k) == |fs.code|
    requires forall s :: KindValue(ctx, fs, e.k, s) == LoadedValue(ctx, i, s)
    requires i.LoadK? ==> i.bx < |ctx.k|
    requires fs.k <= fs1.k && fs1 == Emit(fs, i).(freereg := fs0.freereg + 1, k := fs1.k)
    requires !e.k.VJmp?
    ensures St(fs0, fs1, e.(k := VNonReloc(fs0.freereg)))
    ensures Den(ctx, fs0, fs1, e.(k := VNonReloc(fs0.freereg)), x)
  {
    var e1 := e.(k := VNonReloc(fs0.freereg));
    var fs2 := Emit(fs, i);
    EmitGrown(fs0, fs, Own(e), i);
    RegsGrown(fs0, fs2, Own(e), fs0.freereg + 1, fs1.k);
    assert Own(e1) == Own(e);
    assert fs0.freereg >= fs0.nactvar;
    assert St(fs0, fs1, e1);
    EmitLeft(fs0, fs, e, i);
    assert SameExits(fs, e, fs1, e1);
    assert RCode(fs1) == RCode(fs2);
    hide St, Grown, SameExits, RCode;
    forall p, r | Entry(fs0, p, r) ensures DenAt(ctx, fs0, fs1, e1, x, p, r) {
      assert DenAt(ctx, fs0, fs, e, x, p, r);
      EmitLoads(ctx, fs, e.k, i, fs0.freereg, p, r);
      assert Loads(ctx, fs, e.k, fs1, fs0.freereg, p, r);
      LoadTransfer(ctx, fs0, fs, e, fs1, e1, x, p, r);
    }
  }

  /** A relocatable instruction gets its register. */
  lemma RelocDen(ctx: Ctx, fs0: FS, fs: FS, e: Exp, fs1: FS, x: Expr)
    requires St(fs0, fs, e) && Den(ctx, fs0, fs, e, x) && e.k.VReloc?
    requires fs1 == fs.(code := fs.code[e.k.pc := SetA(fs.code[e.k.pc], fs0.freereg)], freereg := fs0.freereg + 1)
    ensures St(fs0, fs1, e.(k := VNonReloc(fs0.freereg)))
    ensures Den(ctx, fs0, fs1, e.(k := VNonReloc(fs0.freereg)), x)
  {
    var n0 := fs0.freereg;
    var e1 := e.(k := VNonReloc(n0));
    var i := SetA(fs.code[e.k.pc], n0);
    var fs2 := fs.(code := fs.code[e.k.pc := i]);
    LastGrown(fs0, fs, Own(e), i);
    RegsGrown(fs0, fs2, Own(e), n0 + 1, fs.k);
    assert Own(e1) == Own(e);
    assert St(fs0, fs1, e1);
    assert forall j :: j in e.t + e.f ==> j in Open(fs) && j < |fs.code| && j != e.k.pc;
    assert SameExits(fs, e, fs1, e1);
    RCodeClean(fs);
    RCodeClean(fs1);
    var n := |fs.code|;
    assert fs1.code == fs.code[..n - 1] + [i];
    forall p, r | Entry(fs0, p, r) ensures DenAt(ctx, fs0, fs1, e1, x, p, r) {
      assert DenAt(ctx, fs0, fs, e, x, p, r);
      RelocLoads(ctx, fs, e.k, fs1, i, n0, p, r);
      hide St, Grown, SameExits, RCode;
      LoadTransfer(ctx, fs0, fs, e, fs1, e1, x, p, r);
    }
  }

  lemma RelocLoads(ctx: Ctx, fs: FS, k: Kind, fs1: FS, i: Instr, n0: nat, p: nat, r: Regs)
    requires k.VReloc? && k.pc + 1 == |fs.code| && (fs.code[k.pc].NotR? || fs.code[k.pc].GetUpval?)
    requires i == SetA(fs.code[k.pc], n0) && fs1.code == fs.code[..k.pc] + [i]
    requires RCode(fs) == fs.code && RCode(fs1) == fs1.code
    ensures Loads(ctx, fs, k, fs1, n0, p, r)
  {
    var c := fs.code[..k.pc];
    ExecFrame(ctx, fs.code, c, p, k.pc, r);
    ExecSnoc(ctx, c, i, p, r);
  }

  lemma NilMerges(ctx: Ctx, fs0: FS, fs: FS, p: nat, r: Regs)
    requires WF(fs0) && Grown(fs0, fs, Open(fs) - Open(fs0)) && Entry(fs0, p, r)
    requires var n, n0 := |fs.code|, fs0.freereg;
      n > fs.lasttarget && n > 0 && fs.code[n - 1].LoadNil? && fs.code[n - 1].a <= n0 <= fs.code[n - 1].b + 1
    ensures Loads(ctx, fs, VNil, NilInto(fs, fs0.freereg), fs0.freereg, p, r)
  {
    hide Exec;
    var n, n0 := |fs.code|, fs0.freereg;
    RCodeClean(fs);
    RCodeClean(NilInto(fs, n0));
    assert OneWayOut(fs.code);
    var last := fs.code[n - 1];
    assert fs.code[n - 1 := LoadNil(last.a, last.b)] == fs.code;
    ExecNilMerge(ctx, fs.code, last.b, p, r);
    ExecNilMerge(ctx, fs.code, if n0 > last.b then n0 else last.b, p, r);
  }

  /** luaK_nil, in its three forms. */
  lemma NilLoads(ctx: Ctx, fs0: FS, fs: FS, p: nat, r: Regs)
    requires WF(fs0) && Grown(fs0, fs, Open(fs) - Open(fs0)) && Entry(fs0, p, r)
    ensures Loads(ctx, fs, VNil, NilInto(fs, fs0.freereg), fs0.freereg, p, r)
  {
    var n, n0 := |fs.code|, fs0.freereg;
    var e := NilInto(fs, n0);
    if n > fs.lasttarget && n == 0 && n0 >= fs.nactvar {
      assert p == 0;
    } else if n > fs.lasttarget && n > 0 && fs.code[n - 1].LoadNil? && fs.code[n - 1].a <= n0 <= fs.code[n - 1].b + 1 {
      NilMerges(ctx, fs0, fs, p, r);
    } else {
      EmitLoads(ctx, fs, VNil, LoadNil(n0, n0), n0, p, r);
    }
  }

  lemma NilSameExits(fs0: FS, fs: FS, e: Exp, from: nat)
    requires Grown(fs0, fs, Own(e))
    ensures SameExits(fs, e, NilInto(fs, from), e)
  {
    var n := |fs.code|;
    assert forall j :: j in e.t + e.f ==> j in Open(fs) && j < n;
    if n > fs.lasttarget && n == 0 && from >= fs.nactvar {
    } else if n > fs.lasttarget && n > 0 && fs.code[n - 1].LoadNil? && fs.code[n - 1].a <= from <= fs.code[n - 1].b + 1 {
    } else {
      EmitLeft(fs0, fs, e, LoadNil(from, from));
    }
  }

  lemma NilShape(fs0: FS, fs: FS, e: Exp)
    requires St(fs0, fs, e) && e.k.VNil?
    ensures var fs1, e1 := NilInto(fs, fs0.freereg).(freereg := fs0.freereg + 1), e.(k := VNonReloc(fs0.freereg));
      && St(fs0, fs1, e1) && SameExits(fs, e, fs1, e1)
      && RCode(fs1) == RCode(NilInto(fs, fs0.freereg))
    ensures WF(fs0) && Grown(fs0, fs, Open(fs) - Open(fs0))
  {
    hide Tests, SameTests, NilInto;
    var n0 := fs0.freereg;
    var fs2 := NilInto(fs, n0);
    var fs1, e1 := fs2.(freereg := n0 + 1), e.(k := VNonReloc(n0));
    NilGrown(fs0, fs, Own(e), n0);
    RegsGrown(fs0, fs2, Own(e), n0 + 1, fs2.k);
    assert Own(e1) == Own(e);
    assert n0 >= fs0.nactvar;
    NilSameExits(fs0, fs, e, n0);
    assert Open(fs) - Open(fs0) == Own(e);
  }

  lemma NilDen(ctx: Ctx, fs0: FS, fs: FS, e: Exp, x: Expr)
    requires St(fs0, fs, e) && Den(ctx, fs0, fs, e, x) && e.k.VNil?
    ensures var fs1, e1 := NilInto(fs, fs0.freereg).(freereg := fs0.freereg + 1), e.(k := VNonReloc(fs0.freereg));
            St(fs0, fs1, e1) && Den(ctx, fs0, fs1, e1, x)
  {
    hide St, SameExits, RCode, Grown, NilInto, DenAt, Entry, WF, Open;
    var n0 := fs0.freereg;
    var fs2 := NilInto(fs, n0);
    var fs1, e1 := fs2.(freereg := n0 + 1), e.(k := VNonReloc(n0));
    NilShape(fs0, fs, e);
    forall p, r | Entry(fs0, p, r) ensures DenAt(ctx, fs0, fs1, e1, x, p, r) {
      assert DenAt(ctx, fs0, fs, e, x, p, r);
      NilLoads(ctx, fs0, fs, p, r);
      assert Loads(ctx, fs, e.k, fs1, n0, p, r);
      LoadTransfer(ctx, fs0, fs, e, fs1, e1, x, p, r);
    }
  }

  /** luaK_code commutes with the register and constant bookkeeping. */
  lemma EmitFrame(fs: FS, i: Instr, n: nat, k: seq<Value>)
    ensures Emit(fs.(freereg := n, k := k), i) == Emit(fs, i).(freereg := n, k := k)
  {
    assert RCode(fs.(freereg := n, k := k)) == RCode(fs);
  }

  lemma NilFrame(fs: FS, from: nat, n: nat)
    ensures NilInto(fs.(freereg := n), from) == NilInto(fs, from).(freereg := n)
  {
    EmitFrame(fs, LoadNil(from, from), n, fs.k);
  }

  /** The instruction by which discharge2reg loads a value that is at hand. */
  function LoadInstr(k: Kind, n0: nat): Instr
    requires k.VTrue? || k.VFalse? || k.VK? || k.VNonReloc?
  {
    match k
    case VTrue => LoadBool(n0, true, false)
    case VFalse => LoadBool(n0, false, false)
    case VK(i) => LoadK(n0, i)
    case VNonReloc(r) => Move(n0, r)
  }

  lemma LoadInstrDen(ctx: Ctx, fs0: FS, fs: FS, e: Exp, x: Expr)
    requires St(fs0, fs, e) && Den(ctx, fs0, fs, e, x) && fs.k <= ctx.k
    requires e.k.VTrue? || e.k.VFalse? || e.k.VK? || (e.k.VNonReloc? && e.k.r != fs0.freereg)
    ensures var (fs1, e1) := Discharge2Reg(fs.(freereg := fs0.freereg + 1), e, fs0.freereg);
      && St(fs0, fs1, e1) && Den(ctx, fs0, fs1, e1, x)
      && e1 == e.(k := VNonReloc(fs0.freereg)) && fs1.k == fs.k && fs1.freereg == fs0.freereg + 1
  {
    hide *;
    var n0, i := fs0.freereg, LoadInstr(e.k, fs0.freereg);
    var fs1 := Emit(fs, i).(freereg := n0 + 1);
    StKind(fs0, fs, e);
    LoadForm(fs, e, n0);
    LoadFacts(ctx, fs0, fs, e.k, n0);
    EmitLoadDen(ctx, fs0, fs, e, fs1, i, x);
  }

  lemma LoadFacts(ctx: Ctx, fs0: FS, fs: FS, k: Kind, n0: nat)
    requires k.VTrue? || k.VFalse? || k.VK? || k.VNonReloc?
    requires KindOK(fs0, fs, k) && fs.k <= ctx.k
    ensures var i := LoadInstr(k, n0);
      && IsLoad(i, n0) && End(fs, k) == |fs.code| && (i.LoadK? ==> i.bx < |ctx.k|)
      && forall s :: KindValue(ctx, fs, k, s) == LoadedValue(ctx, i, s)
  {}

  lemma StKind(fs0: FS, fs: FS, e: Exp)
    requires St(fs0, fs, e)
    ensures KindOK(fs0, fs, e.k)
  {}

  lemma LoadForm(fs: FS, e: Exp, n0: nat)
    requires e.k.VTrue? || e.k.VFalse? || e.k.VK? || (e.k.VNonReloc? && e.k.r != n0)
    ensures var fs1 := Emit(fs, LoadInstr(e.k, n0)).(freereg := n0 + 1);
      Discharge2Reg(fs.(freereg := n0 + 1), e, n0) == (fs1, e.(k := VNonReloc(n0))) && fs1.k == fs.k
  {
    EmitFrame(fs, LoadInstr(e.k, n0), n0 + 1, fs.k);
    hide RCode;
  }

  lemma KNumDen(ctx: Ctx, fs0: FS, fs: FS, e: Exp, x: Expr)
    requires St(fs0, fs, e) && Den(ctx, fs0, fs, e, x) && e.k.VKNum?
    requires Discharge2Reg(fs.(freereg := fs0.freereg + 1), e, fs0.freereg).0.k <= ctx.k
    ensures var (fs1, e1) := Discharge2Reg(fs.(freereg := fs0.freereg + 1), e, fs0.freereg);
      && St(fs0, fs1, e1) && Den(ctx, fs0, fs1, e1, x)
      && e1 == e.(k := VNonReloc(fs0.freereg)) && fs.k <= fs1.k && fs1.freereg == fs0.freereg + 1
  {
    var n0 := fs0.freereg;
    var (fs2, c) := AddK(fs.(freereg := n0 + 1), Num(e.k.nval));
    var i := LoadK(n0, c);
    EmitFrame(fs, i, n0 + 1, fs2.k);
    var fs1 := Emit(fs, i).(freereg := n0 + 1, k := fs2.k);
    assert Discharge2Reg(fs.(freereg := n0 + 1), e, n0) == (fs1, e.(k := VNonReloc(n0)));
    assert ctx.k[c] == Num(e.k.nval);
    hide St, Den, Discharge2Reg, Emit, AddK;
    EmitLoadDen(ctx, fs0, fs, e, fs1, i, x);
  }

  lemma RegK(fs: FS, e: Exp, reg: nat)
    ensures fs.k <= Discharge2Reg(fs, e, reg).0.k
  {
    hide RCode;
  }

  /** discharge2reg, for everything but a jump. */
  lemma Discharge2RegDen(ctx: Ctx, fs0: FS, fs: FS, e: Exp, x: Expr)
    requires St(fs0, fs, e) && Den(ctx, fs0, fs, e, x) && Discharged(e.k) && !e.k.VJmp?
    requires Discharge2Reg(fs.(freereg := fs0.freereg + 1), e, fs0.freereg).0.k <= ctx.k
    ensures var (fs1, e1) := Discharge2Reg(fs.(freereg := fs0.freereg + 1), e, fs0.freereg);
      && St(fs0, fs1, e1) && Den(ctx, fs0, fs1, e1, x)
      && e1 == e.(k := VNonReloc(fs0.freereg)) && fs.k <= fs1.k && fs1.freereg == fs0.freereg + 1
  {
    hide St, Den, Discharge2Reg;
    var n0 := fs0.freereg;
    RegK(fs.(freereg := n0 + 1), e, n0);
    match e.k
    case VNil => NilCase(ctx, fs0, fs, e, x);
    case VKNum(_) => KNumDen(ctx, fs0, fs, e, x);
    case VReloc(pc) => RelocCase(ctx, fs0, fs, e, x);
    case VNonReloc(r) =>
      if r == n0 { SameRegDen(ctx, fs0, fs, e, x); } else { LoadInstrDen(ctx, fs0, fs, e, x); }
    case VTrue => LoadInstrDen(ctx, fs0, fs, e, x);
    case VFalse => LoadInstrDen(ctx, fs0, fs, e, x);
    case VK(_) => LoadInstrDen(ctx, fs0, fs, e, x);
  }

  lemma NilCase(ctx: Ctx, fs0: FS, fs: FS, e: Exp, x: Expr)
    requires St(fs0, fs, e) && Den(ctx, fs0, fs, e, x) && e.k.VNil?
    ensures var (fs1, e1) := Discharge2Reg(fs.(freereg := fs0.freereg + 1), e, fs0.freereg);
      && St(fs0, fs1, e1) && Den(ctx, fs0, fs1, e1, x)
      && e1 == e.(k := VNonReloc(fs0.freereg)) && fs1.k == fs.k && fs1.freereg == fs0.freereg + 1
  {
    hide St, Den, NilInto;
    NilDen(ctx, fs0, fs, e, x);
    NilFrame(fs, fs0.freereg, fs0.freereg + 1);
    NilKeeps(fs, fs0.freereg);
  }

  lemma NilKeeps(fs: FS, from: nat)
    ensures NilInto(fs, from).k == fs.k
  {}

  lemma RelocCase(ctx: Ctx, fs0: FS, fs: FS, e: Exp, x: Expr)
    requires St(fs0, fs, e) && Den(ctx, fs0, fs, e, x) && e.k.VReloc?
    ensures var (fs1, e1) := Discharge2Reg(fs.(freereg := fs0.freereg + 1), e, fs0.freereg);
      && St(fs0, fs1, e1) && Den(ctx, fs0, fs1, e1, x)
      && e1 == e.(k := VNonReloc(fs0.freereg)) && fs1.k == fs.k && fs1.freereg == fs0.freereg + 1
  {
    var n0 := fs0.freereg;
    var fs1 := fs.(code := fs.code[e.k.pc := SetA(fs.code[e.k.pc], n0)], freereg := n0 + 1);
    assert Discharge2Reg(fs.(freereg := n0 + 1), e, n0) == (fs1, e.(k := VNonReloc(n0)));
    RelocDen(ctx, fs0, fs, e, fs1, x);
  }

  lemma SameRegDen(ctx: Ctx, fs0: FS, fs: FS, e: Exp, x: Expr)
    requires St(fs0, fs, e) && e.k == VNonReloc(fs0.freereg)
    ensures fs.(freereg := fs0.freereg + 1) == fs
    ensures Discharge2Reg(fs, e, fs0.freereg) == (fs, e)
  {}
}
