/** The interpreter loop of lvm.c, for the instructions that conditions use. */
module LuaExecute {
  import opened Options
  import opened LuaVM
  import opened LuaJumps

  class Machine {
    var pc: nat
    var regs: Regs

    /** luaV_execute, from `pc` until `q` is reached or control leaves the
        stretch of code before `q`. */
    method Execute(ctx: Ctx, c: seq<Word>, q: nat) returns (o: Out)
      requires CodeOK(c, {}) && q <= |c|
      modifies this
      ensures o == Exec(ctx, AbsCode(c, {}), old(pc), q, old(regs))
      ensures o.Fall? ==> pc == q && regs == o.r
    {
      ghost var a := AbsCode(c, {});
      while pc < q
        invariant Exec(ctx, a, pc, q, regs) == Exec(ctx, a, old(pc), q, old(regs))
        decreases q - pc
      {
        var i, p := c[pc], pc;
        assert a[p] == AbsWord(c[p], p, {});
        pc := pc + 1;
        match i {
          case JumpW(sbx) =>
            if sbx < 0 || pc + sbx > q { return Stuck; }
            pc := pc + sbx;
          case OpW(op) =>
            if IsTest(op) {
              var left, out := TestAndJump(ctx, c, p, q, Cond(ctx, op, regs));
              if left { return out; }
            } else if op.LoadBool? {
              regs := regs[op.a := Bool(op.val)];
              if op.skip { pc := pc + 1; }
            } else {
              var n := Plain(ctx, op, regs);
              if n.None? { return Stuck; }
              regs := n.value;
            }
        }
      }
      o := if pc == q then Fall(regs) else Stuck;
    }

    /** The end of a test at `p`: take the jump that follows, or skip it. */
    method TestAndJump(ctx: Ctx, c: seq<Word>, p: nat, q: nat, b: Option<bool>) returns (left: bool, out: Out)
      requires CodeOK(c, {}) && p < q <= |c| && c[p].OpW? && IsTest(c[p].i) && pc == p + 1
      requires b == Cond(ctx, c[p].i, regs)
      modifies this
      ensures left ==> out == Exec(ctx, AbsCode(c, {}), p, q, old(regs))
      ensures !left ==> pc > p && Exec(ctx, AbsCode(c, {}), pc, q, regs) == Exec(ctx, AbsCode(c, {}), p, q, old(regs))
      ensures left ==> !out.Fall?
    {
      ghost var a := AbsCode(c, {});
      assert a[p] == c[p].i && Exec(ctx, a, p, q, regs) == Branch(ctx, a, p, q, regs);
      left, out := true, Stuck;
      if pc >= q || !c[pc].JumpW? { return; }
      assert a[pc] == AbsWord(c[pc], pc, {});
      if b.None? { return true, Fail; }
      if b.value {
        assert Branch(ctx, a, p, q, regs) == Follow(ctx, a, pc, q, regs, Chosen(c[p].i, regs));
        regs := Chosen(c[p].i, regs);
        if c[pc].sbx < 0 || pc + 1 + c[pc].sbx > q { return; }
        pc := pc + c[pc].sbx;
      }
      pc := pc + 1;
      left := false;
    }
  }
}
