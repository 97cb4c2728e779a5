/** FuncState as lcode.c has it: the code array is updated in place, and lists
    of pending jumps are threaded through it.  Every method is shown to do what
    its counterpart in LuaCode does with sets. */
module LuaGenerator {
  import opened Options
  import opened LuaVM
  import opened LuaCode
  import opened LuaJumps
  import opened LuaCodeDen
  import Use = LuaCodeUse
  import Compiled = LuaCodeCompile

  /** expdesc: `t` and `f` are the heads of the lists of exits. */
  datatype ExpDesc = ExpDesc(k: Kind, t: int, f: int)

  /** `e` stands for `x` in the code `c`. */
  ghost predicate Stands(c: seq<Word>, e: ExpDesc, x: Exp) {
    e.k == x.k && Holds(c, e.t, x.t) && Holds(c, e.f, x.f)
  }

  /** The jumps of `l` are as they were. */
  ghost predicate Keeps(c: seq<Word>, d: seq<Word>, l: set<nat>) {
    forall p :: p in l && p < |c| ==> p < |d| && d[p] == c[p]
  }

  lemma StandsFrame(c: seq<Word>, d: seq<Word>, e: ExpDesc, x: Exp, l: set<nat>)
    requires Stands(c, e, x) && Keeps(c, d, l) && x.t <= l && x.f <= l
    ensures Stands(d, e, x)
  {
    HoldsKeeps(c, d, e.t, x.t, l);
    HoldsKeeps(c, d, e.f, x.f, l);
  }

  lemma HoldsKeeps(c: seq<Word>, d: seq<Word>, h: int, l0: set<nat>, l: set<nat>)
    requires Holds(c, h, l0) && Keeps(c, d, l) && l0 <= l
    ensures Holds(d, h, l0)
  {
    HoldsIn(c, h, l0);
    var s :| Chain(c, h, s) && Elems(s) == l0;
    assert forall p :: p in s ==> p in l0;
    ChainKeeps(c, d, h, s);
  }

  lemma {:induction false} ChainKeeps(c: seq<Word>, d: seq<Word>, h: int, s: seq<nat>)
    requires Chain(c, h, s) && forall p :: p in s && p < |c| ==> p < |d| && d[p] == c[p]
    ensures Chain(d, h, s)
    decreases s
  {
    if s != [] {
      assert s[0] in s;
      assert forall p :: p in s[1..] ==> p in s;
      ChainKeeps(c, d, Next(c[s[0]], s[0]), s[1..]);
    }
  }

  /** From the code `c` with the open jumps `o` to `d` with `p`: the jumps `a`
      have given way to `b`, and no other open jump has been touched. */
  ghost predicate Moved(c: seq<Word>, o: set<nat>, d: seq<Word>, p: set<nat>, a: set<nat>, b: set<nat>) {
    && p == o - a + b && Keeps(c, d, o - a) && |c| <= |d|
    && (forall j :: j in b ==> j in a || j >= |c|)
    && (forall j :: j in o ==> j < |c|)
  }

  lemma MovedTrans(c: seq<Word>, o: set<nat>, d: seq<Word>, p: set<nat>, e: seq<Word>, q: set<nat>,
                   a: set<nat>, b: set<nat>, b1: set<nat>)
    requires Moved(c, o, d, p, a, b) && Moved(d, p, e, q, b, b1)
    ensures Moved(c, o, e, q, a, b1)
  {}

  lemma MovedSame(c: seq<Word>, o: set<nat>, d: seq<Word>, a: set<nat>)
    requires Keeps(c, d, o) && |c| <= |d| && a <= o && forall j :: j in o ==> j < |c|
    ensures Moved(c, o, d, o, a, a)
  {
    assert o - a + a == o;
  }

  lemma KeepsTrans(c: seq<Word>, d: seq<Word>, e: seq<Word>, l: set<nat>, m: set<nat>)
    requires Keeps(c, d, l) && Keeps(d, e, m) && l <= m
    ensures Keeps(c, e, l)
  {}

  ghost predicate OwnsIn(c: seq<Word>, open: set<nat>, x: Exp) {
    && x.t <= open && x.f <= open && x.t !! x.f
    && match x.k
       case VJmp(j) =>
         j in open && j !in x.t && j !in x.f && Holds(c, j, {j}) && 1 <= j <= |c|
         && c[j - 1].OpW? && c[j - 1].i.Cmp?
       case VReloc(pc) => pc + 1 == |c| && c[pc].OpW?
       case _ => true
  }

  class FuncState {
    var code: seq<Word>
    var jpc: int
    var freereg: nat
    var nactvar: nat
    var k: seq<Value>
    var lasttarget: int
    /** The pending jumps, and those of them on the list `jpc`. */
    ghost var pend: set<nat>
    ghost var here: set<nat>

    ghost predicate Valid()
      reads `code, `pend, `jpc, `here
    {
      CodeOK(code, pend) && Holds(code, jpc, here) && here <= pend
    }

    ghost function Abs(): FS
      reads this
    {
      FS(AbsCode(code, pend), here, freereg, nactvar, k, lasttarget)
    }

    constructor (n: nat)
      ensures Valid() && Abs() == FS([], {}, n, n, [], -1) && pend == {}
    {
      code, jpc, freereg, nactvar, k, lasttarget := [], NO_JUMP, n, n, [], -1;
      pend, here := {}, {};
      new;
      HoldsEmpty(code);
    }

    // -------------------------------------------------------------------
    // Lists

    method GetJump(pc: nat) returns (next: int)
      requires pc < |code| && code[pc].JumpW?
      ensures next == Next(code[pc], pc)
    {
      var offset := code[pc].sbx;
      if offset == NO_JUMP { next := NO_JUMP; } else { next := (pc + 1) + offset; }
    }

    method FixJump(pc: nat, dest: int)
      requires pc < |code| && code[pc].JumpW? && dest != NO_JUMP
      modifies `code
      ensures code == Linked(old(code), pc, dest)
    {
      var offset := dest - (pc + 1);
      code := code[pc := JumpW(offset)];
    }

    /** luaK_concat. */
    method Concat(l1: int, l2: int, ghost a: set<nat>, ghost b: set<nat>) returns (l: int)
      requires CodeOK(code, pend) && Holds(code, l1, a) && Holds(code, l2, b) && a !! b && a <= pend
      modifies `code
      ensures Holds(code, l, a + b) && CodeOK(code, pend) && |code| == |old(code)|
      ensures AbsCode(code, pend) == AbsCode(old(code), pend)
      ensures forall p: nat :: p < |code| && p !in a ==> code[p] == old(code)[p]
    {
      HoldsIn(code, l1, a);
      HoldsIn(code, l2, b);
      assert a == {} ==> a + b == b;
      assert b == {} ==> a + b == a;
      if l2 == NO_JUMP {
        l := l1;
      } else if l1 == NO_JUMP {
        l := l2;
      } else {
        ghost var s1 :| Chain(code, l1, s1) && Elems(s1) == a;
        ghost var s2 :| Chain(code, l2, s2) && Elems(s2) == b;
        var list := l1;
        ghost var i := 0;
        ChainIn(code, l1, s1);
        ChainIn(code, l2, s2);
        var next := GetJump(list);
        while next != NO_JUMP
          invariant code == old(code) && i < |s1| && 0 <= list == s1[i] < |code| && code[list].JumpW?
          invariant next == Next(code[list], list) && Chain(code, list, s1[i..])
          decreases |s1| - i
        {
          ChainIn(code, next, s1[i..][1..]);
          assert s1[i..][1..] == s1[i + 1..];
          assert s1[i + 1] in s1;
          list := next;
          i := i + 1;
          next := GetJump(list);
        }
        ChainIn(code, next, s1[i..][1..]);
        assert i == |s1| - 1;
        assert list in a by { assert s1[i] in s1; }
        assert forall p :: p in s1 ==> p in a;
        assert forall p :: p in s2 ==> p in b;
        ChainConcat(code, l1, s1, l2, s2);
        RelinkAbs(code, pend, list, l2);
        FixJump(list, l2);
        l := l1;
        assert Elems(s1 + s2) == a + b;
      }
    }

    /** need_value. */
    method NeedsValue(list: int, ghost l: set<nat>) returns (need: bool)
      requires CodeOK(code, pend) && Holds(code, list, l)
      ensures need == NeedValue(Abs(), l)
    {
      ghost var s :| Chain(code, list, s) && Elems(s) == l;
      var cur := list;
      ghost var i := 0;
      ChainIn(code, list, s);
      while cur != NO_JUMP
        invariant i <= |s| && Chain(code, cur, s[i..])
        invariant forall m :: 0 <= m < i ==> TestSetControls(AbsCode(code, pend), s[m])
        decreases |s| - i
      {
        ChainIn(code, cur, s[i..]);
        assert cur == s[i] && s[i] in s && s[i] in l;
        if !(cur >= 1 && code[cur - 1].OpW? && code[cur - 1].i.TestSet?) { return true; }
        assert s[i..][1..] == s[i + 1..];
        cur := GetJump(cur);
        i := i + 1;
      }
      ChainIn(code, cur, s[i..]);
      need := false;
    }

    /** patchtestreg: the result tells whether a TESTSET was patched. */
    method PatchTestReg(node: nat, reg: int) returns (patched: bool)
      requires node < |code|
      modifies `code
      ensures code == PatchTestW(old(code), node, reg)
      ensures patched == (node >= 1 && old(code)[node - 1].OpW? && old(code)[node - 1].i.TestSet?)
    {
      if !(node >= 1 && code[node - 1].OpW? && code[node - 1].i.TestSet?) {
        return false;
      }
      var i := code[node - 1].i;
      if reg != NO_REG && reg != i.b {
        code := code[node - 1 := OpW(i.(dst := reg))];
      } else {
        code := code[node - 1 := OpW(Test(i.b, i.cond))];
      }
      patched := true;
    }

    /** One round of patchlistaux. */
    method PatchOne(node: nat, vtarget: int, reg: int, dtarget: int)
      requires node < |code| && code[node].JumpW? && vtarget >= 0
      requires !(node >= 1 && code[node - 1].OpW? && code[node - 1].i.TestSet?) ==> dtarget >= 0
      modifies `code
      ensures code == PatchOneW(old(code), node, vtarget, reg, dtarget)
    {
      var patched := PatchTestReg(node, reg);
      if patched { FixJump(node, vtarget); } else { FixJump(node, dtarget); }
    }

    /** patchlistaux. */
    method PatchListAux(list: int, vtarget: int, reg: int, dtarget: int, ghost l: set<nat>)
      requires CodeOK(code, pend) && Holds(code, list, l) && l <= pend && vtarget >= 0
      requires forall j :: j in l && !TestSetControls(Abs().code, j) ==> dtarget >= 0
      modifies `code, `pend
      ensures pend == old(pend) - l && CodeOK(code, pend) && |code| == |old(code)|
      ensures Abs().code == Patch(old(Abs().code), l, vtarget, reg, dtarget)
      ensures forall p :: 0 <= p < |code| && old(code)[p].JumpW? && p !in l ==> code[p] == old(code)[p]
    {
      ghost var c0, pend0 := code, pend;
      ghost var s :| Chain(code, list, s) && Elems(s) == l;
      ghost var i, done: set<nat> := 0, {};
      var cur := list;
      ChainIn(code, list, s);
      PatchedStart(code, pend, vtarget, reg, dtarget);
      hide AbsCode, CodeOK, Patch, Patched, PatchOneW, TestSetControls;
      while cur != NO_JUMP
        invariant i <= |s| && done == Elems(s[..i]) && |code| == |c0| && pend == pend0
        invariant Chain(code, cur, s[i..])
        invariant Patched(c0, pend0, done, vtarget, reg, dtarget, code)
        decreases |s| - i
      {
        ChainIn(code, cur, s[i..]);
        ListStep(c0, list, s, i, l);
        assert cur == s[i] && s[i..][1..] == s[i + 1..];
        var next := GetJump(cur);
        PatchedStep(c0, pend0, done, vtarget, reg, dtarget, code, cur);
        PatchStepChain(c0, pend0, done, vtarget, reg, dtarget, code, cur, next, s[i + 1..]);
        PatchOne(cur, vtarget, reg, dtarget);
        cur := next;
        i := i + 1;
        done := done + {s[i - 1]};
      }
      ChainIn(code, cur, s[i..]);
      assert s[..i] == s;
      pend := pend - l;
      PatchedEnd(c0, pend0, l, vtarget, reg, dtarget, code);
    }

    /** The pending jumps that are not to the next instruction. */
    ghost function Opened(): set<nat>
      reads `pend, `here
    {
      pend - here
    }

    /** dischargejpc. */
    method DischargeJpc()
      requires Valid()
      modifies `code, `pend, `jpc, `here
      ensures Valid() && jpc == NO_JUMP && here == {} && pend == old(Opened()) && |code| == |old(code)|
      ensures Abs() == old(Abs()).(code := RCode(old(Abs())), jpc := {})
      ensures Keeps(old(code), code, old(Opened()))
    {
      PatchListAux(jpc, |code|, NO_REG, |code|, here);
      jpc := NO_JUMP;
      here := {};
      HoldsEmpty(code);
    }

    /** luaK_code. */
    method Code(i: Instr)
      requires Valid() && !i.Jmp?
      modifies `code, `pend, `jpc, `here
      ensures Valid() && Abs() == Emit(old(Abs()), i)
      ensures here == {} && Opened() == old(Opened()) && Keeps(old(code), code, old(Opened()))
    {
      DischargeJpc();
      ghost var c := code;
      code := code + [OpW(i)];
      HoldsEmpty(code);
      assert AbsCode(code, pend) == AbsCode(c, pend) + [i];
    }

    /** luaK_jump: the jumps to this jump are put on its list, to go where it
        will go. */
    method Jump() returns (j: int, ghost js: set<nat>)
      requires Valid()
      modifies `code, `pend, `jpc, `here
      ensures Valid() && (Abs(), js) == LuaCode.Jump(old(Abs())) && Holds(code, j, js)
      ensures here == {} && pend == old(pend) + {|old(code)|} && Keeps(old(code), code, old(pend))
    {
      hide Holds, CodeOK, AbsCode;
      var saved, n := jpc, |code|;
      ghost var waiting, c, p := here, code, pend;
      jpc := NO_JUMP;
      code := code + [JumpW(NO_JUMP)];
      pend, here := pend + {n}, {};
      JumpAdded(c, p, saved, waiting);
      j := Concat(n, saved, {n}, waiting);
      js := {n} + waiting;
      HoldsEmpty(code);
    }

    /** condjump. */
    method CondJump(i: Instr) returns (j: int, ghost js: set<nat>)
      requires Valid() && IsTest(i)
      modifies `code, `pend, `jpc, `here
      ensures Valid() && (Abs(), js) == LuaCode.CondJump(old(Abs()), i) && Holds(code, j, js)
      ensures here == {} && Opened() == old(Opened()) + {|old(code)| + 1} && js == {|old(code)| + 1}
      ensures Keeps(old(code), code, old(Opened())) && j == |old(code)| + 1 == |code| - 1
    {
      Code(i);
      ghost var c := code;
      j, js := Jump();
      HoldsIn(code, j, js);
    }

    method GetLabel() returns (pc: nat)
      modifies `lasttarget
      ensures lasttarget == pc == |code|
    {
      lasttarget := |code|;
      pc := |code|;
    }

    /** luaK_patchtohere. */
    method PatchToHere(list: int, ghost l: set<nat>)
      requires Valid() && Holds(code, list, l) && l <= Opened()
      modifies `code, `jpc, `here, `lasttarget
      ensures Valid() && Abs() == LuaCode.PatchToHere(old(Abs()), l)
      ensures here == old(here) + l && |code| == |old(code)| && Keeps(old(code), code, old(Opened()))
    {
      var pc := GetLabel();
      jpc := Concat(jpc, list, here, l);
      here := here + l;
    }

    /** luaK_patchlist, to the next instruction or to an earlier one. */
    method PatchList(list: int, target: nat, ghost l: set<nat>)
      requires Valid() && Holds(code, list, l) && l <= Opened() && target <= |code|
      modifies `code, `jpc, `here, `lasttarget, `pend
      ensures Valid() && Opened() == old(Opened()) - l
      ensures Abs() == if target == |old(code)| then LuaCode.PatchToHere(old(Abs()), l)
                       else old(Abs()).(code := Patch(old(Abs()).code, l, target, NO_REG, target))
    {
      if target == |code| {
        PatchToHere(list, l);
      } else {
        ghost var c := code;
        PatchListAux(list, target, NO_REG, target, l);
        assert forall p :: p in here ==> p in old(pend);
        HoldsFrame(c, code, jpc, here);
      }
    }

    /** removevalues. */
    method RemoveValues(list: int, ghost l: set<nat>)
      requires Valid() && Holds(code, list, l) && l <= Opened()
      modifies `code
      ensures Valid() && Abs() == LuaCode.RemoveValues(old(Abs()), l) && |code| == |old(code)|
      ensures Keeps(old(code), code, pend)
      ensures forall p :: 0 <= p < |code| && !(old(code)[p].OpW? && old(code)[p].i.TestSet?) ==> code[p] == old(code)[p]
      ensures forall p :: 0 <= p < |code| && old(code)[p].OpW? ==> code[p].OpW?
      ensures Opened() == old(Opened())
    {
      ghost var c0 := code;
      ghost var s :| Chain(code, list, s) && Elems(s) == l;
      ghost var i, done: set<nat> := 0, {};
      var cur := list;
      ChainIn(code, list, s);
      RemovedStart(code);
      hide Removed, AbsCode, CodeOK, PatchTestW;
      while cur != NO_JUMP
        invariant i <= |s| && done == Elems(s[..i]) && |code| == |c0|
        invariant Chain(code, cur, s[i..])
        invariant Removed(c0, done, code)
        decreases |s| - i
      {
        ChainIn(code, cur, s[i..]);
        ListStep(c0, list, s, i, l);
        assert cur == s[i] && s[i..][1..] == s[i + 1..];
        RemovedStep(c0, done, code, cur);
        RemoveChain(code, cur, cur, s[i..]);
        var patched := PatchTestReg(cur, NO_REG);
        cur := GetJump(cur);
        i := i + 1;
        done := done + {s[i - 1]};
      }
      ChainIn(code, cur, s[i..]);
      assert s[..i] == s && done == l;
      RemovedAbs(c0, pend, l, code);
      HoldsIn(c0, jpc, here);
      HoldsFrame(c0, code, jpc, here);
    }

    // -------------------------------------------------------------------
    // Registers and constants

    /** luaK_reserveregs. */
    method ReserveRegs(n: nat)
      modifies `freereg
      ensures freereg == old(freereg) + n && Abs() == Reserve(old(Abs()), n)
    {
      freereg := freereg + n;
    }

    method FreeReg(reg: nat)
      modifies `freereg
      ensures freereg == LuaCode.FreeReg(old(Abs()), reg).freereg
    {
      if reg >= nactvar && freereg > 0 { freereg := freereg - 1; }
    }

    method FreeExp(e: ExpDesc)
      modifies `freereg
      ensures forall x: Exp :: x.k == e.k ==> Abs() == LuaCode.FreeExp(old(Abs()), x)
    {
      if e.k.VNonReloc? { FreeReg(e.k.r); }
    }

    /** addk, the table of constants being searched by FindK. */
    method AddConst(v: Value) returns (i: nat)
      modifies `k
      ensures (Abs(), i) == AddK(old(Abs()), v)
    {
      i := FindK(k, v);
      if i == |k| { k := k + [v]; }
    }

    // -------------------------------------------------------------------
    // Discharging

    /** The descriptor `x` owns its exits, and the code it speaks of is there. */
    ghost predicate Owns(x: Exp)
      reads `code, `pend, `here
    {
      OwnsIn(code, Opened(), x)
    }

    /** What every method keeps that turns the descriptor `x` into `x1`: the
        exits it owned are now those of `x1`, and no other pending jump has
        been touched. */
    twostate predicate Turned(x: Exp, x1: Exp, e1: ExpDesc)
      reads `code, `pend, `jpc, `here
    {
      TurnedFrom(old(code), old(Opened()), x, x1, e1)
    }

    ghost predicate TurnedFrom(c: seq<Word>, o: set<nat>, x: Exp, x1: Exp, e1: ExpDesc)
      reads `code, `pend, `jpc, `here
    {
      Valid() && Stands(code, e1, x1) && Owns(x1) && Moved(c, o, code, Opened(), Own(x), Own(x1))
    }

    lemma OpenedBelow(x: Exp)
      requires Valid() && Owns(x)
      ensures (forall j :: j in Opened() ==> j < |code|) && Own(x) <= Opened()
    {}

    method DischargeVars(e: ExpDesc, ghost x: Exp) returns (e1: ExpDesc, ghost x1: Exp)
      requires Valid() && Stands(code, e, x) && Owns(x)
      modifies `code, `pend, `jpc, `here
      ensures Valid() && (Abs(), x1) == LuaCode.DischargeVars(old(Abs()), x)
      ensures Stands(code, e1, x1) && Owns(x1) && Opened() == old(Opened()) && Keeps(old(code), code, old(Opened()))
      ensures Turned(x, x1, e1) && Own(x1) == Own(x)
    {
      x1 := LuaCode.DischargeVars(Abs(), x).1;
      OpenedBelow(x);
      match e.k {
        case VLocal(r) => e1 := e.(k := VNonReloc(r));
        case VUpval(u) =>
          Code(GetUpval(0, u));
          e1 := e.(k := VReloc(|code| - 1));
          StandsFrame(old(code), code, e, x, old(Opened()));
        case _ => e1 := e;
      }
    }

    /** luaK_nil for one register. */
    method Nil(from: nat)
      requires Valid()
      modifies `code, `pend, `jpc, `here
      ensures Valid() && Abs() == NilInto(old(Abs()), from)
      ensures Opened() == old(Opened()) && Keeps(old(code), code, old(Opened()))
    {
      var n := |code|;
      if n > lasttarget {
        if n == 0 {
          if from >= nactvar { return; }
        } else if code[n - 1].OpW? && code[n - 1].i.LoadNil? {
          var previous := code[n - 1].i;
          if previous.a <= from <= previous.b + 1 {
            if from > previous.b {
              ghost var c := code;
              code := code[n - 1 := OpW(LoadNil(previous.a, from))];
              HoldsIn(c, jpc, here);
              HoldsFrame(c, code, jpc, here);
              assert AbsCode(code, pend) == AbsCode(c, pend)[n - 1 := LoadNil(previous.a, from)];
            }
            return;
          }
        }
      }
      Code(LoadNil(from, from));
    }

    /** SETARG_A on a relocatable instruction. */
    method SetReg(pc: nat, reg: nat)
      requires Valid() && pc < |code| && code[pc].OpW?
      modifies `code
      ensures Valid() && Abs() == old(Abs()).(code := old(Abs()).code[pc := SetA(old(Abs()).code[pc], reg)])
      ensures Keeps(old(code), code, pend)
    {
      ghost var c := code;
      code := code[pc := OpW(SetA(code[pc].i, reg))];
      HoldsIn(c, jpc, here);
      HoldsFrame(c, code, jpc, here);
      assert AbsCode(code, pend) == AbsCode(c, pend)[pc := SetA(AbsCode(c, pend)[pc], reg)];
    }

    /** The load of a discharged value into `reg`. */
    method Load(e: ExpDesc, reg: nat, ghost x: Exp)
      requires Valid() && e.k == x.k && Owns(x) && Discharged(x.k) && !x.k.VJmp?
      modifies `code, `pend, `jpc, `here, `k
      ensures Valid() && Abs() == LuaCode.Discharge2Reg(old(Abs()), x, reg).0
      ensures Opened() == old(Opened()) && Keeps(old(code), code, old(Opened())) && |code| >= |old(code)|
    {
      match e.k {
        case VNil => Nil(reg);
        case VTrue => Code(LoadBool(reg, true, false));
        case VFalse => Code(LoadBool(reg, false, false));
        case VK(i) => Code(LoadK(reg, i));
        case VKNum(v) =>
          var i := AddConst(Num(v));
          Code(LoadK(reg, i));
        case VReloc(pc) => SetReg(pc, reg);
        case VNonReloc(r) => if r != reg { Code(Move(reg, r)); }
      }
    }

    /** discharge2reg. */
    method Discharge2Reg(e: ExpDesc, reg: nat, ghost x: Exp) returns (e1: ExpDesc, ghost x1: Exp)
      requires Valid() && Stands(code, e, x) && Owns(x)
      modifies `code, `pend, `jpc, `here, `k
      ensures Valid() && (Abs(), x1) == LuaCode.Discharge2Reg(old(Abs()), x, reg)
      ensures Stands(code, e1, x1) && Owns(x1) && Opened() == old(Opened()) && Keeps(old(code), code, old(Opened()))
      ensures Turned(x, x1, e1) && Own(x1) == Own(x)
    {
      Discharge2RegForm(Abs(), x, reg);
      ghost var c, o, x2 := code, Opened(), x;
      OpenedBelow(x);
      hide LuaCode.Discharge2Reg, LuaCode.DischargeVars, CodeOK, Holds, AbsCode;
      var e2;
      e2, x2 := DischargeVars(e, x);
      ghost var d := code;
      e1, x1 := e2, x2;
      if !e2.k.VJmp? {
        Load(e2, reg, x2);
        e1, x1 := e2.(k := VNonReloc(reg)), x2.(k := VNonReloc(reg));
        StandsFrame(d, code, e1, x1, o);
        KeepsTrans(c, d, code, o, o);
      }
      MovedSame(c, o, code, Own(x));
    }

    /** discharge2anyreg. */
    method Discharge2AnyReg(e: ExpDesc, ghost x: Exp) returns (e1: ExpDesc, ghost x1: Exp)
      requires Valid() && Stands(code, e, x) && Owns(x)
      modifies `code, `pend, `jpc, `here, `k, `freereg
      ensures Valid() && (Abs(), x1) == LuaCode.Discharge2AnyReg(old(Abs()), x)
      ensures Stands(code, e1, x1) && Owns(x1) && Opened() == old(Opened()) && Keeps(old(code), code, old(Opened()))
      ensures Turned(x, x1, e1) && Own(x1) == Own(x)
    {
      e1, x1 := e, x;
      if !e.k.VNonReloc? {
        ReserveRegs(1);
        e1, x1 := Discharge2Reg(e, freereg - 1, x);
      }
    }

    /** code_label. */
    method CodeLabel(reg: nat, val: bool, skip: bool) returns (pc: nat)
      requires Valid()
      modifies `code, `pend, `jpc, `here, `lasttarget
      ensures Valid() && Abs() == LuaCode.CodeLabel(old(Abs()), reg, val, skip)
      ensures pc == |old(code)| && here == {} && Opened() == old(Opened()) && Keeps(old(code), code, old(Opened()))
    {
      pc := GetLabel();
      Code(LoadBool(reg, val, skip));
    }

    /** The two patchlistaux at the end of exp2reg. */
    method PatchBoth(t: int, f: int, reg: nat, pf: int, pt: int, ghost ts: set<nat>, ghost fs: set<nat>)
      requires Valid() && Holds(code, t, ts) && Holds(code, f, fs) && ts <= Opened() && fs <= Opened() && ts !! fs
      requires forall j :: j in fs && !TestSetControls(Abs().code, j) ==> pf >= 0
      requires forall j :: j in ts && !TestSetControls(Abs().code, j) ==> pt >= 0
      modifies `code, `pend, `lasttarget
      ensures Valid() && Abs() == LuaCode.PatchBoth(LuaCode.GetLabel(old(Abs())), ts, fs, reg, pf, pt)
      ensures Opened() == old(Opened()) - ts - fs && Keeps(old(code), code, old(Opened()) - ts - fs)
    {
      ghost var c0, a0, h := code, AbsCode(code, pend), here;
      HoldsIn(code, t, ts);
      HoldsIn(code, jpc, here);
      var final := GetLabel();
      PatchListAux(f, final, reg, pf, fs);
      HoldsFrame(c0, code, t, ts);
      HoldsFrame(c0, code, jpc, h);
      ControlsKept(a0, fs, final, reg, pf);
      ghost var c1 := code;
      PatchListAux(t, final, reg, pt, ts);
      HoldsFrame(c1, code, jpc, h);
    }

    /** The second half of exp2reg. */
    method FinishJumps(isjmp: bool, t: int, f: int, reg: nat, ghost ts: set<nat>, ghost fs: set<nat>)
      requires Valid() && Holds(code, t, ts) && Holds(code, f, fs) && ts <= Opened() && fs <= Opened() && ts !! fs
      modifies `code, `pend, `jpc, `here, `lasttarget
      ensures Valid() && Abs() == LuaCode.FinishJumps(old(Abs()), isjmp, ts, fs, reg)
      ensures Opened() == old(Opened()) - ts - fs && Keeps(old(code), code, old(Opened()) - ts - fs)
    {
      hide LuaCode.FinishJumps, LuaCode.PatchBoth, LuaCode.CodeLabel, AbsCode, Valid, Holds;
      FinishCase(Abs(), isjmp, ts, fs, reg);
      ValidOK();
      var need := NeedsValue(t, ts);
      if !need { need := NeedsValue(f, fs); }
      if !need {
        PatchBoth(t, f, reg, NO_JUMP, NO_JUMP, ts, fs);
      } else {
        LoadAndPatch(isjmp, t, f, reg, ts, fs);
      }
    }

    method LoadAndPatch(isjmp: bool, t: int, f: int, reg: nat, ghost ts: set<nat>, ghost fs: set<nat>)
      requires Valid() && Holds(code, t, ts) && Holds(code, f, fs) && ts <= Opened() && fs <= Opened() && ts !! fs
      modifies `code, `pend, `jpc, `here, `lasttarget
      ensures Valid() && Opened() == old(Opened()) - ts - fs && Keeps(old(code), code, old(Opened()) - ts - fs)
      ensures var (fs1, fj) := if isjmp then (old(Abs()), {}) else LuaCode.Jump(old(Abs()));
        var fs2 := LuaCode.CodeLabel(LuaCode.CodeLabel(fs1, reg, false, true), reg, true, false);
        Abs() == LuaCode.PatchBoth(LuaCode.GetLabel(LuaCode.PatchToHere(fs2, fj)), ts, fs, reg,
                                   |fs1.code|, |fs1.code| + 1)
    {
      ghost var c0, o := code, Opened();
      hide *;
      var pf, pt := CodeLoads(isjmp, reg);
      HoldsKeeps(c0, code, t, ts, o);
      HoldsKeeps(c0, code, f, fs, o);
      ghost var c1 := code;
      PatchBoth(t, f, reg, pf, pt, ts, fs);
      KeepsMore(c0, c1, code, o, o - ts - fs);
    }

    /** The loads of false and true, and the jump around them. */
    method CodeLoads(isjmp: bool, reg: nat) returns (pf: int, pt: int)
      requires Valid()
      modifies `code, `pend, `jpc, `here, `lasttarget
      ensures Valid() && Opened() == old(Opened()) && Keeps(old(code), code, old(Opened()))
      ensures 0 <= pf && pt == pf + 1
      ensures var (fs1, fj) := if isjmp then (old(Abs()), {}) else LuaCode.Jump(old(Abs()));
        && pf == |fs1.code|
        && Abs() == LuaCode.PatchToHere(
             LuaCode.CodeLabel(LuaCode.CodeLabel(fs1, reg, false, true), reg, true, false), fj)
    {
      hide Holds, CodeOK, AbsCode;
      OpenedAll();
      CodeLength();
      ghost var c0, o := code, Opened();
      var fj := NO_JUMP;
      ghost var js := {};
      HoldsEmpty(code);
      if !isjmp { fj, js := Jump(); }
      ghost var c1, o1 := code, Opened();
      assert o1 == o + js && js !! o;
      pf := CodeLabel(reg, false, true);
      ghost var c2, o2 := code, Opened();
      pt := CodeLabel(reg, true, false);
      ghost var c3, o3 := code, Opened();
      KeepsTrans(c1, c2, c3, o1, o2);
      HoldsKeeps(c1, c3, fj, js, o1);
      PatchToHere(fj, js);
      assert Opened() == o;
      KeepsTrans(c1, c3, code, o1, o3);
      KeepsTrans(c0, c1, code, o, o1);
    }

    // -------------------------------------------------------------------
    // Putting a value to use

    /** hasjumps. */
    method Jumps(e: ExpDesc, ghost x: Exp) returns (b: bool)
      requires Stands(code, e, x) && x.t !! x.f
      ensures b == HasJumps(x)
    {
      b := e.t != e.f;
      HoldsIn(code, e.t, x.t);
      HoldsIn(code, e.f, x.f);
      if e.t == e.f { HoldsUnique(code, e.t, x.t, x.f); }
    }

    /** A comparison's own jump is put on the list of true exits. */
    method TrueExits(e: ExpDesc, ghost x: Exp) returns (t: int, ghost ts: set<nat>)
      requires Valid() && Stands(code, e, x) && Owns(x)
      modifies `code
      ensures Valid() && Abs() == old(Abs()) && |code| == |old(code)| && Opened() == old(Opened())
      ensures ts == (if x.k.VJmp? then x.t + {x.k.j} else x.t) && Holds(code, t, ts) && Holds(code, e.f, x.f)
      ensures Keeps(old(code), code, old(Opened()) - Own(x))
    {
      t, ts := e.t, x.t;
      if e.k.VJmp? {
        ghost var c := code;
        t := Concat(e.t, e.k.j, x.t, {x.k.j});
        ts := x.t + {x.k.j};
        HoldsOutside(c, code, jpc, here, x.t);
        HoldsOutside(c, code, e.f, x.f, x.t);
      }
    }

    lemma ListsDiffer(t: int, f: int, ts: set<nat>, fs: set<nat>)
      requires Holds(code, t, ts) && Holds(code, f, fs) && ts !! fs
      ensures t == f <==> ts == fs
    {
      HoldsIn(code, t, ts);
      HoldsIn(code, f, fs);
      if t == f { HoldsUnique(code, t, ts, fs); }
    }

    lemma OwnedLists(x: Exp)
      requires Owns(x)
      ensures var ts := if x.k.VJmp? then x.t + {x.k.j} else x.t;
        ts <= Opened() && x.f <= Opened() && ts !! x.f && ts + x.f == Own(x) <= Opened()
    {}

    lemma OwnedReg(reg: nat)
      ensures Owns(Exp(VNonReloc(reg), {}, {})) && Own(Exp(VNonReloc(reg), {}, {})) == {}
      ensures Stands(code, ExpDesc(VNonReloc(reg), NO_JUMP, NO_JUMP), Exp(VNonReloc(reg), {}, {}))
    {
      HoldsEmpty(code);
    }

    /** The exits of exp2reg, if there are any. */
    method Settle(isjmp: bool, t: int, f: int, reg: nat, ghost ts: set<nat>, ghost fs: set<nat>)
      requires Valid() && Holds(code, t, ts) && Holds(code, f, fs) && ts <= Opened() && fs <= Opened() && ts !! fs
      modifies `code, `pend, `jpc, `here, `lasttarget
      ensures Valid()
      ensures Abs() == if ts == fs then old(Abs()) else LuaCode.FinishJumps(old(Abs()), isjmp, ts, fs, reg)
      ensures Opened() == old(Opened()) - (ts + fs) && Keeps(old(code), code, old(Opened()) - (ts + fs))
      ensures |code| >= |old(code)|
    {
      ListsDiffer(t, f, ts, fs);
      assert Opened() - (ts + fs) == Opened() - ts - fs;
      hide Holds, LuaCode.FinishJumps, AbsCode, CodeOK;
      if t != f { FinishJumps(isjmp, t, f, reg, ts, fs); }
    }

    /** exp2reg, once the value proper has been discharged. */
    method CatchExits(e: ExpDesc, reg: nat, ghost x: Exp) returns (e1: ExpDesc, ghost x1: Exp)
      requires Valid() && Stands(code, e, x) && Owns(x)
      modifies `code, `pend, `jpc, `here, `lasttarget
      ensures Turned(x, x1, e1) && x1 == Exp(VNonReloc(reg), {}, {}) && Own(x1) == {}
      ensures var t := if x.k.VJmp? then x.t + {x.k.j} else x.t;
        Abs() == if t == x.f then old(Abs()) else LuaCode.FinishJumps(old(Abs()), x.k.VJmp?, t, x.f, reg)
    {
      StandsKind(code, e, x);
      OwnedLists(x);
      OpenedBelow(x);
      hide *;
      ghost var c1, o := code, Opened();
      var t;
      ghost var ts;
      t, ts := TrueExits(e, x);
      ghost var c2 := code;
      Settle(e.k.VJmp?, t, e.f, reg, ts, x.f);
      MovedNone(c1, c2, code, o, Own(x), Opened());
      e1, x1 := ExpDesc(VNonReloc(reg), NO_JUMP, NO_JUMP), Exp(VNonReloc(reg), {}, {});
      OwnedReg(reg);
      TurnedIntro(c1, o, x, x1, e1);
    }

    lemma TurnedIntro(c: seq<Word>, o: set<nat>, x: Exp, x1: Exp, e1: ExpDesc)
      requires Valid() && Stands(code, e1, x1) && Owns(x1) && Moved(c, o, code, Opened(), Own(x), Own(x1))
      ensures TurnedFrom(c, o, x, x1, e1)
    {}

    /** exp2reg. */
    method Exp2Reg(e: ExpDesc, reg: nat, ghost x: Exp) returns (e1: ExpDesc, ghost x1: Exp)
      requires Valid() && Stands(code, e, x) && Owns(x)
      modifies `code, `pend, `jpc, `here, `k, `lasttarget
      ensures (Abs(), x1) == LuaCode.Exp2Reg(old(Abs()), x, reg) && Turned(x, x1, e1)
      ensures Own(x1) == {} && x1 == Exp(VNonReloc(reg), {}, {})
    {
      Exp2RegForm(Abs(), x, reg);
      hide LuaCode.Exp2Reg, LuaCode.Discharge2Reg, LuaCode.FinishJumps, Moved, Valid, Stands, Owns, Own, AbsCode;
      ghost var c0, o0, x2 := code, Opened(), x;
      var e2;
      e2, x2 := Discharge2Reg(e, reg, x);
      ghost var c1, o1 := code, Opened();
      e1, x1 := CatchExits(e2, reg, x2);
      MovedTrans(c0, o0, c1, o1, code, Opened(), Own(x), Own(x2), Own(x1));
    }

    /** luaK_exp2nextreg. */
    method Exp2NextReg(e: ExpDesc, ghost x: Exp) returns (e1: ExpDesc, ghost x1: Exp)
      requires Valid() && Stands(code, e, x) && Owns(x)
      modifies `code, `pend, `jpc, `here, `k, `lasttarget, `freereg
      ensures (Abs(), x1) == LuaCode.Exp2NextReg(old(Abs()), x) && Turned(x, x1, e1) && Own(x1) == {}
    {
      NextRegForm(Abs(), x);
      ghost var c0, o := code, Opened();
      hide LuaCode.Exp2NextReg, LuaCode.Exp2Reg, LuaCode.DischargeVars, Valid, Owns, Stands, AbsCode, LuaCode.FreeExp, Own;
      ghost var x2;
      var e2;
      e2, x2 := DischargeVars(e, x);
      ghost var c1 := code;
      StandsKind(code, e2, x2);
      FreeExp(e2);
      ReserveRegs(1);
      e1, x1 := Exp2Reg(e2, freereg - 1, x2);
    }

    /** luaK_exp2anyreg. */
    method Exp2AnyReg(e: ExpDesc, ghost x: Exp) returns (e1: ExpDesc, ghost x1: Exp)
      requires Valid() && Stands(code, e, x) && Owns(x)
      modifies `code, `pend, `jpc, `here, `k, `lasttarget, `freereg
      ensures (Abs(), x1) == LuaCode.Exp2AnyReg(old(Abs()), x) && Turned(x, x1, e1) && Own(x1) == {}
    {
      AnyRegForm(Abs(), x);
      ghost var c0, o, n := code, Opened(), nactvar;
      hide LuaCode.Exp2NextReg, LuaCode.Exp2Reg, LuaCode.DischargeVars, Valid, Stands, AbsCode, Own;
      ghost var x2;
      var e2;
      e2, x2 := DischargeVars(e, x);
      ghost var c1 := code;
      StandsKind(code, e2, x2);
      var jumps := Jumps(e2, x2);
      NoExits(x2);
      hide Owns;
      if e2.k.VNonReloc? && !jumps {
        e1, x1 := e2, x2;
      } else if e2.k.VNonReloc? && e2.k.r >= nactvar {
        e1, x1 := Exp2Reg(e2, e2.k.r, x2);
      } else {
        e1, x1 := Exp2NextReg(e2, x2);
      }
    }

    /** luaK_exp2val. */
    method Exp2Val(e: ExpDesc, ghost x: Exp) returns (e1: ExpDesc, ghost x1: Exp)
      requires Valid() && Stands(code, e, x) && Owns(x)
      modifies `code, `pend, `jpc, `here, `k, `lasttarget, `freereg
      ensures (Abs(), x1) == LuaCode.Exp2Val(old(Abs()), x) && Turned(x, x1, e1) && x1.t == {} == x1.f
    {
      ValForm(Abs(), x);
      var jumps := Jumps(e, x);
      assert !jumps ==> x.t == {} == x.f;
      hide LuaCode.Exp2AnyReg, LuaCode.DischargeVars, Valid, Stands, AbsCode, Own, Owns;
      if jumps {
        e1, x1 := Exp2AnyReg(e, x);
        OwnNone(x1);
      } else {
        e1, x1 := DischargeVars(e, x);
      }
    }

    /** luaK_exp2RK. */
    method Exp2RK(e: ExpDesc, ghost x: Exp) returns (e1: ExpDesc, ghost x1: Exp)
      requires Valid() && Stands(code, e, x) && Owns(x)
      modifies `code, `pend, `jpc, `here, `k, `lasttarget, `freereg
      ensures (Abs(), x1) == LuaCode.Exp2RK(old(Abs()), x) && Turned(x, x1, e1) && Own(x1) == {}
    {
      ghost var c, o, x2 := code, Opened(), x;
      var e2;
      hide LuaCode.Exp2AnyReg, LuaCode.Exp2Val, AddK, Valid, AbsCode, Own, Owns, Moved;
      e2, x2 := Exp2Val(e, x);
      ghost var d, p := code, Opened();
      StandsKind(code, e2, x2);
      if IsConst(e2.k) && |k| <= MAXINDEXRK {
        var i := AddConst(ConstValue(e2.k));
        e1, x1 := e2.(k := VK(i)), x2.(k := VK(i));
        OwnsPlain(x2, x1);
      } else if e2.k.VK? && e2.k.info <= MAXINDEXRK {
        e1, x1 := e2, x2;
        OwnsPlain(x2, x1);
      } else {
        e1, x1 := Exp2AnyReg(e2, x2);
        MovedTrans(c, o, d, p, code, Opened(), Own(x), Own(x2), Own(x1));
      }
    }

    lemma OwnsPlain(x: Exp, x1: Exp)
      requires Owns(x) && !x.k.VJmp? && x1 == x.(k := x1.k) && x1.k.VK? && x.t == {} == x.f
      ensures Owns(x1) && Own(x1) == {} == Own(x)
    {}

    // -------------------------------------------------------------------
    // Conditions

    /** invertjump. */
    method InvertJump(j: nat)
      requires Valid() && 1 <= j <= |code| && code[j - 1].OpW? && code[j - 1].i.Cmp?
      modifies `code
      ensures Valid() && Abs() == LuaCode.InvertJump(old(Abs()), j)
      ensures |code| == |old(code)| && Keeps(old(code), code, pend) && code[j - 1].OpW? && code[j - 1].i.Cmp?
      ensures Opened() == old(Opened())
    {
      ghost var c := code;
      var i := code[j - 1].i;
      code := code[j - 1 := OpW(Cmp(i.op, !i.cond, i.rb, i.rc))];
      HoldsIn(c, jpc, here);
      HoldsFrame(c, code, jpc, here);
      assert AbsCode(code, pend) == AbsCode(c, pend)[j - 1 := Cmp(i.op, !i.cond, i.rb, i.rc)];
    }

    /** Taking back the last instruction, which is not a jump. */
    method DropLast()
      requires Valid() && code != [] && code[|code| - 1].OpW?
      modifies `code
      ensures Valid() && Abs() == old(Abs()).(code := old(Abs()).code[..|old(code)| - 1])
      ensures |code| == |old(code)| - 1 && Keeps(old(code), code, pend) && Opened() == old(Opened())
    {
      ghost var c := code;
      code := code[..|code| - 1];
      HoldsIn(c, jpc, here);
      assert Keeps(c, code, pend);
      HoldsKeeps(c, code, jpc, here, pend);
      assert AbsCode(code, pend) == AbsCode(c, pend)[..|c| - 1];
    }

    /** jumponcond. */
    method JumpOnCond(e: ExpDesc, cond: bool, ghost x: Exp) returns (j: int, ghost l: set<nat>)
      requires Valid() && Stands(code, e, x) && Owns(x) && !x.k.VJmp?
      modifies `code, `pend, `jpc, `here, `k, `freereg
      ensures Valid() && (Abs(), l) == LuaCode.JumpOnCond(old(Abs()), x, cond) && Holds(code, j, l)
      ensures Opened() == old(Opened()) + l && (forall p :: p in l ==> p >= |old(code)|)
      ensures Keeps(old(code), code, old(Opened())) && |code| >= |old(code)|
    {
      JumpForm(Abs(), x, cond);
      assert AbsCode(code, pend)[..] == AbsCode(code, pend);
      if e.k.VReloc? && code[e.k.pc].i.NotR? {
        var b := code[e.k.pc].i.b;
        ghost var c, o := code, Opened();
        hide LuaCode.JumpOnCond, LuaCode.CondJump, Holds, CodeOK;
        DropLast();
        ghost var d := code;
        j, l := CondJump(Test(b, !cond));
        KeepsTrans(c, d, code, o, o);
      } else {
        ghost var c, o := code, Opened();
        ghost var x1;
        var e1;
        hide LuaCode.JumpOnCond, LuaCode.CondJump, LuaCode.Discharge2AnyReg, Holds, CodeOK, Owns, Own;
        e1, x1 := Discharge2AnyReg(e, x);
        ghost var d := code;
        FreeExp(e1);
        j, l := CondJump(TestSet(NO_REG, e1.k.r, cond));
        KeepsTrans(c, d, code, o, o);
      }
    }

    /** The test of a discharged condition: the jump to take when the value is
        `cond`, if one is needed. */
    method TestFor(e: ExpDesc, cond: bool, ghost x: Exp) returns (pc: int, ghost l: set<nat>)
      requires Valid() && Stands(code, e, x) && Owns(x)
      modifies `code, `pend, `jpc, `here, `k, `freereg
      ensures Valid() && (Abs(), l) == TestOf(old(Abs()), cond, x) && Holds(code, pc, l) && Stands(code, e, x)
      ensures Opened() == old(Opened()) + l && l !! x.t && l !! x.f && x.t !! x.f && x.t + x.f <= Opened()
      ensures (forall p :: p in l ==> p in Own(x) || p >= |old(code)|)
      ensures Keeps(old(code), code, old(Opened())) && |code| >= |old(code)|
    {
      ghost var c, o := code, Opened();
      OpenedBelow(x);
      if (if cond then Falsy(e.k) else Truthy(e.k)) {
        pc, l := NO_JUMP, {};
        HoldsEmpty(code);
      } else if e.k.VJmp? {
        pc, l := e.k.j, {x.k.j};
        if !cond { InvertJump(e.k.j); }
        HoldsKeeps(c, code, pc, l, pend);
        StandsFrame(c, code, e, x, pend);
      } else {
        hide LuaCode.JumpOnCond;
        pc, l := JumpOnCond(e, cond, x);
        StandsFrame(c, code, e, x, o);
      }
    }

    /** The end of luaK_goiftrue and luaK_goiffalse: `pc` joins one list, and
        the other one is patched to the next instruction. */
    method JoinAndLand(list: int, pc: int, other: int, ghost a: set<nat>, ghost l: set<nat>, ghost b: set<nat>)
      returns (joined: int)
      requires Valid() && Holds(code, list, a) && Holds(code, pc, l) && Holds(code, other, b)
      requires a <= Opened() && b <= Opened() && l <= Opened() && a !! b && a !! l && b !! l
      modifies `code, `jpc, `here, `lasttarget
      ensures Valid() && Abs() == LuaCode.PatchToHere(old(Abs()), b) && Holds(code, joined, a + l)
      ensures Opened() == old(Opened()) - b && Keeps(old(code), code, old(Opened()) - a) && |code| == |old(code)|
    {
      ghost var c, o := code, Opened();
      joined := Concat(list, pc, a, l);
      HoldsOutside(c, code, jpc, here, a);
      HoldsOutside(c, code, other, b, a);
      ghost var d := code;
      PatchToHere(other, b);
      HoldsKeeps(d, code, joined, a + l, o);
    }

    /** luaK_goiftrue. */
    method GoIfTrue(e: ExpDesc, ghost x: Exp) returns (e1: ExpDesc, ghost x1: Exp)
      requires Valid() && Stands(code, e, x) && Owns(x)
      modifies `code, `pend, `jpc, `here, `k, `freereg, `lasttarget
      ensures Valid() && (Abs(), x1) == LuaCode.GoIfTrue(old(Abs()), x) && Stands(code, e1, x1) && x1.t == {}
      ensures Moved(old(code), old(Opened()), code, Opened(), Own(x), x1.f)
    {
      GoForm(Abs(), x);
      ghost var c, o := code, Opened();
      OpenedBelow(x);
      hide *;
      ghost var x2, l;
      var e2, pc;
      e2, x2 := DischargeVars(e, x);
      ghost var d := code;
      pc, l := TestFor(e2, false, x2);
      ghost var d1, o1 := code, Opened();
      StandsLists(code, e2, x2, Opened());
      var f := JoinAndLand(e2.f, pc, e2.t, x2.f, l, x2.t);
      e1, x1 := ExpDesc(e2.k, NO_JUMP, f), Exp(x2.k, {}, x2.f + l);
      HoldsEmpty(code);
      StandsMake(code, e1, x1);
      GoMoved(c, o, d, d1, o1, code, Opened(), x2, Own(x), x2.f, x2.t, l);
    }

    /** luaK_goiffalse. */
    method GoIfFalse(e: ExpDesc, ghost x: Exp) returns (e1: ExpDesc, ghost x1: Exp)
      requires Valid() && Stands(code, e, x) && Owns(x)
      modifies `code, `pend, `jpc, `here, `k, `freereg, `lasttarget
      ensures Valid() && (Abs(), x1) == LuaCode.GoIfFalse(old(Abs()), x) && Stands(code, e1, x1) && x1.f == {}
      ensures Moved(old(code), old(Opened()), code, Opened(), Own(x), x1.t)
    {
      GoForm(Abs(), x);
      ghost var c, o := code, Opened();
      OpenedBelow(x);
      hide *;
      ghost var x2, l;
      var e2, pc;
      e2, x2 := DischargeVars(e, x);
      ghost var d := code;
      pc, l := TestFor(e2, true, x2);
      ghost var d1, o1 := code, Opened();
      StandsLists(code, e2, x2, Opened());
      var t := JoinAndLand(e2.t, pc, e2.f, x2.t, l, x2.f);
      e1, x1 := ExpDesc(e2.k, t, NO_JUMP), Exp(x2.k, x2.t + l, {});
      HoldsEmpty(code);
      StandsMake(code, e1, x1);
      GoMoved(c, o, d, d1, o1, code, Opened(), x2, Own(x), x2.t, x2.f, l);
    }

    /** The value proper of a negation. */
    method NotValue(e: ExpDesc, ghost x: Exp) returns (k1: Kind)
      requires Valid() && Stands(code, e, x) && Owns(x) && Discharged(x.k)
      modifies `code, `pend, `jpc, `here, `k, `freereg
      ensures Valid() && (Abs(), k1) == NotOf(old(Abs()), x) && Stands(code, e, x) && Owns(x.(k := k1))
      ensures Opened() == old(Opened()) && Keeps(old(code), code, old(Opened())) && |code| >= |old(code)|
    {
      ghost var c, o := code, Opened();
      OpenedBelow(x);
      if Falsy(e.k) {
        k1 := VTrue;
      } else if Truthy(e.k) {
        k1 := VFalse;
      } else if e.k.VJmp? {
        InvertJump(e.k.j);
        k1 := e.k;
        HoldsKeeps(c, code, e.k.j, {x.k.j}, pend);
        StandsFrame(c, code, e, x, pend);
      } else {
        hide LuaCode.Discharge2AnyReg, LuaCode.FreeExp, Emit, Own;
        ghost var x1;
        var e1;
        e1, x1 := Discharge2AnyReg(e, x);
        ghost var d := code;
        FreeExp(e1);
        Code(NotR(0, e1.k.r));
        k1 := VReloc(|code| - 1);
        KeepsTrans(c, d, code, o, o);
        StandsFrame(c, code, e, x, o);
      }
    }

    /** codenot. */
    method CodeNot(e: ExpDesc, ghost x: Exp) returns (e1: ExpDesc, ghost x1: Exp)
      requires Valid() && Stands(code, e, x) && Owns(x)
      modifies `code, `pend, `jpc, `here, `k, `freereg
      ensures (Abs(), x1) == LuaCode.CodeNot(old(Abs()), x) && Turned(x, x1, e1)
    {
      NotForm(Abs(), x);
      ghost var c, o := code, Opened();
      OpenedBelow(x);
      hide *;
      ghost var x2;
      var e2;
      e2, x2 := DischargeVars(e, x);
      ghost var d := code;
      var k1 := NotValue(e2, x2);
      e1, x1 := ExpDesc(k1, e2.f, e2.t), Exp(k1, x2.f, x2.t);
      ghost var d1, o1, y := code, Opened(), x2.(k := k1);
      StandsLists(code, e2, x2, x2.t + x2.f);
      OwnsLists(y);
      RemoveValues(e2.t, x2.t);
      ghost var d2 := code;
      HoldsKeeps(d1, d2, e2.f, x2.f, pend);
      RemoveValues(e2.f, x2.f);
      NotKept(d1, d2, code, pend, o1, y);
      HoldsKeeps(d1, code, e2.f, x2.f, o1);
      HoldsKeeps(d1, code, e2.t, x2.t, o1);
      StandsMake(code, e1, x1);
      OwnsSwapped(d1, y, x1);
      NotMoved(c, o, d, d1, code, x, x2, x1);
      TurnedIntro(c, o, x, x1, e1);
    }

    lemma OwnsLists(x: Exp)
      requires Owns(x)
      ensures x.t <= Opened() && x.f <= Opened() && Opened() <= pend && Own(x) <= Opened()
    {}

    /** Exchanging the lists, after some TESTSETs have been changed. */
    lemma OwnsSwapped(c: seq<Word>, y: Exp, x1: Exp)
      requires OwnsIn(c, Opened(), y) && |c| == |code| && x1 == Exp(y.k, y.f, y.t)
      requires forall p :: 0 <= p < |c| && !(c[p].OpW? && c[p].i.TestSet?) ==> code[p] == c[p]
      requires forall p :: 0 <= p < |c| && c[p].OpW? ==> code[p].OpW?
      ensures Owns(x1)
    {
      if y.k.VJmp? {
        HoldsIn(c, y.k.j, {y.k.j});
        HoldsFrame(c, code, y.k.j, {y.k.j});
      }
    }

    // -------------------------------------------------------------------
    // Operators

    /** The second luaK_exp2RK of an operand: nothing happens. */
    method Exp2RKAgain(e: ExpDesc, ghost x: Exp, ghost y: Exp, ghost y1: ExpDesc) returns (e1: ExpDesc, ghost x1: Exp)
      requires Valid() && Stands(code, e, x) && Owns(x) && IsOperand(x) && Stands(code, y1, y) && Owns(y)
      modifies `code, `pend, `jpc, `here, `k, `lasttarget, `freereg
      ensures Valid() && x1 == x && e1.k == x.k && Abs() == old(Abs()) && LuaCode.Exp2RK(old(Abs()), x) == (old(Abs()), x)
      ensures Stands(code, y1, y) && Owns(y) && Opened() == old(Opened()) && Keeps(old(code), code, old(Opened()))
      ensures |code| == |old(code)|
    {
      ghost var c, o, q, h := code, Opened(), pend, here;
      OpenedBelow(x);
      AgainForm(Abs(), x);
      hide LuaCode.Exp2RK, Holds;
      e1, x1 := Exp2RK(e, x);
      assert |AbsCode(code, pend)| == |AbsCode(c, q)|;
      StandsFrame(c, code, y1, y, o);
      OwnsAbs(c, q, code, pend, o, y);
    }

    /** codecomp. */
    method CodeComp(op: CmpOp, cond: bool, e1: ExpDesc, e2: ExpDesc, ghost x1: Exp, ghost x2: Exp)
      returns (e: ExpDesc, ghost x: Exp)
      requires Valid() && Stands(code, e1, x1) && Owns(x1) && IsOperand(x1) && Stands(code, e2, x2) && Owns(x2)
      modifies `code, `pend, `jpc, `here, `k, `lasttarget, `freereg
      ensures (Abs(), x) == LuaCode.CodeComp(old(Abs()), op, cond, x1, x2) && Turned(x2, x, e)
    {
      ghost var c, o := code, Opened();
      OpenedBelow(x2);
      ghost var y1, y2;
      hide LuaCode.Exp2RK, LuaCode.FreeExp, LuaCode.CondJump, AbsCode, Valid, Owns, Own, Moved, Keeps;
      var o1, p1;
      o1, p1, y1, y2 := Operands(e1, e2, x1, x2);
      ghost var d, p := code, Opened();
      var i := if !cond && op != CmpOp.EQ then Cmp(op, true, p1, o1) else Cmp(op, cond, o1, p1);
      OpenedAll();
      var j;
      ghost var l;
      j, l := CondJump(i);
      e, x := ExpDesc(VJmp(|code| - 1), NO_JUMP, NO_JUMP), Exp(VJmp(|code| - 1), {}, {});
      CompOwns(j, l, e, x);
      CompMoved(c, d, code, o, p, Opened(), Own(x2), j);
    }

    /** The two operands of a comparison, whose registers are given back. */
    method Operands(e1: ExpDesc, e2: ExpDesc, ghost x1: Exp, ghost x2: Exp)
      returns (o1: RK, p1: RK, ghost y1: Exp, ghost y2: Exp)
      requires Valid() && Stands(code, e1, x1) && Owns(x1) && IsOperand(x1) && Stands(code, e2, x2) && Owns(x2)
      modifies `code, `pend, `jpc, `here, `k, `lasttarget, `freereg
      ensures Valid() && y1 == x1 && LuaCode.Exp2RK(old(Abs()), x1) == (old(Abs()), y1)
      ensures var (fs2, z2) := LuaCode.Exp2RK(old(Abs()), x2);
        y2 == z2 && Abs() == LuaCode.FreeExp(LuaCode.FreeExp(fs2, z2), y1)
      ensures o1 == Operand(y1) && p1 == Operand(y2) && y2.t == {} == y2.f
      ensures Moved(old(code), old(Opened()), code, Opened(), Own(x2), {})
    {
      ghost var c, o := code, Opened();
      hide LuaCode.Exp2RK, LuaCode.FreeExp, AbsCode, Valid, Owns, Own, Moved, Keeps;
      var d1, d2;
      d1, y1 := Exp2RKAgain(e1, x1, x2, e2);
      ghost var c1 := code;
      d2, y2 := Exp2RK(e2, x2);
      ghost var c2 := code;
      StandsKind(code, d2, y2);
      FreeExp(d2);
      FreeExp(d1);
      o1, p1 := Operand(Exp(d1.k, {}, {})), Operand(Exp(d2.k, {}, {}));
      OwnNone(y2);
      KeepsMoved(c, c1, c2, o, Opened(), Own(x2));
    }

    lemma OpenedAll()
      requires Valid()
      ensures forall j :: j in Opened() ==> j < |code|
    {}

    lemma CompOwns(j: int, l: set<nat>, e: ExpDesc, x: Exp)
      requires Valid() && Holds(code, j, l) && l == {|code| - 1} && l <= Opened() && j == |code| - 1 >= 1
      requires e == ExpDesc(VJmp(|code| - 1), NO_JUMP, NO_JUMP) && x == Exp(VJmp(|code| - 1), {}, {})
      requires AbsCode(code, pend)[|code| - 2].Cmp?
      ensures Stands(code, e, x) && Owns(x) && Own(x) == {j}
    {
      HoldsEmpty(code);
    }

    /** luaK_infix. */
    method Infix(op: BinOp, e: ExpDesc, ghost x: Exp) returns (e1: ExpDesc, ghost x1: Exp)
      requires Valid() && Stands(code, e, x) && Owns(x)
      modifies `code, `pend, `jpc, `here, `k, `lasttarget, `freereg
      ensures Valid() && (Abs(), x1) == LuaCode.Infix(old(Abs()), op, x) && Stands(code, e1, x1)
      ensures Moved(old(code), old(Opened()), code, Opened(), Own(x), x1.t + x1.f)
      ensures match op case And => x1.t == {} case Or => x1.f == {} case _ => IsOperand(x1) && Owns(x1)
    {
      hide LuaCode.GoIfTrue, LuaCode.GoIfFalse, LuaCode.Exp2RK, Valid, Stands, Owns, Own, Moved, AbsCode;
      match op {
        case And =>
          e1, x1 := GoIfTrue(e, x);
          assert x1.t + x1.f == x1.f;
        case Or =>
          e1, x1 := GoIfFalse(e, x);
          assert x1.t + x1.f == x1.t;
        case _ =>
          OwnedDisjoint(x);
          RKForm(Abs(), x);
          e1, x1 := Exp2RK(e, x);
          OwnNone(x1);
          assert x1.t + x1.f == {};
      }
    }

    lemma OwnedDisjoint(x: Exp)
      requires Owns(x)
      ensures x.t !! x.f
    {}

    /** luaK_posfix.  `e1` is what luaK_infix made of the first operand. */
    method Posfix(op: BinOp, e1: ExpDesc, e2: ExpDesc, ghost x1: Exp, ghost x2: Exp)
      returns (e: ExpDesc, ghost x: Exp)
      requires Valid() && Stands(code, e1, x1) && Stands(code, e2, x2) && Owns(x2)
      requires x1.t + x1.f <= Opened() && x1.t + x1.f !! Own(x2)
      requires match op case And => x1.t == {} case Or => x1.f == {} case _ => IsOperand(x1) && Owns(x1)
      modifies `code, `pend, `jpc, `here, `k, `lasttarget, `freereg
      ensures Valid() && (Abs(), x) == LuaCode.Posfix(old(Abs()), op, x1, x2) && Stands(code, e, x) && Owns(x)
      ensures Moved(old(code), old(Opened()), code, Opened(), Own(x2) + x1.t + x1.f, Own(x))
    {
      OpenedBelow(x2);
      PosfixForm(Abs(), op, x1, x2);
      if op == And || op == Or {
        e, x := JoinLists(op, e1, e2, x1, x2);
      } else {
        assert Own(x2) + x1.t + x1.f == Own(x2);
        var p := CompOp(op);
        hide LuaCode.Posfix, LuaCode.CodeComp, Valid, Stands, Owns, Own, Moved, AbsCode;
        e, x := CodeComp(p.0, p.1, e1, e2, x1, x2);
      }
    }

    lemma CodeLength()
      ensures |Abs().code| == |code|
    {
    }

    /** luaK_posfix for `and` and `or`: the exits are joined. */
    method JoinLists(op: BinOp, e1: ExpDesc, e2: ExpDesc, ghost x1: Exp, ghost x2: Exp)
      returns (e: ExpDesc, ghost x: Exp)
      requires op == And || op == Or
      requires Valid() && Stands(code, e1, x1) && Stands(code, e2, x2) && Owns(x2)
      requires x1.t + x1.f <= Opened() && x1.t + x1.f !! Own(x2) && if op == And then x1.t == {} else x1.f == {}
      modifies `code, `pend, `jpc, `here
      ensures Valid() && (Abs(), x) == LuaCode.Posfix(old(Abs()), op, x1, x2) && Stands(code, e, x) && Owns(x)
      ensures Moved(old(code), old(Opened()), code, Opened(), Own(x2) + x1.t + x1.f, Own(x))
    {
      hide *;
      ghost var c, o := code, Opened();
      OpenedBelow(x2);
      JoinForm(Abs(), op, x1, x2);
      ghost var y, own, lists := x2, Own(x2), x1.t + x1.f;
      assert lists == if op == And then x1.f else x1.t;
      StandsLists(code, e1, x1, o);
      var d;
      ghost var fs := Abs();
      CodeLength();
      d, y := DischargeVars(e2, x2);
      CodeLength();
      NoShorter(fs, x2);
      ghost var c1 := code;
      HoldsKeeps(c, code, e1.t, x1.t, o);
      HoldsKeeps(c, code, e1.f, x1.f, o);
      e, x := JoinEither(op == And, d, if op == And then e1.f else e1.t, y, lists);
      JoinMoved(c, c1, code, o, own, lists, y, x);
      assert own + lists == own + x1.t + x1.f;
    }

    method JoinEither(onFalse: bool, d: ExpDesc, list: int, ghost y: Exp, ghost l: set<nat>)
      returns (e: ExpDesc, ghost x: Exp)
      requires Valid() && Stands(code, d, y) && Owns(y) && Holds(code, list, l) && l <= Opened() && l !! Own(y)
      modifies `code
      ensures Valid() && Abs() == old(Abs()) && Opened() == old(Opened()) && |code| == |old(code)|
      ensures x == (if onFalse then y.(f := y.f + l) else y.(t := y.t + l)) && Stands(code, e, x) && Owns(x)
      ensures Own(x) == Own(y) + l && y.t + y.f <= Own(y)
      ensures forall p: nat :: p < |code| && p !in y.t && p !in y.f ==> code[p] == old(code)[p]
    {
      hide *;
      if onFalse { e, x := JoinFalse(d, list, y, l); } else { e, x := JoinTrue(d, list, y, l); }
    }

    method JoinFalse(d: ExpDesc, list: int, ghost y: Exp, ghost l: set<nat>) returns (e: ExpDesc, ghost x: Exp)
      requires Valid() && Stands(code, d, y) && Owns(y) && Holds(code, list, l) && l <= Opened() && l !! Own(y)
      modifies `code
      ensures Valid() && Abs() == old(Abs()) && Opened() == old(Opened()) && |code| == |old(code)|
      ensures x == y.(f := y.f + l) && Stands(code, e, x) && Owns(x) && Own(x) == Own(y) + l && y.t + y.f <= Own(y)
      ensures forall p: nat :: p < |code| && p !in y.t && p !in y.f ==> code[p] == old(code)[p]
    {
      ghost var c := code;
      OwnsParts(y);
      ValidOK();
      StandsLists(code, d, y, Opened());
      hide *;
      var f := ConcatOpen(d.f, list, d.t, y.f, l, y.t);
      e, x := d.(f := f), y.(f := y.f + l);
      ValidOK();
      StandsMake(code, e, x);
      OwnsJoined(c, Opened(), y, x, l);
    }

    method JoinTrue(d: ExpDesc, list: int, ghost y: Exp, ghost l: set<nat>) returns (e: ExpDesc, ghost x: Exp)
      requires Valid() && Stands(code, d, y) && Owns(y) && Holds(code, list, l) && l <= Opened() && l !! Own(y)
      modifies `code
      ensures Valid() && Abs() == old(Abs()) && Opened() == old(Opened()) && |code| == |old(code)|
      ensures x == y.(t := y.t + l) && Stands(code, e, x) && Owns(x) && Own(x) == Own(y) + l && y.t + y.f <= Own(y)
      ensures forall p: nat :: p < |code| && p !in y.t && p !in y.f ==> code[p] == old(code)[p]
    {
      ghost var c := code;
      OwnsParts(y);
      ValidOK();
      StandsLists(code, d, y, Opened());
      hide *;
      var t := ConcatOpen(d.t, list, d.f, y.t, l, y.f);
      e, x := d.(t := t), y.(t := y.t + l);
      ValidOK();
      StandsMake(code, e, x);
      OwnsJoined(c, Opened(), y, x, l);
    }

    lemma ValidOK()
      requires Valid()
      ensures CodeOK(code, pend) && Opened() <= pend
    {}

    lemma OwnsParts(y: Exp)
      requires Owns(y)
      ensures y.t <= Opened() && y.f <= Opened() && y.t <= Own(y) && y.f <= Own(y) && y.t !! y.f
      ensures OwnsIn(code, Opened(), y)
    {}

    /** luaK_concat on lists that a descriptor owns. */
    method ConcatOpen(l1: int, l2: int, l3: int, ghost a: set<nat>, ghost b: set<nat>, ghost d: set<nat>)
      returns (l: int)
      requires Valid() && Holds(code, l1, a) && Holds(code, l2, b) && Holds(code, l3, d) && a <= Opened() && a !! b && a !! d
      modifies `code
      ensures Valid() && Abs() == old(Abs()) && Opened() == old(Opened()) && |code| == |old(code)|
      ensures Holds(code, l, a + b) && Holds(code, l3, d)
      ensures forall p: nat :: p < |code| && p !in a ==> code[p] == old(code)[p]
    {
      ghost var c := code;
      l := Concat(l1, l2, a, b);
      HoldsOutside(c, code, jpc, here, a);
      HoldsOutside(c, code, l3, d, a);
    }

    lemma OwnsJoined(c: seq<Word>, o: set<nat>, y: Exp, x: Exp, lists: set<nat>)
      requires OwnsIn(c, o, y) && o == Opened() && |code| == |c| && lists <= o && lists !! Own(y)
      requires CodeOK(c, pend) && CodeOK(code, pend) && o <= pend
      requires x.k == y.k && x.t + x.f == y.t + y.f + lists && x.t !! x.f
      requires forall p: nat :: p < |code| && p !in y.t && p !in y.f ==> code[p] == c[p]
      ensures Owns(x) && Own(x) == Own(y) + lists
    {
      if y.k.VJmp? { HoldsOutside(c, code, y.k.j, {y.k.j}, y.t + y.f); }
    }

    /** What the parser does for an expression. */
    method Compile(x: Expr) returns (e: ExpDesc, ghost y: Exp)
      requires Valid()
      modifies `code, `pend, `jpc, `here, `k, `lasttarget, `freereg
      ensures Valid() && (Abs(), y) == LuaCode.Compile(old(Abs()), x) && Stands(code, e, y) && Owns(y)
      ensures Moved(old(code), old(Opened()), code, Opened(), {}, Own(y))
      decreases x, 1
    {
      ghost var c, o := code, Opened();
      OpenedAll();
      HoldsEmpty(code);
      CompileForm(Abs(), x);
      match x {
        case ENil => e, y := Atom(VNil);
        case ETrue => e, y := Atom(VTrue);
        case EFalse => e, y := Atom(VFalse);
        case EStr(v) =>
          var i := AddConst(Str(v));
          e, y := Atom(VK(i));
        case ENum(v) => e, y := Atom(VKNum(v));
        case ELocal(r) => e, y := Atom(VLocal(r));
        case EUpval(u) => e, y := Atom(VUpval(u));
        case EParen(a) =>
          hide LuaCode.Compile, LuaCode.DischargeVars, Moved, Valid, Stands, Owns, Own, AbsCode;
          ghost var z;
          e, z := Compile(a);
          ghost var d, p := code, Opened();
          e, y := DischargeVars(e, z);
          MovedTrans(c, o, d, p, code, Opened(), {}, Own(z), Own(y));
        case ENot(a) =>
          hide LuaCode.Compile, LuaCode.CodeNot, Moved, Valid, Stands, Owns, Own, AbsCode;
          ghost var z;
          e, z := Compile(a);
          ghost var d, p := code, Opened();
          e, y := CodeNot(e, z);
          MovedTrans(c, o, d, p, code, Opened(), {}, Own(z), Own(y));
        case EBin(op, a, b) =>
          e, y := CompileBin(op, a, b);
      }
    }

    method Atom(k1: Kind) returns (e: ExpDesc, ghost y: Exp)
      requires Valid() && !k1.VJmp? && !k1.VReloc?
      ensures e == ExpDesc(k1, NO_JUMP, NO_JUMP) && y == Exp(k1, {}, {}) && Stands(code, e, y) && Owns(y)
      ensures Moved(code, Opened(), code, Opened(), {}, Own(y))
    {
      HoldsEmpty(code);
      OpenedAll();
      e, y := ExpDesc(k1, NO_JUMP, NO_JUMP), Exp(k1, {}, {});
      assert Own(y) == {};
    }

    method CompileBin(op: BinOp, a: Expr, b: Expr) returns (e: ExpDesc, ghost y: Exp)
      requires Valid()
      modifies `code, `pend, `jpc, `here, `k, `lasttarget, `freereg
      ensures Valid() && (Abs(), y) == LuaCode.Compile(old(Abs()), EBin(op, a, b)) && Stands(code, e, y) && Owns(y)
      ensures Moved(old(code), old(Opened()), code, Opened(), {}, Own(y))
      decreases EBin(op, a, b), 0
    {
      Compiled.BinForm(Abs(), op, a, b);
      ghost var c, o := code, Opened();
      hide LuaCode.Compile, LuaCode.Infix, LuaCode.Posfix, Moved, Valid, Stands, Owns, Own, AbsCode;
      ghost var x1, x2, x3;
      var e1, e2, e3;
      e1, x1 := Compile(a);
      ghost var c1, o1 := code, Opened();
      e2, x2 := Infix(op, e1, x1);
      ghost var c2, o2, lists := code, Opened(), x2.t + x2.f;
      MovedTrans(c, o, c1, o1, c2, o2, {}, Own(x1), lists);
      MovedIn(c1, o1, c2, o2, Own(x1), lists);
      e3, x3 := Compile(b);
      ghost var c3, o3 := code, Opened();
      SecondOperand(c2, o2, e2, x2, x3, lists);
      e, y := Posfix(op, e2, e3, x2, x3);
      assert Own(x3) + x2.t + x2.f == Own(x3) + lists;
      BinMoved(c, o, c2, o2, c3, o3, code, Opened(), lists, Own(x3), Own(y));
    }

    /** The first operand is still there when the second one is done. */
    lemma SecondOperand(c: seq<Word>, o: set<nat>, e: ExpDesc, x: Exp, x3: Exp, lists: set<nat>)
      requires Stands(c, e, x) && Moved(c, o, code, Opened(), {}, Own(x3)) && lists == x.t + x.f <= o
      ensures Stands(code, e, x) && lists <= Opened() && lists !! Own(x3)
      ensures IsOperand(x) ==> Owns(x)
    {
      StandsFrame(c, code, e, x, o);
    }

    /** An expression whose value goes to the next free register. */
    method CompileToNextReg(x: Expr) returns (e: ExpDesc, ghost y: Exp)
      requires Valid()
      modifies `code, `pend, `jpc, `here, `k, `lasttarget, `freereg
      ensures Valid() && (Abs(), y) == LuaCode.CompileToNextReg(old(Abs()), x) && Stands(code, e, y)
      ensures Opened() == old(Opened()) && Keeps(old(code), code, old(Opened()))
    {
      ghost var c, o := code, Opened();
      ghost var z;
      hide LuaCode.Compile, LuaCode.Exp2NextReg, Moved, Valid, Stands, Owns, Own, AbsCode;
      e, z := Compile(x);
      ghost var d, p := code, Opened();
      e, y := Exp2NextReg(e, z);
      MovedTrans(c, o, d, p, code, Opened(), {}, Own(z), {});
      MovedIn(c, o, code, Opened(), {}, {});
    }
  }

  lemma PatchedEnd(c: seq<Word>, pend: set<nat>, done: set<nat>, v: int, reg: int, d: int, c1: seq<Word>)
    requires Patched(c, pend, done, v, reg, d, c1)
    ensures CodeOK(c1, pend - done) && AbsCode(c1, pend - done) == Patch(AbsCode(c, pend), done, v, reg, d)
    ensures forall p :: 0 <= p < |c| && c[p].JumpW? && p !in done ==> c1[p] == c[p]
  {}

  lemma ListStep(c: seq<Word>, h: int, s: seq<nat>, i: nat, l: set<nat>)
    requires Chain(c, h, s) && i < |s| && Elems(s) == l
    ensures s[i] in l && s[i] !in Elems(s[..i]) && Elems(s[..i + 1]) == Elems(s[..i]) + {s[i]}
  {
    SplitDistinct(c, h, s, i);
    assert s[i] in s;
    assert s[..i + 1] == s[..i] + [s[i]];
  }

  /** A jump comes up only once on its list. */
  lemma {:induction false} SplitDistinct(c: seq<Word>, h: int, s: seq<nat>, i: nat)
    requires Chain(c, h, s) && i < |s|
    ensures s[i] !in Elems(s[..i])
    decreases s
  {
    if i > 0 {
      SplitDistinct(c, Next(c[s[0]], s[0]), s[1..], i - 1);
      assert s[1..][..i - 1] == s[1..i];
      assert s[i] in s[1..];
      assert s[..i] == [s[0]] + s[1..i];
    }
  }

  /** Patching one jump leaves the rest of its list alone. */
  lemma PatchStepChain(c0: seq<Word>, pend: set<nat>, done: set<nat>, v: int, reg: int, d: int, c: seq<Word>, j: nat,
                       h: int, s: seq<nat>)
    requires CodeOK(c0, pend) && |c| == |c0| && j < |c| && c[j].JumpW? && Chain(c, h, s) && j !in s
    ensures Chain(PatchOneW(c, j, v, reg, d), h, s)
  {
    ChainIn(c, h, s);
    ChainFrame(c, PatchOneW(c, j, v, reg, d), h, s);
  }

  /** The TESTSETs before the jumps of `done` have lost their registers. */
  ghost predicate Removed(c: seq<Word>, done: set<nat>, d: seq<Word>) {
    && |d| == |c|
    && forall p :: 0 <= p < |c| ==>
         d[p] == if p + 1 in done && c[p].OpW? && c[p].i.TestSet? then OpW(Test(c[p].i.b, c[p].i.cond)) else c[p]
  }

  lemma RemovedStep(c: seq<Word>, done: set<nat>, d: seq<Word>, j: nat)
    requires Removed(c, done, d) && j < |c| && j !in done
    ensures Removed(c, done + {j}, PatchTestW(d, j, NO_REG)) && |PatchTestW(d, j, NO_REG)| == |c|
  {}

  lemma RemovedStart(c: seq<Word>)
    ensures Removed(c, {}, c)
  {}

  lemma RemoveChain(c: seq<Word>, j: nat, h: int, s: seq<nat>)
    requires j < |c| && Chain(c, h, s)
    ensures Chain(PatchTestW(c, j, NO_REG), h, s)
  {
    ChainIn(c, h, s);
    ChainFrame(c, PatchTestW(c, j, NO_REG), h, s);
  }

  lemma RemovedAbs(c: seq<Word>, pend: set<nat>, l: set<nat>, d: seq<Word>)
    requires CodeOK(c, pend) && Removed(c, l, d)
    ensures CodeOK(d, pend) && |d| == |c|
    ensures forall fs: FS :: fs.code == AbsCode(c, pend) ==> LuaCode.RemoveValues(fs, l) == fs.(code := AbsCode(d, pend))
    ensures forall p :: 0 <= p < |c| && !(c[p].OpW? && c[p].i.TestSet?) ==> d[p] == c[p]
    ensures forall p :: 0 <= p < |c| && c[p].OpW? ==> d[p].OpW?
    ensures forall p :: p in pend ==> p < |c| && c[p].JumpW?
  {
    forall fs: FS | fs.code == AbsCode(c, pend)
      ensures LuaCode.RemoveValues(fs, l) == fs.(code := AbsCode(d, pend))
    {
      assert LuaCode.RemoveValues(fs, l).code == AbsCode(d, pend);
    }
  }

  lemma ControlsKept(a: seq<Instr>, l: set<nat>, v: int, reg: int, d: int)
    requires forall j :: j in l ==> j < |a| && a[j].Jmp?
    ensures forall j: nat :: j < |a| && j !in l ==>
      TestSetControls(Patch(a, l, v, reg, d), j) == TestSetControls(a, j)
  {}

  /** A list whose jumps are not among those relinked. */
  lemma HoldsOutside(c: seq<Word>, d: seq<Word>, h: int, l: set<nat>, m: set<nat>)
    requires Holds(c, h, l) && |c| == |d| && l !! m && forall p: nat :: p < |d| && p !in m ==> d[p] == c[p]
    ensures Holds(d, h, l)
  {
    HoldsIn(c, h, l);
    HoldsFrame(c, d, h, l);
  }

  lemma Exp2RegForm(fs: FS, x: Exp, reg: nat)
    ensures var (fs1, x1) := LuaCode.Discharge2Reg(fs, x, reg);
      var t := if x1.k.VJmp? then x1.t + {x1.k.j} else x1.t;
      && LuaCode.Exp2Reg(fs, x, reg) ==
           (if t == x1.f then fs1 else LuaCode.FinishJumps(fs1, x1.k.VJmp?, t, x1.f, reg), Exp(VNonReloc(reg), {}, {}))
      && Own(x1) == Own(x)
  {
    hide LuaCode.FinishJumps, Emit, NilInto;
  }

  lemma StandsKind(c: seq<Word>, e: ExpDesc, x: Exp)
    requires Stands(c, e, x)
    ensures e.k == x.k
  {}

  lemma KeepsMore(c: seq<Word>, d: seq<Word>, e: seq<Word>, l: set<nat>, m: set<nat>)
    requires Keeps(c, d, l) && Keeps(d, e, m) && m <= l
    ensures Keeps(c, e, m)
  {}

  lemma MovedNone(c: seq<Word>, d: seq<Word>, e: seq<Word>, o: set<nat>, own: set<nat>, p: set<nat>)
    requires Keeps(c, d, o - own) && Keeps(d, e, o - own) && |c| <= |d| <= |e| && p == o - own
    requires forall j :: j in o ==> j < |c|
    ensures Moved(c, o, e, p, own, {})
  {}

  lemma NextRegForm(fs: FS, x: Exp)
    ensures var (fs1, x1) := LuaCode.DischargeVars(fs, x);
      var fs2 := LuaCode.FreeExp(fs1, x1);
      LuaCode.Exp2NextReg(fs, x) == LuaCode.Exp2Reg(Reserve(fs2, 1), x1, fs2.freereg) && Own(x1) == Own(x)
  {
    hide LuaCode.Exp2Reg, Emit;
  }

  lemma OwnNone(x: Exp)
    requires Own(x) == {}
    ensures x.t == {} == x.f
  {}

  lemma NoExits(x: Exp)
    requires x.t !! x.f
    ensures !HasJumps(x) <==> x.t == {} == x.f
    ensures !HasJumps(x) && x.k.VNonReloc? ==> Own(x) == {}
  {}

  lemma AnyRegForm(fs: FS, x: Exp)
    ensures var (fs1, x1) := LuaCode.DischargeVars(fs, x);
      LuaCode.Exp2AnyReg(fs, x) ==
        (if x1.k.VNonReloc? && !HasJumps(x1) then (fs1, x1)
         else if x1.k.VNonReloc? && x1.k.r >= fs1.nactvar then LuaCode.Exp2Reg(fs1, x1, x1.k.r)
         else LuaCode.Exp2NextReg(fs1, x1))
      && Own(x1) == Own(x)
  {
    hide LuaCode.Exp2Reg, LuaCode.Exp2NextReg, Emit;
  }

  lemma ValForm(fs: FS, x: Exp)
    ensures LuaCode.Exp2Val(fs, x) ==
      if HasJumps(x) then LuaCode.Exp2AnyReg(fs, x) else LuaCode.DischargeVars(fs, x)
    ensures var x1 := LuaCode.DischargeVars(fs, x).1; Own(x1) == Own(x) && x1.t == x.t && x1.f == x.f
  {
    hide LuaCode.Exp2AnyReg, Emit;
  }

  lemma JumpForm(fs: FS, x: Exp, cond: bool)
    ensures LuaCode.JumpOnCond(fs, x, cond) ==
      if x.k.VReloc? && x.k.pc < |fs.code| && fs.code[x.k.pc].NotR? then
        LuaCode.CondJump(fs.(code := fs.code[..|fs.code| - 1]), Test(fs.code[x.k.pc].b, !cond))
      else
        var (fs1, x1) := LuaCode.Discharge2AnyReg(fs, x);
        LuaCode.CondJump(LuaCode.FreeExp(fs1, x1), TestSet(NO_REG, if x1.k.VNonReloc? then x1.k.r else 0, cond))
    ensures !x.k.VJmp? ==> LuaCode.Discharge2AnyReg(fs, x).1.k.VNonReloc?
  {
    hide LuaCode.CondJump, Emit, NilInto;
  }

  ghost function TestOf(fs: FS, cond: bool, x: Exp): (FS, set<nat>) {
    if (if cond then Falsy(x.k) else Truthy(x.k)) then (fs, {})
    else if x.k.VJmp? then (if cond then fs else LuaCode.InvertJump(fs, x.k.j), {x.k.j})
    else LuaCode.JumpOnCond(fs, x, cond)
  }

  lemma GoForm(fs: FS, x: Exp)
    ensures var (fs1, x1) := LuaCode.DischargeVars(fs, x);
      && (var (fs2, l) := TestOf(fs1, false, x1);
          LuaCode.GoIfTrue(fs, x) == (LuaCode.PatchToHere(fs2, x1.t), Exp(x1.k, {}, x1.f + l)))
      && (var (fs2, l) := TestOf(fs1, true, x1);
          LuaCode.GoIfFalse(fs, x) == (LuaCode.PatchToHere(fs2, x1.f), Exp(x1.k, x1.t + l, {})))
  {
    hide LuaCode.JumpOnCond, LuaCode.InvertJump, LuaCode.PatchToHere, Emit;
  }

  lemma StandsLists(c: seq<Word>, e: ExpDesc, x: Exp, o: set<nat>)
    requires Stands(c, e, x) && x.t + x.f <= o
    ensures e.k == x.k && Holds(c, e.t, x.t) && Holds(c, e.f, x.f) && x.t <= o && x.f <= o
  {}

  lemma StandsMake(c: seq<Word>, e: ExpDesc, x: Exp)
    requires e.k == x.k && Holds(c, e.t, x.t) && Holds(c, e.f, x.f)
    ensures Stands(c, e, x)
  {}

  lemma GoMoved(c: seq<Word>, o: set<nat>, d: seq<Word>, d1: seq<Word>, o1: set<nat>, e: seq<Word>, p: set<nat>, x: Exp,
                own: set<nat>, a: set<nat>, b: set<nat>, l: set<nat>)
    requires Keeps(c, d, o) && |c| <= |d| <= |d1| == |e| && own == Own(x) <= o
    requires Keeps(d, d1, o) && o1 == o + l && Keeps(d1, e, o1 - a) && p == o1 - b
    requires (forall j :: j in l ==> j in own || j >= |d|) && forall j :: j in o ==> j < |c|
    requires (a == x.t && b == x.f) || (a == x.f && b == x.t)
    requires a !! b && l !! a && l !! b && (x.k.VJmp? ==> x.k.j in l)
    ensures Moved(c, o, e, p, own, a + l)
  {}

  ghost function NotOf(fs: FS, x: Exp): (FS, Kind) {
    if Falsy(x.k) then (fs, VTrue)
    else if Truthy(x.k) then (fs, VFalse)
    else if x.k.VJmp? then (LuaCode.InvertJump(fs, x.k.j), x.k)
    else
      var (fs1, x1) := LuaCode.Discharge2AnyReg(fs, x);
      var fs2 := LuaCode.FreeExp(fs1, x1);
      (Emit(fs2, NotR(0, if x1.k.VNonReloc? then x1.k.r else 0)), VReloc(|fs2.code|))
  }

  lemma NotForm(fs: FS, x: Exp)
    ensures var (fs1, x1) := LuaCode.DischargeVars(fs, x);
      var (fs2, k1) := NotOf(fs1, x1);
      && LuaCode.CodeNot(fs, x) ==
           (LuaCode.RemoveValues(LuaCode.RemoveValues(fs2, x1.t), x1.f), Exp(k1, x1.f, x1.t))
      && Discharged(x1.k)
  {
    hide LuaCode.Discharge2AnyReg, LuaCode.InvertJump, LuaCode.RemoveValues, Emit;
  }

  lemma NotKept(c: seq<Word>, d: seq<Word>, e: seq<Word>, pend: set<nat>, o: set<nat>, y: Exp)
    requires Keeps(c, d, pend) && Keeps(d, e, pend) && o <= pend && |c| == |d| == |e|
    ensures Keeps(c, e, o) && Keeps(c, e, pend)
  {}

  lemma NotMoved(c: seq<Word>, o: set<nat>, d: seq<Word>, d1: seq<Word>, e: seq<Word>, x: Exp, x2: Exp, x1: Exp)
    requires Keeps(c, d, o) && Keeps(d, d1, o) && Keeps(d1, e, o) && |c| <= |d| <= |d1| == |e|
    requires Own(x) == Own(x2) <= o && x1.t == x2.f && x1.f == x2.t && forall j :: j in o ==> j < |c|
    requires x1.k.VJmp? ==> x1.k == x2.k
    requires x2.k.VJmp? ==> x1.k == x2.k
    ensures Moved(c, o, e, o, Own(x), Own(x1))
  {
    assert Own(x1) == Own(x2);
    assert o - Own(x) + Own(x1) == o;
  }

  lemma Discharge2RegForm(fs: FS, x: Exp, reg: nat)
    ensures var (fs1, x1) := LuaCode.DischargeVars(fs, x);
      && Discharged(x1.k)
      && LuaCode.Discharge2Reg(fs, x, reg) ==
           (if x1.k.VJmp? then (fs1, x1)
            else (LuaCode.Discharge2Reg(fs1, x1, reg).0, x1.(k := VNonReloc(reg))))
      && Own(x1.(k := VNonReloc(reg))) == x1.t + x1.f
      && Own(x1) == x1.t + x1.f + (if x1.k.VJmp? then {x1.k.j} else {})
  {
    hide Emit, NilInto;
  }

  predicate IsOperand(x: Exp) { x.t == {} == x.f && (x.k.VNonReloc? || (x.k.VK? && x.k.info <= MAXINDEXRK)) }

  lemma AgainForm(fs: FS, x: Exp)
    requires IsOperand(x)
    ensures LuaCode.Exp2RK(fs, x) == (fs, x) && Own(x) == {}
  {}

  lemma OwnsAbs(c: seq<Word>, q: set<nat>, d: seq<Word>, r: set<nat>, o: set<nat>, x: Exp)
    requires CodeOK(c, q) && CodeOK(d, r) && AbsCode(c, q) == AbsCode(d, r) && Keeps(c, d, o) && OwnsIn(c, o, x)
    ensures OwnsIn(d, o, x)
  {
    assert |AbsCode(c, q)| == |AbsCode(d, r)|;
    forall p | 0 <= p < |c| && c[p].OpW? ensures d[p] == c[p] {
      assert AbsCode(c, q)[p] == AbsCode(d, r)[p];
    }
    if x.k.VJmp? { HoldsKeeps(c, d, x.k.j, {x.k.j}, o); }
  }

  lemma KeepsMoved(c: seq<Word>, c1: seq<Word>, d: seq<Word>, o: set<nat>, p: set<nat>, own: set<nat>)
    requires Keeps(c, c1, o) && |c| == |c1| && Moved(c1, o, d, p, own, {})
    ensures Moved(c, o, d, p, own, {})
  {}

  lemma CompMoved(c: seq<Word>, d: seq<Word>, e: seq<Word>, o: set<nat>, p: set<nat>, q: set<nat>, own: set<nat>, j: nat)
    requires Moved(c, o, d, p, own, {}) && Keeps(d, e, p) && q == p + {j} && j == |d| + 1 < |e|
    ensures Moved(c, o, e, q, own, {j})
  {}

  /** How luaK_posfix codes a comparison. */
  function CompOp(op: BinOp): (CmpOp, bool)
    requires op != And && op != Or
  {
    match op
    case Eq => (CmpOp.EQ, true)
    case Ne => (CmpOp.EQ, false)
    case Lt => (CmpOp.LT, true)
    case Le => (CmpOp.LE, true)
    case Gt => (CmpOp.LT, false)
    case Ge => (CmpOp.LE, false)
  }

  lemma PosfixForm(fs: FS, op: BinOp, x1: Exp, x2: Exp)
    ensures op != And && op != Or ==>
      LuaCode.Posfix(fs, op, x1, x2) == LuaCode.CodeComp(fs, CompOp(op).0, CompOp(op).1, x1, x2)
  {
    hide LuaCode.CodeComp, Emit;
  }

  lemma JoinForm(fs: FS, op: BinOp, x1: Exp, x2: Exp)
    requires op == And || op == Or
    ensures var (fs1, y) := LuaCode.DischargeVars(fs, x2);
      LuaCode.Posfix(fs, op, x1, x2) ==
        (fs1, if op == And then y.(f := y.f + x1.f) else y.(t := y.t + x1.t))
  {
    hide Emit;
  }

  lemma NoShorter(fs: FS, x: Exp)
    ensures |LuaCode.DischargeVars(fs, x).0.code| >= |fs.code|
  {
  }

  lemma JoinMoved(c: seq<Word>, c1: seq<Word>, d: seq<Word>, o: set<nat>, own: set<nat>, lists: set<nat>, y: Exp, x: Exp)
    requires Keeps(c, c1, o) && |c| <= |c1| == |d| && own <= o && lists <= o && forall j :: j in o ==> j < |c|
    requires Own(y) == own && Own(x) == own + lists && y.t + y.f <= own
    requires forall p: nat :: p < |d| && p !in y.t && p !in y.f ==> d[p] == c1[p]
    ensures Moved(c, o, d, o, own + lists, Own(x))
  {}

  lemma InAnyReg(fs: FS, x: Exp)
    requires x.t !! x.f
    ensures var x1 := LuaCode.Exp2AnyReg(fs, x).1; x1.k.VNonReloc? && x1.t == {} == x1.f
  {
    hide LuaCode.Discharge2Reg, LuaCode.FinishJumps, Emit;
  }

  lemma RKForm(fs: FS, x: Exp)
    requires x.t !! x.f
    ensures IsOperand(LuaCode.Exp2RK(fs, x).1)
  {
    hide LuaCode.Exp2AnyReg, Emit, AddK;
    InAnyReg(fs, x);
    var (fs1, x1) := LuaCode.Exp2Val(fs, x);
    assert x1.t == {} == x1.f;
    InAnyReg(fs1, x1);
    if IsConst(x1.k) && |fs1.k| <= MAXINDEXRK { Use.AddKIndex(fs1, ConstValue(x1.k)); }
  }

  lemma MovedIn(c: seq<Word>, o: set<nat>, d: seq<Word>, p: set<nat>, a: set<nat>, b: set<nat>)
    requires Moved(c, o, d, p, a, b)
    ensures b <= p && (a == {} == b ==> p == o && Keeps(c, d, o))
  {}

  lemma BinMoved(c: seq<Word>, o: set<nat>, c2: seq<Word>, o2: set<nat>, c3: seq<Word>, o3: set<nat>, d: seq<Word>,
                 p: set<nat>, lists: set<nat>, own: set<nat>, own4: set<nat>)
    requires Moved(c, o, c2, o2, {}, lists) && Moved(c2, o2, c3, o3, {}, own)
    requires Moved(c3, o3, d, p, own + lists, own4)
    ensures Moved(c, o, d, p, {}, own4)
  {}

  /** How the simple forms of an expression compile. */
  lemma CompileForm(fs: FS, x: Expr)
    ensures match x
      case ENil => LuaCode.Compile(fs, x) == (fs, Exp(VNil, {}, {}))
      case ETrue => LuaCode.Compile(fs, x) == (fs, Exp(VTrue, {}, {}))
      case EFalse => LuaCode.Compile(fs, x) == (fs, Exp(VFalse, {}, {}))
      case EStr(s) => var (fs1, i) := AddK(fs, Str(s)); LuaCode.Compile(fs, x) == (fs1, Exp(VK(i), {}, {}))
      case ENum(n) => LuaCode.Compile(fs, x) == (fs, Exp(VKNum(n), {}, {}))
      case ELocal(r) => LuaCode.Compile(fs, x) == (fs, Exp(VLocal(r), {}, {}))
      case EUpval(u) => LuaCode.Compile(fs, x) == (fs, Exp(VUpval(u), {}, {}))
      case EParen(e) =>
        LuaCode.Compile(fs, x) == LuaCode.DischargeVars(LuaCode.Compile(fs, e).0, LuaCode.Compile(fs, e).1)
      case ENot(e) =>
        LuaCode.Compile(fs, x) == LuaCode.CodeNot(LuaCode.Compile(fs, e).0, LuaCode.Compile(fs, e).1)
      case EBin(_, _, _) => true
  {
    hide LuaCode.DischargeVars, LuaCode.CodeNot, LuaCode.Infix, LuaCode.Posfix;
  }

  lemma FinishCase(a: FS, isjmp: bool, t: set<nat>, f: set<nat>, reg: nat)
    ensures !(NeedValue(a, t) || NeedValue(a, f)) ==>
      LuaCode.FinishJumps(a, isjmp, t, f, reg) ==
      LuaCode.PatchBoth(LuaCode.GetLabel(a), t, f, reg, NO_JUMP, NO_JUMP)
    ensures NeedValue(a, t) || NeedValue(a, f) ==>
      var (fs1, fj) := if isjmp then (a, {}) else LuaCode.Jump(a);
      var fs2 := LuaCode.CodeLabel(LuaCode.CodeLabel(fs1, reg, false, true), reg, true, false);
      LuaCode.FinishJumps(a, isjmp, t, f, reg) ==
        LuaCode.PatchBoth(LuaCode.GetLabel(LuaCode.PatchToHere(fs2, fj)), t, f, reg, |fs1.code|, |fs1.code| + 1)
  {
    hide LuaCode.CodeLabel, LuaCode.PatchBoth, NeedValue;
  }
}
