/** exp2reg: whichever way the code of an expression leaves, its value ends in
    one register. */
module LuaCodeReg {
  import opened Options
  import opened LuaVM
  import opened LuaCode
  import opened LuaCodeExec
  import opened LuaCodeShape
  import opened LuaCodeDen

  // ---------------------------------------------------------------------
  // The code that exp2reg leaves behind

  function Goals(c: seq<Instr>, l: set<nat>, v: nat, reg: nat, d: nat): map<nat, Goal> {
    map j | j in l :: Goal(if TestSetControls(c, j) then v else d, reg)
  }

  predicate Need(fs: FS, t: set<nat>, f: set<nat>) { NeedValue(fs, t) || NeedValue(fs, f) }

  function Tail(isjmp: bool, need: bool, n: nat, reg: nat): seq<Instr> {
    if !need then []
    else if isjmp then [LoadBool(reg, false, true), LoadBool(reg, true, false)]
    else [Jmp(n + 3), LoadBool(reg, false, true), LoadBool(reg, true, false)]
  }

  /** Where the loads of false and of true come to stand. */
  function LoadsAt(isjmp: bool, need: bool, n: nat): nat { if !need then n else if isjmp then n else n + 1 }

  /** Where the exits of the expression and the jumps to its end go. */
  function FinishGoals(fs: FS, isjmp: bool, t: set<nat>, f: set<nat>, reg: nat): map<nat, Goal> {
    var need := Need(fs, t, f);
    var n := |fs.code| + |Tail(isjmp, need, |fs.code|, reg)|;
    var pf := LoadsAt(isjmp, need, |fs.code|);
    Here(fs.jpc, n) + Goals(fs.code, f, n, reg, pf) + Goals(fs.code, t, n, reg, pf + 1)
  }

  /** The preconditions under which exp2reg meets the two lists. */
  ghost predicate TwoLists(fs: FS, isjmp: bool, t: set<nat>, f: set<nat>) {
    && WF(fs) && t <= Open(fs) && f <= Open(fs) && t !! f
    && (isjmp ==> fs.jpc == {} && NeedValue(fs, t))
  }

  /** The code of FinishJumps before its lists are patched. */
  function Raw(fs: FS, isjmp: bool, need: bool, reg: nat): seq<Instr> {
    if !need then fs.code
    else if isjmp then fs.code + [LoadBool(reg, false, true), LoadBool(reg, true, false)]
    else fs.code + [Jmp(NO_JUMP), LoadBool(reg, false, true), LoadBool(reg, true, false)]
  }

  function RawJpc(fs: FS, isjmp: bool, need: bool): set<nat> {
    if !need then fs.jpc else if isjmp then {} else {|fs.code|} + fs.jpc
  }

  /** FinishJumps in one step. */
  lemma FinishForm(fs: FS, isjmp: bool, t: set<nat>, f: set<nat>, reg: nat)
    requires isjmp ==> fs.jpc == {}
    ensures var need := Need(fs, t, f);
      var c := Raw(fs, isjmp, need, reg);
      var pf := if need then LoadsAt(isjmp, need, |fs.code|) else NO_JUMP;
      var pt := if need then pf + 1 else NO_JUMP;
      FinishJumps(fs, isjmp, t, f, reg) ==
        fs.(code := Patch(Patch(c, f, |c|, reg, pf), t, |c|, reg, pt), jpc := RawJpc(fs, isjmp, need), lasttarget := |c|)
  {
    if Need(fs, t, f) {
      var (fs1, fj) := if isjmp then (fs, {}) else Jump(fs);
      RCodeClean(GetLabel(fs1));
      var fs2 := CodeLabel(fs1, reg, false, true);
      RCodeClean(GetLabel(fs2));
      assert CodeLabel(fs2, reg, true, false).code == Raw(fs, isjmp, true, reg);
    }
  }

  lemma TwoPatches(c: seq<Instr>, t: set<nat>, f: set<nat>, h: set<nat>, n: nat, reg: nat, pf: int, pt: int,
                   df: nat, dt: nat, i: nat)
    requires i < |c| <= n && t <= Pending(c) && f <= Pending(c) && h <= Pending(c) && t !! f && t !! h && f !! h
    requires (forall j :: j in f && !TestSetControls(c, j) ==> pf == df)
    requires (forall j :: j in t && !TestSetControls(c, j) ==> pt == dt)
    ensures Patch(Patch(Patch(c, f, n, reg, pf), t, n, reg, pt), h, n, NO_REG, n)[i] ==
            RedirectInstr(c, Here(h, n) + Goals(c, f, n, reg, df) + Goals(c, t, n, reg, dt), i)
  {
    var c1 := Patch(c, f, n, reg, pf);
    var c2 := Patch(c1, t, n, reg, pt);
    assert c1[i] == PatchInstr(c, f, n, reg, pf, i);
    assert c2[i] == PatchInstr(c1, t, n, reg, pt, i);
    if i >= 1 {
      assert c1[i - 1] == PatchInstr(c, f, n, reg, pf, i - 1);
      assert c2[i - 1] == PatchInstr(c1, t, n, reg, pt, i - 1);
    }
  }

  /** The goals as TwoPatches has them, with the extended code. */
  function RawGoals(fs: FS, isjmp: bool, t: set<nat>, f: set<nat>, reg: nat): map<nat, Goal> {
    var need := Need(fs, t, f);
    var c, h := Raw(fs, isjmp, need, reg), RawJpc(fs, isjmp, need);
    var pf := LoadsAt(isjmp, need, |fs.code|);
    Here(h, |c|) + Goals(c, f, |c|, reg, pf) + Goals(c, t, |c|, reg, pf + 1)
  }

  lemma RawFacts(fs: FS, isjmp: bool, t: set<nat>, f: set<nat>, reg: nat)
    requires TwoLists(fs, isjmp, t, f)
    ensures var need, n := Need(fs, t, f), |fs.code|;
      var c, h := Raw(fs, isjmp, need, reg), RawJpc(fs, isjmp, need);
      && |c| == n + |Tail(isjmp, need, n, reg)|
      && (forall j :: j in t || j in f || j in fs.jpc ==> j < n)
      && (forall j :: j in t || j in f ==> TestSetControls(c, j) == TestSetControls(fs.code, j))
      && h == (if need && !isjmp then {n} + fs.jpc else fs.jpc)
  {
    hide Need, TestSetControls;
    var need := Need(fs, t, f);
    var c := Raw(fs, isjmp, need, reg);
    forall j | j in t || j in f ensures TestSetControls(c, j) == TestSetControls(fs.code, j) {
      ControlFrame(fs.code, c, j);
    }
  }

  lemma ControlFrame(c: seq<Instr>, d: seq<Instr>, j: nat)
    requires j < |c| <= |d| && forall i :: 0 <= i < |c| ==> c[i] == d[i]
    ensures TestSetControls(d, j) == TestSetControls(c, j)
  {}

  lemma FinishRaw(fs: FS, isjmp: bool, t: set<nat>, f: set<nat>, reg: nat, i: nat)
    requires TwoLists(fs, isjmp, t, f) && i < |Raw(fs, isjmp, Need(fs, t, f), reg)|
    ensures |FinishJumps(fs, isjmp, t, f, reg).code| == |Raw(fs, isjmp, Need(fs, t, f), reg)|
    ensures RCode(FinishJumps(fs, isjmp, t, f, reg))[i] ==
            RedirectInstr(Raw(fs, isjmp, Need(fs, t, f), reg), RawGoals(fs, isjmp, t, f, reg), i)
  {
    hide RedirectInstr, FinishJumps, Patch, TestSetControls, Tests, Goals, Here;
    FinishForm(fs, isjmp, t, f, reg);
    RawFacts(fs, isjmp, t, f, reg);
    NeedFacts(fs, t, f);
    var need, n := Need(fs, t, f), |fs.code|;
    var c, h := Raw(fs, isjmp, need, reg), RawJpc(fs, isjmp, need);
    var pf := if need then LoadsAt(isjmp, need, n) else NO_JUMP;
    var pt := if need then pf + 1 else NO_JUMP;
    assert Pending(fs.code) <= Pending(c);
    assert h <= Pending(c);
    var d := LoadsAt(isjmp, need, n);
    hide Need, Raw, WF;
    TwoPatches(c, t, f, h, |c|, reg, pf, pt, d, d + 1, i);
  }

  lemma GoalsSame(c: seq<Instr>, d: seq<Instr>, l: set<nat>, v: nat, reg: nat, x: nat)
    requires forall j :: j in l ==> TestSetControls(c, j) == TestSetControls(d, j)
    ensures Goals(c, l, v, reg, x) == Goals(d, l, v, reg, x)
  {}

  lemma GoalsKeys(c: seq<Instr>, l: set<nat>, v: nat, reg: nat, x: nat)
    ensures Goals(c, l, v, reg, x).Keys == l
  {}

  lemma HereSame(l: set<nat>, n: nat, v: nat)
    ensures Here({n} + l, v) == Here(l, v)[n := Goal(v, NO_REG)]
  {}

  lemma UpdateFirst<T, U>(a: map<T, U>, b: map<T, U>, c: map<T, U>, n: T, g: U)
    requires n !in b && n !in c
    ensures a[n := g] + b + c == (a + b + c)[n := g]
  {}

  lemma RawGoalsForm(fs: FS, isjmp: bool, t: set<nat>, f: set<nat>, reg: nat)
    requires TwoLists(fs, isjmp, t, f)
    ensures var need, n := Need(fs, t, f), |fs.code|;
      var v, m := |Raw(fs, isjmp, need, reg)|, FinishGoals(fs, isjmp, t, f, reg);
      && v == n + |Tail(isjmp, need, n, reg)|
      && RawGoals(fs, isjmp, t, f, reg) == (if need && !isjmp then m[n := Goal(v, NO_REG)] else m)
      && forall j :: j in m ==> j < n
  {
    hide Need, TestSetControls, TwoLists, Goals, Raw, RawJpc;
    RawFacts(fs, isjmp, t, f, reg);
    var need, n := Need(fs, t, f), |fs.code|;
    var c, h := Raw(fs, isjmp, need, reg), RawJpc(fs, isjmp, need);
    var d, v := LoadsAt(isjmp, need, n), |c|;
    var m, m1 := FinishGoals(fs, isjmp, t, f, reg), RawGoals(fs, isjmp, t, f, reg);
    var g, g1 := Goals(c, f, v, reg, d), Goals(c, t, v, reg, d + 1);
    assert m1 == Here(h, v) + g + g1;
    assert m == Here(fs.jpc, v) + Goals(fs.code, f, v, reg, d) + Goals(fs.code, t, v, reg, d + 1);
    assert Here(fs.jpc, v).Keys == fs.jpc;
    hide *;
    GoalsSame(fs.code, c, f, v, reg, d);
    GoalsSame(fs.code, c, t, v, reg, d + 1);
    GoalsKeys(c, f, v, reg, d);
    GoalsKeys(c, t, v, reg, d + 1);
    HereSame(fs.jpc, n, v);
    UpdateFirst(Here(fs.jpc, v), g, g1, n, Goal(v, NO_REG));
  }

  lemma RedirectPrefix(c: seq<Instr>, d: seq<Instr>, m: map<nat, Goal>, g: Goal, i: nat)
    requires i < |c| <= |d| && (forall j :: j in m ==> j < |c|) && !IsTest(c[|c| - 1])
    requires forall k :: 0 <= k < |c| ==> d[k] == c[k]
    ensures RedirectInstr(d, m, i) == RedirectInstr(d, m[|c| := g], i) == RedirectInstr(c, m, i)
  {}

  lemma RedirectTail(fs: FS, isjmp: bool, need: bool, reg: nat, m: map<nat, Goal>, g: Goal, i: nat)
    requires |fs.code| <= i < |Raw(fs, isjmp, need, reg)| && (forall j :: j in m ==> j < |fs.code|)
    requires g.target == |fs.code| + 3
    ensures RedirectInstr(Raw(fs, isjmp, need, reg), if need && !isjmp then m[|fs.code| := g] else m, i) ==
            Tail(isjmp, need, |fs.code|, reg)[i - |fs.code|]
  {}

  lemma RawRedirect(fs: FS, isjmp: bool, t: set<nat>, f: set<nat>, reg: nat, i: nat)
    requires TwoLists(fs, isjmp, t, f) && i < |Raw(fs, isjmp, Need(fs, t, f), reg)|
    ensures var c, m := Raw(fs, isjmp, Need(fs, t, f), reg), RawGoals(fs, isjmp, t, f, reg);
      RedirectInstr(c, m, i) ==
        if i < |fs.code| then RedirectInstr(fs.code, FinishGoals(fs, isjmp, t, f, reg), i)
        else Tail(isjmp, Need(fs, t, f), |fs.code|, reg)[i - |fs.code|]
  {
    hide Need, FinishGoals, RawGoals, Pending, RedirectInstr;
    RawGoalsForm(fs, isjmp, t, f, reg);
    var need, n := Need(fs, t, f), |fs.code|;
    var c, m := Raw(fs, isjmp, need, reg), FinishGoals(fs, isjmp, t, f, reg);
    LastNoTest(fs.code);
    if i < n {
      RedirectPrefix(fs.code, c, m, Goal(|c|, NO_REG), i);
    } else {
      RedirectTail(fs, isjmp, need, reg, m, Goal(n + 3, NO_REG), i);
    }
  }

  /** What the finished code runs. */
  lemma FinishCode(fs: FS, isjmp: bool, t: set<nat>, f: set<nat>, reg: nat)
    requires TwoLists(fs, isjmp, t, f)
    ensures var fs1, need := FinishJumps(fs, isjmp, t, f, reg), Need(fs, t, f);
      && |fs1.code| == |fs.code| + |Tail(isjmp, need, |fs.code|, reg)|
      && (forall i :: 0 <= i < |fs.code| ==>
           RCode(fs1)[i] == RedirectInstr(fs.code, FinishGoals(fs, isjmp, t, f, reg), i))
      && RCode(fs1)[|fs.code|..] == Tail(isjmp, need, |fs.code|, reg)
  {
    var fs1, need, n := FinishJumps(fs, isjmp, t, f, reg), Need(fs, t, f), |fs.code|;
    var c := Raw(fs, isjmp, need, reg);
    assert |fs1.code| == |c| by { FinishForm(fs, isjmp, t, f, reg); }
    assert |c| == n + |Tail(isjmp, need, n, reg)|;
    hide *;
    forall i | 0 <= i < |c|
      ensures RCode(fs1)[i] ==
        if i < |fs.code| then RedirectInstr(fs.code, FinishGoals(fs, isjmp, t, f, reg), i)
        else Tail(isjmp, need, n, reg)[i - n]
    {
      FinishRaw(fs, isjmp, t, f, reg, i);
      RawRedirect(fs, isjmp, t, f, reg, i);
    }
  }

  /** Patching the jumps of `l` closes them, and changes only their tests. */
  lemma PatchShape(c: seq<Instr>, l: set<nat>, v: nat, reg: int, d: int)
    requires Tests(c) && l <= Pending(c) && Outside(c, v)
    requires forall j :: j in l && !TestSetControls(c, j) ==> d >= 0 && Outside(c, d)
    ensures var e := Patch(c, l, v, reg, d);
      && Pending(e) == Pending(c) - l && Tests(e)
      && (forall i :: 0 <= i < |c| ==> IsTest(e[i]) == IsTest(c[i]) && e[i].LoadBool? == c[i].LoadBool?)
      && (forall i :: 0 <= i < |c| && i !in l && i + 1 !in l ==> e[i] == c[i])
      && (forall i :: 0 <= i < |c| && e[i].LoadBool? ==> e[i] == c[i])
      && (forall i :: 0 <= i < |c| && i in l ==> e[i] == Jmp(if TestSetControls(c, i) then v else d))
      && (forall i :: 0 <= i < |c| && i !in l && c[i].Jmp? ==> e[i] == c[i])
  {
    var e := Patch(c, l, v, reg, d);
    assert forall i :: 0 <= i < |c| ==> e[i] == PatchInstr(c, l, v, reg, d, i);
    hide Patch;
    assert forall i :: 0 <= i < |c| ==> IsTest(e[i]) == IsTest(c[i]);
    assert forall i :: Outside(c, i) ==> Outside(e, i);
  }

  /** The same for jumps to the end, or into the loads that end the code. */
  lemma FinishPatch(c: seq<Instr>, l: set<nat>, reg: int, d: int)
    requires Tests(c) && l <= Pending(c)
    requires forall j :: j in l && !TestSetControls(c, j) ==> 0 <= d <= |c| && Outside(c, d)
    requires forall i :: 0 <= i < |c| && c[i].Jmp? ==> c[i].target <= |c|
    requires forall i :: 0 <= i < |c| && c[i].LoadBool? && c[i].skip ==> i + 2 <= |c|
    ensures var e := Patch(c, l, |c|, reg, d);
      && Pending(e) == Pending(c) - l && Tests(e)
      && (forall i :: 0 <= i < |e| && e[i].Jmp? ==> e[i].target <= |e|)
      && (forall i :: 0 <= i < |e| && e[i].LoadBool? && e[i].skip ==> i + 2 <= |e|)
      && (forall i :: 0 <= i < |c| ==> IsTest(e[i]) == IsTest(c[i]))
      && (forall i :: 0 <= i < |c| && i !in l && i + 1 !in l ==> e[i] == c[i])
      && (forall j: nat :: j !in l ==> TestSetControls(e, j) == TestSetControls(c, j))
      && (forall k: int :: Outside(c, k) ==> Outside(e, k))
  {
    hide Patch, Tests;
    assert Outside(c, |c|) by { LastNoTest(c); }
    PatchShape(c, l, |c|, reg, d);
    forall j: nat | j !in l ensures TestSetControls(Patch(c, l, |c|, reg, d), j) == TestSetControls(c, j) {}
  }

  lemma LastNoTest(c: seq<Instr>)
    requires Tests(c)
    ensures Outside(c, |c|)
  {}

  lemma RawTests(c: seq<Instr>, d: seq<Instr>)
    requires Tests(c) && |c| <= |d| && (forall k :: 0 <= k < |c| ==> d[k] == c[k])
    requires forall k :: |c| <= k < |d| ==> !IsTest(d[k])
    requires forall k :: |c| <= k < |d| && d[k].Jmp? ==> d[k].target == NO_JUMP
    requires forall k :: 0 <= k < |c| && c[k].Jmp? ==> c[k].target <= |c|
    requires forall k :: 0 <= k < |c| && c[k].LoadBool? && c[k].skip ==> k + 2 <= |c|
    ensures Tests(d) && forall k: int :: |c| <= k <= |d| ==> Outside(d, k)
  {
    LastNoTest(c);
    forall k: int | Outside(c, k) && k <= |c| ensures Outside(d, k) {}
  }

  lemma RawShape(fs: FS, isjmp: bool, need: bool, reg: nat)
    requires WF(fs)
    ensures var c := Raw(fs, isjmp, need, reg);
      && Tests(c) && Pending(c) == Pending(fs.code) + (if need && !isjmp then {|fs.code|} else {})
      && (forall i :: 0 <= i < |c| && c[i].Jmp? ==> c[i].target <= |c|)
      && (forall i :: 0 <= i < |c| && c[i].LoadBool? && c[i].skip ==> i + 2 <= |c|)
      && (need ==> Outside(c, LoadsAt(isjmp, need, |fs.code|)) && Outside(c, LoadsAt(isjmp, need, |fs.code|) + 1))
  {
    var c := Raw(fs, isjmp, need, reg);
    hide Tests, Outside;
    RawTests(fs.code, c);
  }

  lemma FinishBoth(c: seq<Instr>, t: set<nat>, f: set<nat>, reg: int, pf: int, pt: int)
    requires Tests(c) && t <= Pending(c) && f <= Pending(c) && t !! f
    requires forall j :: j in f && !TestSetControls(c, j) ==> 0 <= pf <= |c| && Outside(c, pf)
    requires forall j :: j in t && !TestSetControls(c, j) ==> 0 <= pt <= |c| && Outside(c, pt)
    requires forall i :: 0 <= i < |c| && c[i].Jmp? ==> c[i].target <= |c|
    requires forall i :: 0 <= i < |c| && c[i].LoadBool? && c[i].skip ==> i + 2 <= |c|
    ensures var e := Patch(Patch(c, f, |c|, reg, pf), t, |c|, reg, pt);
      && Pending(e) == Pending(c) - f - t && Tests(e)
      && (forall i :: 0 <= i < |e| && e[i].Jmp? ==> e[i].target <= |e|)
      && (forall i :: 0 <= i < |e| && e[i].LoadBool? && e[i].skip ==> i + 2 <= |e|)
      && (forall i :: 0 <= i < |c| ==> IsTest(e[i]) == IsTest(c[i]))
      && (forall i :: 0 <= i < |c| && i !in t + f && i + 1 !in t + f ==> e[i] == c[i])
  {
    hide *;
    FinishPatch(c, f, reg, pf);
    FinishPatch(Patch(c, f, |c|, reg, pf), t, reg, pt);
  }

  lemma RawLists(fs: FS, isjmp: bool, t: set<nat>, f: set<nat>, reg: nat)
    requires TwoLists(fs, isjmp, t, f)
    ensures WF(fs) && t !! f && (isjmp ==> fs.jpc == {})
    ensures var c, need := Raw(fs, isjmp, Need(fs, t, f), reg), Need(fs, t, f);
      && (forall j :: (j in t || j in f) && !TestSetControls(c, j) ==> need)
      && (need ==> 0 <= LoadsAt(isjmp, need, |fs.code|) && LoadsAt(isjmp, need, |fs.code|) + 1 <= |c|)
    ensures var c := Raw(fs, isjmp, Need(fs, t, f), reg);
      && t <= Pending(c) && f <= Pending(c)
      && |c| >= |fs.code| && forall i :: 0 <= i < |fs.code| ==> c[i] == fs.code[i]
  {
    hide NeedValue, Need, Tests;
    RawShape(fs, isjmp, Need(fs, t, f), reg);
    RawFacts(fs, isjmp, t, f, reg);
    NeedFacts(fs, t, f);
  }

  lemma FinishShape(fs: FS, isjmp: bool, t: set<nat>, f: set<nat>, reg: nat)
    requires TwoLists(fs, isjmp, t, f)
    ensures var fs1, n := FinishJumps(fs, isjmp, t, f, reg), |fs.code|;
      && fs1 == fs.(code := fs1.code, jpc := fs1.jpc, lasttarget := |fs1.code|)
      && |fs1.code| >= n && Tests(fs1.code)
      && fs1.jpc == RawJpc(fs, isjmp, Need(fs, t, f))
      && Pending(fs1.code) == Pending(fs.code) + (fs1.jpc - fs.jpc) - f - t
      && (forall i :: 0 <= i < |fs1.code| && fs1.code[i].Jmp? ==> fs1.code[i].target <= |fs1.code|)
      && (forall i :: 0 <= i < |fs1.code| && fs1.code[i].LoadBool? && fs1.code[i].skip ==> i + 2 <= |fs1.code|)
      && (forall i :: 0 <= i < n ==> IsTest(fs1.code[i]) == IsTest(fs.code[i]))
      && (forall i :: 0 <= i < n && i !in t + f && i + 1 !in t + f ==> fs1.code[i] == fs.code[i])
  {
    hide *;
    RawLists(fs, isjmp, t, f, reg);
    FinishForm(fs, isjmp, t, f, reg);
    var need, n := Need(fs, t, f), |fs.code|;
    var c, h := Raw(fs, isjmp, need, reg), RawJpc(fs, isjmp, need);
    var pf := if need then LoadsAt(isjmp, need, n) else NO_JUMP;
    var pt := if need then pf + 1 else NO_JUMP;
    RawShape(fs, isjmp, need, reg);
    RawFacts(fs, isjmp, t, f, reg);
    NeedFacts(fs, t, f);
    FinishBoth(c, t, f, reg, pf, pt);
  }

  lemma NeedFacts(fs: FS, t: set<nat>, f: set<nat>)
    ensures forall j :: j in t || j in f ==> TestSetControls(fs.code, j) || Need(fs, t, f)
  {}

  /** FinishJumps closes both lists and leaves everything else alone. */
  lemma FinishGrown(fs0: FS, fs: FS, isjmp: bool, t: set<nat>, f: set<nat>, reg: nat)
    requires WF(fs0) && Grown(fs0, fs, t + f) && t !! f && (isjmp ==> fs.jpc == {} && NeedValue(fs, t))
    ensures var fs1 := FinishJumps(fs, isjmp, t, f, reg);
      && Grown(fs0, fs1, {}) && fs1.freereg == fs.freereg && fs1.k == fs.k
  {
    FinishShape(fs, isjmp, t, f, reg);
    var fs1 := FinishJumps(fs, isjmp, t, f, reg);
    hide FinishJumps, Tests;
  }

  // ---------------------------------------------------------------------
  // What the finished code does

  lemma FinishRedirects(fs: FS, isjmp: bool, t: set<nat>, f: set<nat>, reg: nat)
    requires TwoLists(fs, isjmp, t, f)
    ensures var e := RCode(FinishJumps(fs, isjmp, t, f, reg));
      Redirects(fs.code, FinishGoals(fs, isjmp, t, f, reg), e, |e|)
  {
    FinishCode(fs, isjmp, t, f, reg);
    FinishGoalsFit(fs, isjmp, t, f, reg);
    hide FinishGoals, FinishJumps, RedirectInstr, Tests, RCode;
  }

  lemma FinishGoalsFit(fs: FS, isjmp: bool, t: set<nat>, f: set<nat>, reg: nat)
    requires TwoLists(fs, isjmp, t, f)
    ensures var m, n := FinishGoals(fs, isjmp, t, f, reg), |fs.code|;
      var v := n + |Tail(isjmp, Need(fs, t, f), n, reg)|;
      m.Keys == fs.jpc + t + f && forall j :: j in m ==> n <= m[j].target <= v && m[j].reg >= NO_REG
  {
    hide NeedValue, TestSetControls, Pending, WF;
    NeedFacts(fs, t, f);
  }

  /** The loads that FinishJumps adds. */
  lemma TailRun(ctx: Ctx, e: seq<Instr>, isjmp: bool, need: bool, n: nat, reg: nat, s: Regs)
    requires n <= |e| && e[n..] == Tail(isjmp, need, n, reg) && (isjmp ==> need)
    ensures Exec(ctx, e, n, |e|, s) == Fall(if isjmp then s[reg := Bool(false)] else s)
    ensures need ==> Exec(ctx, e, LoadsAt(isjmp, need, n), |e|, s) == Fall(s[reg := Bool(false)])
    ensures need ==> Exec(ctx, e, LoadsAt(isjmp, need, n) + 1, |e|, s) == Fall(s[reg := Bool(true)])
  {
    assert forall i :: n <= i < |e| ==> e[i] == e[n..][i - n];
    if need {
      var k := LoadsAt(isjmp, need, n);
      assert |e| == k + 2 && e[k] == LoadBool(reg, false, true) && e[k + 1] == LoadBool(reg, true, false);
      var s1 := s[reg := Bool(true)];
      assert Exec(ctx, e, k + 2, |e|, s1) == Fall(s1);
      if !isjmp {
        assert e[n] == Jmp(|e|);
        assert Exec(ctx, e, |e|, |e|, s) == Fall(s);
      }
    }
  }

  /** The registers at the end of the finished code, for a run of the
      unfinished code that left through an exit. */
  function Landed(fs: FS, t: set<nat>, reg: nat, j: nat, s: Regs): Regs {
    if TestSetControls(fs.code, j) then Land(fs.code, j, reg, s) else s[reg := Bool(j in t)]
  }

  lemma FinishRun(ctx: Ctx, fs: FS, isjmp: bool, t: set<nat>, f: set<nat>, reg: nat, p: nat, r: Regs)
    requires TwoLists(fs, isjmp, t, f) && p <= |fs.code| && Outside(fs.code, p) && Full(ctx, fs, p, r) != Stuck
    ensures var o, d := Full(ctx, fs, p, r), Full(ctx, FinishJumps(fs, isjmp, t, f, reg), p, r);
      match o
      case Fall(s) => d == Fall(if isjmp then s[reg := Bool(false)] else s)
      case Exit(j, s) => d == if j in t || j in f then Fall(Landed(fs, t, reg, j, s)) else o
      case _ => d == o
  {
    var fs1, n, need := FinishJumps(fs, isjmp, t, f, reg), |fs.code|, Need(fs, t, f);
    var m, e := FinishGoals(fs, isjmp, t, f, reg), RCode(FinishJumps(fs, isjmp, t, f, reg));
    var o := Exec(ctx, fs.code, p, n, r);
    ExecRCode(ctx, fs, p, r);
    FinishCode(fs, isjmp, t, f, reg);
    FinishRedirects(fs, isjmp, t, f, reg);
    RedirectExec(ctx, fs.code, m, e, p, |e|, r);
    hide FinishJumps, RCode, Exec, Redirects, RedirectInstr;
    match o
    case Fall(s) => TailRun(ctx, e, isjmp, need, n, reg, s);
    case Exit(j, s) => FinishExit(ctx, fs, isjmp, t, f, reg, e, j, s);
    case _ =>
  }

  lemma FinishExit(ctx: Ctx, fs: FS, isjmp: bool, t: set<nat>, f: set<nat>, reg: nat, e: seq<Instr>, j: nat, s: Regs)
    requires TwoLists(fs, isjmp, t, f) && |fs.code| <= |e|
    requires e[|fs.code|..] == Tail(isjmp, Need(fs, t, f), |fs.code|, reg)
    ensures var m := FinishGoals(fs, isjmp, t, f, reg);
      Resumed(ctx, fs.code, m, e, |e|, Exit(j, s)) ==
        if j in t || j in f then Fall(Landed(fs, t, reg, j, s))
        else if j in fs.jpc then Fall(s)
        else Exit(j, s)
  {
    hide FinishGoals, Need, WF, Tests, Pending, TestSetControls;
    var need, n := Need(fs, t, f), |fs.code|;
    var k := LoadsAt(isjmp, need, n);
    GoalAt(fs, isjmp, t, f, reg, j, |e|);
    assert Exec(ctx, e, |e|, |e|, s) == Fall(s);
    var s1 := Land(fs.code, j, reg, s);
    assert Exec(ctx, e, |e|, |e|, s1) == Fall(s1);
    TailRun(ctx, e, isjmp && need, need, n, reg, s);
    NeedFacts(fs, t, f);
  }

  lemma GoalAt(fs: FS, isjmp: bool, t: set<nat>, f: set<nat>, reg: nat, j: nat, v: nat)
    requires TwoLists(fs, isjmp, t, f) && v == |fs.code| + |Tail(isjmp, Need(fs, t, f), |fs.code|, reg)|
    ensures var m, k := FinishGoals(fs, isjmp, t, f, reg), LoadsAt(isjmp, Need(fs, t, f), |fs.code|);
      && (j in t ==> j in m && m[j] == Goal(if TestSetControls(fs.code, j) then v else k + 1, reg))
      && (j in f ==> j in m && m[j] == Goal(if TestSetControls(fs.code, j) then v else k, reg))
      && (j in fs.jpc ==> j in m && m[j] == Goal(v, NO_REG))
      && (j in m <==> j in t || j in f || j in fs.jpc)
  {
    hide NeedValue, TestSetControls;
  }

  // ---------------------------------------------------------------------
  // exp2reg

  /** What the whole code of an expression leaves, before the finish. */
  ghost predicate Loaded(fs: FS, isjmp: bool, t: set<nat>, f: set<nat>, n0: nat, res: Option<Value>, r0: Regs, o: Out) {
    match o
    case Fall(s) => Agree(r0, s, n0) && res == Some(if isjmp then Bool(false) else Get(s, n0))
    case Exit(j, s) => Agree(r0, s, n0) && res.Some? && Left(fs, Exp(VNil, t, f), res.value, j, s)
    case Fail => res.None?
    case Stuck => false
  }

  ghost predicate FullAt(ctx: Ctx, fs0: FS, fs: FS, isjmp: bool, t: set<nat>, f: set<nat>, x: Expr, p: nat, r: Regs) {
    var o := Full(ctx, fs, p, r);
    match Full(ctx, fs0, p, r)
    case Fall(r0) => Loaded(fs, isjmp, t, f, fs0.freereg, Eval(ctx.env, x, r0), r0, o)
    case Stuck => true
    case Exit(j, s) => o == Exit(j, s)
    case Fail => o == Fail
  }

  lemma {:induction false} ExitPending(ctx: Ctx, c: seq<Instr>, p: nat, q: nat, r: Regs)
    requires q <= |c|
    ensures var o := Exec(ctx, c, p, q, r); o.Exit? ==> o.j in Pending(c)
    decreases if p <= q then q - p else 0
  {
    if p < q {
      match c[p]
      case Jmp(d) => if p < d { ExitPending(ctx, c, d, q, r); }
      case LoadBool(a, val, skip) => ExitPending(ctx, c, if skip then p + 2 else p + 1, q, r[a := Bool(val)]);
      case Cmp(_, _, _, _) => ExitBranch(ctx, c, p, q, r);
      case Test(_, _) => ExitBranch(ctx, c, p, q, r);
      case TestSet(_, _, _) => ExitBranch(ctx, c, p, q, r);
      case _ =>
        var n := Plain(ctx, c[p], r);
        if n.Some? { ExitPending(ctx, c, p + 1, q, n.value); }
    }
  }

  lemma {:induction false} ExitBranch(ctx: Ctx, c: seq<Instr>, p: nat, q: nat, r: Regs)
    requires p < q <= |c| && IsTest(c[p])
    ensures var o := Branch(ctx, c, p, q, r); o.Exit? ==> o.j in Pending(c)
    decreases q - p, 0
  {
    if p + 1 < q && c[p + 1].Jmp? {
      ExitPending(ctx, c, p + 2, q, r);
      var d := c[p + 1].target;
      if p + 1 < d { ExitPending(ctx, c, d, q, Chosen(c[p], r)); }
    }
  }

  /** A jump that was pending before an expression is not one of its exits. */
  lemma OldExit(ctx: Ctx, fs0: FS, fs: FS, own: set<nat>, p: nat, r: Regs)
    requires WF(fs0) && Grown(fs0, fs, own) && Full(ctx, fs0, p, r).Exit?
    ensures Full(ctx, fs0, p, r).j !in own
  {
    RCodeShape(fs0);
    ExitPending(ctx, RCode(fs0), p, |fs0.code|, r);
  }

  lemma EntryGrown(fs0: FS, fs: FS, own: set<nat>, p: nat, r: Regs)
    requires Grown(fs0, fs, own) && Entry(fs0, p, r)
    ensures p <= |fs.code| && Outside(fs.code, p)
  {}

  lemma LoadedMeets(ctx: Ctx, fs: FS, fs1: FS, isjmp: bool, t: set<nat>, f: set<nat>, n0: nat, res: Option<Value>,
                    r0: Regs, o: Out, d: Out)
    requires Loaded(fs, isjmp, t, f, n0, res, r0, o) && t !! f
    requires match o
      case Fall(s) => d == Fall(if isjmp then s[n0 := Bool(false)] else s)
      case Exit(j, s) => d == if j in t || j in f then Fall(Landed(fs, t, n0, j, s)) else o
      case _ => d == o
    ensures Meets(ctx, n0, fs1, Exp(VNonReloc(n0), {}, {}), res, r0, d)
  {}

  /** The finish turns every way out into the value in `n0`. */
  lemma FinishAt(ctx: Ctx, fs0: FS, fs: FS, isjmp: bool, t: set<nat>, f: set<nat>, x: Expr, p: nat, r: Regs)
    requires TwoLists(fs, isjmp, t, f) && WF(fs0) && Grown(fs0, fs, t + f) && Entry(fs0, p, r)
    requires FullAt(ctx, fs0, fs, isjmp, t, f, x, p, r)
    ensures DenAt(ctx, fs0, FinishJumps(fs, isjmp, t, f, fs0.freereg), Exp(VNonReloc(fs0.freereg), {}, {}), x, p, r)
  {
    var n0 := fs0.freereg;
    var fs1 := FinishJumps(fs, isjmp, t, f, n0);
    EntryGrown(fs0, fs, t + f, p, r);
    assert t !! f;
    hide TwoLists, FinishJumps, RCode, WF, Grown, Entry, Exec, Eval, Meets, Outside;
    var o0, o, d := Full(ctx, fs0, p, r), Full(ctx, fs, p, r), Full(ctx, fs1, p, r);
    assert d == Exec(ctx, RCode(fs1), p, End(fs1, VNonReloc(n0)), r);
    hide Full;
    if o0 != Stuck {
      FinishRun(ctx, fs, isjmp, t, f, n0, p, r);
      if o0.Exit? { OldExit(ctx, fs0, fs, t + f, p, r); }
      if o0.Fall? {
        LoadedMeets(ctx, fs, fs1, isjmp, t, f, n0, Eval(ctx.env, x, o0.r), o0.r, o, d);
      }
    }
  }

  /** A comparison, run to its end: the jump is taken when it holds. */
  lemma JmpRun(ctx: Ctx, c: seq<Instr>, p: nat, r: Regs)
    requires |c| >= 2 && c[|c| - 2].Cmp? && c[|c| - 1] == Jmp(NO_JUMP)
    ensures var n := |c|;
      var o, d := Exec(ctx, c, p, n - 2, r), Exec(ctx, c, p, n, r);
      match o
      case Fall(s) =>
        d == (match Cond(ctx, c[n - 2], s) case None => Fail case Some(b) => if b then Exit(n - 1, s) else Fall(s))
      case Stuck => true
      case _ => d == o
  {
    var n := |c|;
    ExecSplit(ctx, c, p, n - 2, n, r);
    var o := Exec(ctx, c, p, n - 2, r);
    if o.Fall? {
      var s := o.r;
      assert Exec(ctx, c, n - 2, n, s) == Branch(ctx, c, n - 2, n, s);
      assert Follow(ctx, c, n - 1, n, s, Chosen(c[n - 2], s)) == Exit(n - 1, s);
      assert Exec(ctx, c, n, n, s) == Fall(s);
    }
  }

  lemma JmpFullAt(ctx: Ctx, fs0: FS, fs: FS, e: Exp, x: Expr, p: nat, r: Regs)
    requires St(fs0, fs, e) && e.k.VJmp? && DenAt(ctx, fs0, fs, e, x, p, r)
    ensures FullAt(ctx, fs0, fs, true, e.t + {e.k.j}, e.f, x, p, r)
  {
    hide Grown, Exec, WF, St, Eval, KindOK, RCode, Tests, Pending, Open;
    JmpShape(fs0, fs, e);
    JmpRun(ctx, fs.code, p, r);
  }

  lemma JmpShape(fs0: FS, fs: FS, e: Exp)
    requires St(fs0, fs, e) && e.k.VJmp?
    ensures var n := |fs.code|;
      && n >= 2 && e.k.j == n - 1 && fs.code[n - 2].Cmp? && fs.code[n - 1] == Jmp(NO_JUMP) && fs.jpc == {}
      && RCode(fs) == fs.code && End(fs, e.k) == n - 2 && !TestSetControls(fs.code, n - 1)
  {
    assert e.k.j in Open(fs);
    RCodeClean(fs);
  }

  lemma RegFullAt(ctx: Ctx, fs0: FS, fs: FS, e: Exp, x: Expr, p: nat, r: Regs)
    requires e.k == VNonReloc(fs0.freereg) && DenAt(ctx, fs0, fs, e, x, p, r)
    ensures FullAt(ctx, fs0, fs, false, e.t, e.f, x, p, r)
  {
    hide Exec, RCode;
  }

  lemma JmpReady(fs0: FS, fs: FS, e: Exp)
    requires St(fs0, fs, e) && e.k.VJmp?
    ensures Grown(fs0, fs, (e.t + {e.k.j}) + e.f)
    ensures TwoLists(fs, true, e.t + {e.k.j}, e.f)
  {
    assert (e.t + {e.k.j}) + e.f == Own(e);
    assert e.k.j in e.t + {e.k.j} && !TestSetControls(fs.code, e.k.j);
  }

  lemma RegReady(fs0: FS, fs: FS, e: Exp)
    requires St(fs0, fs, e) && !e.k.VJmp?
    ensures Grown(fs0, fs, e.t + e.f)
    ensures TwoLists(fs, false, e.t, e.f)
  {
    assert e.t + e.f == Own(e);
  }

  /** The finish, for all runs. */
  lemma FinishDen(ctx: Ctx, fs0: FS, fs: FS, isjmp: bool, t: set<nat>, f: set<nat>, x: Expr)
    requires TwoLists(fs, isjmp, t, f) && WF(fs0) && Grown(fs0, fs, t + f) && fs.freereg == fs0.freereg + 1
    requires forall p, r :: Entry(fs0, p, r) ==> FullAt(ctx, fs0, fs, isjmp, t, f, x, p, r)
    ensures var fs1, e1 := FinishJumps(fs, isjmp, t, f, fs0.freereg), Exp(VNonReloc(fs0.freereg), {}, {});
      St(fs0, fs1, e1) && Den(ctx, fs0, fs1, e1, x) && fs1.k == fs.k
  {
    var fs1, e1 := FinishJumps(fs, isjmp, t, f, fs0.freereg), Exp(VNonReloc(fs0.freereg), {}, {});
    FinishGrown(fs0, fs, isjmp, t, f, fs0.freereg);
    assert Own(e1) == {};
    hide TwoLists, FinishJumps;
    assert St(fs0, fs1, e1);
    hide Grown, St, FullAt, DenAt;
    forall p, r | Entry(fs0, p, r) ensures DenAt(ctx, fs0, fs1, e1, x, p, r) {
      FinishAt(ctx, fs0, fs, isjmp, t, f, x, p, r);
    }
  }

  /** exp2reg into the register that was free when the expression began. */
  lemma Exp2RegDen(ctx: Ctx, fs0: FS, fs: FS, e: Exp, x: Expr)
    requires St(fs0, fs, e) && Den(ctx, fs0, fs, e, x) && Discharged(e.k)
    requires Exp2Reg(fs.(freereg := fs0.freereg + 1), e, fs0.freereg).0.k <= ctx.k
    ensures var (fs1, e1) := Exp2Reg(fs.(freereg := fs0.freereg + 1), e, fs0.freereg);
      && St(fs0, fs1, e1) && Den(ctx, fs0, fs1, e1, x)
      && e1 == Exp(VNonReloc(fs0.freereg), {}, {}) && fs.k <= fs1.k && fs1.freereg == fs0.freereg + 1
  {
    if e.k.VJmp? { Exp2RegJmp(ctx, fs0, fs, e, x); } else { Exp2RegPlain(ctx, fs0, fs, e, x); }
  }

  lemma Exp2RegJmp(ctx: Ctx, fs0: FS, fs: FS, e: Exp, x: Expr)
    requires St(fs0, fs, e) && Den(ctx, fs0, fs, e, x) && e.k.VJmp?
    ensures var (fs1, e1) := Exp2Reg(fs.(freereg := fs0.freereg + 1), e, fs0.freereg);
      && St(fs0, fs1, e1) && Den(ctx, fs0, fs1, e1, x)
      && e1 == Exp(VNonReloc(fs0.freereg), {}, {}) && fs.k <= fs1.k && fs1.freereg == fs0.freereg + 1
  {
    var n0 := fs0.freereg;
    var fs2, t := fs.(freereg := n0 + 1), e.t + {e.k.j};
    JmpReady(fs0, fs, e);
    assert e.k.j !in e.f;
    assert Exp2Reg(fs2, e, n0) == (FinishJumps(fs2, true, t, e.f, n0), Exp(VNonReloc(n0), {}, {}));
    assert WF(fs0) && n0 + 1 >= fs.nactvar;
    RegsGrown(fs0, fs, t + e.f, n0 + 1, fs.k);
    TwoListsFrame(fs, true, t, e.f, n0 + 1);
    FullFrame(ctx, fs, n0 + 1);
    FinishMono(fs2, true, t, e.f, n0);
    hide Grown, TwoLists, FinishJumps, Exp2Reg;
    forall p, r | Entry(fs0, p, r) ensures FullAt(ctx, fs0, fs2, true, t, e.f, x, p, r) {
      JmpFullAt(ctx, fs0, fs, e, x, p, r);
    }
    hide St, Den, FullAt;
    FinishDen(ctx, fs0, fs2, true, t, e.f, x);
  }

  lemma FullFrame(ctx: Ctx, fs: FS, n: nat)
    ensures forall p, r :: Full(ctx, fs.(freereg := n), p, r) == Full(ctx, fs, p, r)
  {
    assert RCode(fs.(freereg := n)) == RCode(fs);
  }

  lemma TwoListsFrame(fs: FS, isjmp: bool, t: set<nat>, f: set<nat>, n: nat)
    requires TwoLists(fs, isjmp, t, f) && n >= fs.nactvar
    ensures TwoLists(fs.(freereg := n), isjmp, t, f)
  {
    assert Open(fs.(freereg := n)) == Open(fs);
  }

  lemma FinishMono(fs: FS, isjmp: bool, t: set<nat>, f: set<nat>, reg: nat)
    requires isjmp ==> fs.jpc == {}
    ensures FinishJumps(fs, isjmp, t, f, reg).freereg == fs.freereg
  {
    FinishForm(fs, isjmp, t, f, reg);
  }

  lemma Exp2RegPlain(ctx: Ctx, fs0: FS, fs: FS, e: Exp, x: Expr)
    requires St(fs0, fs, e) && Den(ctx, fs0, fs, e, x) && Discharged(e.k) && !e.k.VJmp?
    requires Exp2Reg(fs.(freereg := fs0.freereg + 1), e, fs0.freereg).0.k <= ctx.k
    ensures var (fs1, e1) := Exp2Reg(fs.(freereg := fs0.freereg + 1), e, fs0.freereg);
      && St(fs0, fs1, e1) && Den(ctx, fs0, fs1, e1, x)
      && e1 == Exp(VNonReloc(fs0.freereg), {}, {}) && fs.k <= fs1.k && fs1.freereg == fs0.freereg + 1
  {
    hide *;
    var n0 := fs0.freereg;
    var (fs2, e2) := Discharge2Reg(fs.(freereg := n0 + 1), e, n0);
    var (fs1, e1) := Exp2Reg(fs.(freereg := n0 + 1), e, n0);
    PlainForm(fs.(freereg := n0 + 1), e, n0);
    Discharge2RegDen(ctx, fs0, fs, e, x);
    StWF(fs0, fs, e);
    if e2.t == e2.f {
      assert e1 == e2;
    } else {
      RegReady(fs0, fs2, e2);
      forall p, r | Entry(fs0, p, r) ensures FullAt(ctx, fs0, fs2, false, e2.t, e2.f, x, p, r) {
        DenInst(ctx, fs0, fs2, e2, x, p, r);
        RegFullAt(ctx, fs0, fs2, e2, x, p, r);
      }
      FinishDen(ctx, fs0, fs2, false, e2.t, e2.f, x);
    }
  }

  lemma PlainForm(fs: FS, e: Exp, reg: nat)
    requires Discharged(e.k) && !e.k.VJmp?
    ensures var (fs2, e2) := Discharge2Reg(fs, e, reg);
      var (fs1, e1) := Exp2Reg(fs, e, reg);
      && e2 == e.(k := VNonReloc(reg)) && e1 == Exp(VNonReloc(reg), {}, {})
      && fs1 == (if e2.t == e2.f then fs2 else FinishJumps(fs2, false, e2.t, e2.f, reg))
      && fs1.k == fs2.k && fs1.freereg == fs2.freereg
  {
    hide FinishJumps, Need, Raw;
    var (fs2, e2) := Discharge2Reg(fs, e, reg);
    FinishForm(fs2, false, e2.t, e2.f, reg);
  }

  lemma StWF(fs0: FS, fs: FS, e: Exp)
    requires St(fs0, fs, e)
    ensures WF(fs0) && WF(fs) && e.t !! e.f && (e.t == e.f ==> e.t == {})
  {}

  lemma DenInst(ctx: Ctx, fs0: FS, fs: FS, e: Exp, x: Expr, p: nat, r: Regs)
    requires Den(ctx, fs0, fs, e, x) && Entry(fs0, p, r)
    ensures DenAt(ctx, fs0, fs, e, x, p, r)
  {}
}
