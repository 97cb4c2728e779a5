/** What every step of the code generator keeps about the code it has emitted
    and about the jumps still pending. */
module LuaCodeShape {
  import opened Options
  import opened LuaVM
  import opened LuaCode
  import opened LuaCodeExec

  /** The code is well formed, and the last label bounds every jump. */
  ghost predicate WF(fs: FS) {
    && Tests(fs.code)
    && NO_JUMP <= fs.lasttarget <= |fs.code|
    && fs.jpc <= Pending(fs.code)
    && (fs.jpc != {} ==> fs.lasttarget == |fs.code|)
    && fs.nactvar <= fs.freereg
    && (forall i :: 0 <= i < |fs.code| && fs.code[i].Jmp? ==> fs.code[i].target <= fs.lasttarget)
    && (forall i :: 0 <= i < |fs.code| && fs.code[i].LoadBool? && fs.code[i].skip ==> i + 2 <= fs.lasttarget)
  }

  /** The pending jumps that are not to the next instruction. */
  ghost function Open(fs: FS): set<nat> { Pending(fs.code) - fs.jpc }

  /** `c` and `d` agree on where the tests are, and on the tests before the
      jumps of `l`. */
  ghost predicate SameTests(c: seq<Instr>, d: seq<Instr>, l: set<nat>) {
    && |c| <= |d|
    && (forall i :: 0 <= i < |c| ==> IsTest(c[i]) == IsTest(d[i]))
    && (forall i, j :: 0 <= i < |c| && j == i + 1 && j in l && IsTest(c[i]) ==> d[i] == c[i])
  }

  /** `fs` grew out of `fs0`, leaving its open jumps alone and opening `own`. */
  ghost predicate Grown(fs0: FS, fs: FS, own: set<nat>) {
    && WF(fs)
    && fs.nactvar == fs0.nactvar && fs0.lasttarget <= fs.lasttarget && fs0.k <= fs.k
    && SameTests(fs0.code, fs.code, Open(fs0))
    && Open(fs) == Open(fs0) + own
    && forall j :: j in own ==> j >= |fs0.code|
  }

  lemma GrownRefl(fs: FS)
    requires WF(fs)
    ensures Grown(fs, fs, {})
  {}

  lemma GrownTrans(fs0: FS, fs1: FS, fs2: FS, a: set<nat>, b: set<nat>)
    requires Grown(fs0, fs1, a) && Grown(fs1, fs2, b)
    ensures Grown(fs0, fs2, a + b)
  {}

  lemma RCodeShape(fs: FS)
    requires WF(fs)
    ensures Pending(RCode(fs)) == Open(fs)
    ensures SameTests(fs.code, RCode(fs), Open(fs))
    ensures Tests(RCode(fs))
    ensures forall i :: 0 <= i < |fs.code| && RCode(fs)[i].Jmp? ==> RCode(fs)[i].target <= fs.lasttarget
    ensures forall i :: 0 <= i < |fs.code| && RCode(fs)[i].LoadBool? && RCode(fs)[i].skip ==> i + 2 <= fs.lasttarget
    ensures fs.code != [] && IsPlain(fs.code[|fs.code| - 1]) ==> RCode(fs)[|fs.code| - 1] == fs.code[|fs.code| - 1]
  {
    var c, d := fs.code, RCode(fs);
    assert forall i :: 0 <= i < |c| ==> d[i] == PatchInstr(c, fs.jpc, |c|, NO_REG, |c|, i);
    assert forall i :: 0 <= i < |c| ==> IsTest(c[i]) == IsTest(d[i]);
    assert forall i :: 0 <= i < |c| ==> c[i].Jmp? == d[i].Jmp?;
    assert |c| > 0 ==> !IsTest(c[|c| - 1]);
  }

  /** luaK_code for an instruction that is neither a test nor a jump. */
  lemma EmitGrown(fs0: FS, fs: FS, own: set<nat>, i: Instr)
    requires Grown(fs0, fs, own) && !IsTest(i) && !i.Jmp? && (i.LoadBool? ==> !i.skip)
    ensures Grown(fs0, Emit(fs, i), own)
  {
    RCodeShape(fs);
    var d := RCode(fs);
    var e := Emit(fs, i);
    assert Pending(e.code) == Pending(d);
    assert Tests(e.code) by { TestsSnoc(d, i); }
    assert SameTests(fs.code, e.code, Open(fs));
  }

  lemma TestsSnoc(c: seq<Instr>, i: Instr)
    requires Tests(c) && !IsTest(i)
    requires i.Jmp? ==> i.target == NO_JUMP
    requires i.LoadBool? ==> !i.skip
    ensures Tests(c + [i])
  {
    var d := c + [i];
    forall k: int | Outside(c, k) ensures Outside(d, k) {
      if k == |c| + 1 { assert d[k - 1] == i; }
    }
  }

  /** condjump: a test and its pending jump. */
  lemma CondJumpGrown(fs0: FS, fs: FS, own: set<nat>, i: Instr)
    requires Grown(fs0, fs, own) && IsTest(i)
    ensures CondJump(fs, i).1 == {|fs.code| + 1}
    ensures CondJump(fs, i).0.code == RCode(fs) + [i] + [Jmp(NO_JUMP)]
    ensures Grown(fs0, CondJump(fs, i).0, own + {|fs.code| + 1})
    ensures CondJump(fs, i).0.jpc == {} && CondJump(fs, i).0.lasttarget == fs.lasttarget
  {
    RCodeShape(fs);
    var c, d := RCode(fs), RCode(fs) + [i] + [Jmp(NO_JUMP)];
    var e := CondJump(fs, i).0;
    assert e.code == d;
    assert Pending(d) == Pending(c) + {|c| + 1};
    assert Tests(d) by { TestsCond(c, i); }
    assert SameTests(fs.code, d, Open(fs));
  }

  lemma TestsCond(c: seq<Instr>, i: Instr)
    requires Tests(c) && IsTest(i)
    requires forall k :: 0 <= k < |c| && c[k].Jmp? ==> c[k].target <= |c|
    requires forall k :: 0 <= k < |c| && c[k].LoadBool? && c[k].skip ==> k + 2 <= |c|
    ensures Tests(c + [i] + [Jmp(NO_JUMP)])
  {
    var d := c + [i] + [Jmp(NO_JUMP)];
    forall k: int | Outside(c, k) && k <= |c| ensures Outside(d, k) {}
  }

  lemma PatchToHereGrown(fs0: FS, fs: FS, own: set<nat>, l: set<nat>)
    requires Grown(fs0, fs, own) && l <= own
    ensures Grown(fs0, PatchToHere(fs, l), own - l)
  {
    assert Open(PatchToHere(fs, l)) == Open(fs) - l;
    assert forall j :: j in Open(fs0) ==> j < |fs0.code|;
    assert Open(fs0) + own - l == Open(fs0) + (own - l);
  }

  lemma RegsGrown(fs0: FS, fs: FS, own: set<nat>, n: nat, k: seq<Value>)
    requires Grown(fs0, fs, own) && n >= fs.nactvar && fs.k <= k
    ensures Grown(fs0, fs.(freereg := n, k := k), own)
  {
    assert Open(fs.(freereg := n, k := k)) == Open(fs);
  }

  /** luaK_nil. */
  lemma NilGrown(fs0: FS, fs: FS, own: set<nat>, from: nat)
    requires Grown(fs0, fs, own)
    ensures Grown(fs0, NilInto(fs, from), own)
  {
    var n := |fs.code|;
    var e := NilInto(fs, from);
    if n > fs.lasttarget && n > 0 && fs.code[n - 1].LoadNil? && fs.code[n - 1].a <= from <= fs.code[n - 1].b + 1 {
      var i := LoadNil(fs.code[n - 1].a, if from > fs.code[n - 1].b then from else fs.code[n - 1].b);
      assert e == fs.(code := fs.code[n - 1 := i]);
      hide NilInto, Grown;
      LastGrown(fs0, fs, own, i);
    } else if !(n > fs.lasttarget && n == 0 && from >= fs.nactvar) {
      EmitGrown(fs0, fs, own, LoadNil(from, from));
    }
  }

  /** Changing the last instruction from one plain one to another. */
  lemma LastGrown(fs0: FS, fs: FS, own: set<nat>, i: Instr)
    requires Grown(fs0, fs, own) && fs.code != [] && IsPlain(fs.code[|fs.code| - 1]) && IsPlain(i)
    ensures Grown(fs0, fs.(code := fs.code[|fs.code| - 1 := i]), own)
  {
    var e := fs.(code := fs.code[|fs.code| - 1 := i]);
    assert Pending(e.code) == Pending(fs.code);
    assert forall k :: 0 <= k < |fs.code| ==> IsTest(e.code[k]) == IsTest(fs.code[k]);
  }
}
