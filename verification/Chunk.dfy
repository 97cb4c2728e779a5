/** Precompiled chunks: the bytes of a function tree, and how they are read. */
module Chunk {
  import opened Options

  type byte = x: int | 0 <= x < 256

  type bytes = seq<byte>

  // ---------------------------------------------------------------------
  // Function prototypes

  datatype Const = KNil | KBool(b: bool) | KNum(bits: nat) | KStr(s: bytes) | KNullStr

  datatype LocVar = LocVar(varname: Option<bytes>, startpc: int, endpc: int)

  datatype Proto = Proto(
    source: Option<bytes>, linedefined: int, lastlinedefined: int,
    nups: int, numparams: int, isVararg: int, maxstacksize: int,
    code: seq<nat>, k: seq<Const>, p: seq<Proto>,
    lineinfo: seq<int>, locvars: seq<LocVar>, upvalues: seq<Option<bytes>>)

  datatype Error = UnexpectedEnd | BadInteger | BadConstant | TooDeep | BadCode | BadHeader

  /** What a reader makes of some bytes: a value and the bytes left over. */
  datatype Dec<+T> = Ok(value: T, rest: bytes) | Bad(error: Error)

  // ---------------------------------------------------------------------
  // Integers, in little-endian order

  function Pow256(k: nat): (r: nat)
    ensures r >= 1
  {
    if k == 0 then 1 else 256 * Pow256(k - 1)
  }

  const SIZE_INT: nat := 4
  const SIZE_SIZET: nat := 4
  const SIZE_INSTRUCTION: nat := 4
  const SIZE_NUMBER: nat := 8

  const TWO31: int := 0x8000_0000
  const TWO32: int := 0x1_0000_0000

  function Le(n: nat, k: nat): (b: bytes)
    ensures |b| == k
    decreases k
  {
    if k == 0 then [] else [(n % 256) as byte] + Le(n / 256, k - 1)
  }

  function FromLe(b: bytes): nat {
    if b == [] then 0 else b[0] as int + 256 * FromLe(b[1..])
  }

  lemma {:induction false} LeRound(n: nat, k: nat)
    requires n < Pow256(k)
    ensures FromLe(Le(n, k)) == n
    decreases k
  {
    if k > 0 {
      LeRound(n / 256, k - 1);
      assert Le(n, k)[1..] == Le(n / 256, k - 1);
    }
  }

  /** A 32-bit pattern as a signed integer. */
  function Signed(n: nat): int { if n >= TWO31 then n - TWO32 else n }

  function Unsigned(x: int): nat
    requires -TWO31 <= x < TWO31
  {
    if x < 0 then x + TWO32 else x
  }

  // ---------------------------------------------------------------------
  // Reading

  /** LoadBlock. */
  function DecBlock(n: nat, b: bytes): Dec<bytes> { if |b| < n then Bad(UnexpectedEnd) else Ok(b[..n], b[n..]) }

  function DecWord(k: nat, b: bytes): Dec<nat> {
    match DecBlock(k, b) case Ok(w, rest) => Ok(FromLe(w), rest) case Bad(e) => Bad(e)
  }

  function DecByte(b: bytes): Dec<int> {
    match DecBlock(1, b) case Ok(w, rest) => Ok(w[0] as int, rest) case Bad(e) => Bad(e)
  }

  /** LoadInt: counts, lines and program counters are not negative. */
  function DecInt(b: bytes): (r: Dec<int>)
    ensures r.Ok? ==> r.value >= 0
  {
    match DecWord(SIZE_INT, b)
    case Ok(n, rest) => if Signed(n) < 0 then Bad(BadInteger) else Ok(Signed(n), rest)
    case Bad(e) => Bad(e)
  }

  /** An integer of a vector that is read in one piece, so without a check. */
  function DecRaw(b: bytes): Dec<int> {
    match DecWord(SIZE_INT, b) case Ok(n, rest) => Ok(Signed(n), rest) case Bad(e) => Bad(e)
  }

  function DecInstruction(b: bytes): Dec<nat> { DecWord(SIZE_INSTRUCTION, b) }

  /** LoadString: size 0 stands for no string; a size counts the final NUL. */
  function DecString(b: bytes): Dec<Option<bytes>> {
    match DecWord(SIZE_SIZET, b)
    case Bad(e) => Bad(e)
    case Ok(0, rest) => Ok(None, rest)
    case Ok(n, rest) =>
      (match DecBlock(n, rest)
       case Bad(e) => Bad(e)
       case Ok(s, rest1) => Ok(Some(s[..n - 1]), rest1))
  }

  function DecConst(b: bytes): Dec<Const> {
    match DecByte(b)
    case Bad(e) => Bad(e)
    case Ok(t, rest) =>
      if t == 0 then Ok(KNil, rest)
      else if t == 1 then
        (match DecByte(rest) case Bad(e) => Bad(e) case Ok(x, rest1) => Ok(KBool(x != 0), rest1))
      else if t == 3 then
        (match DecWord(SIZE_NUMBER, rest) case Bad(e) => Bad(e) case Ok(x, rest1) => Ok(KNum(x), rest1))
      else if t == 4 then
        (match DecString(rest)
         case Bad(e) => Bad(e)
         case Ok(s, rest1) => Ok(if s.None? then KNullStr else KStr(s.value), rest1))
      else Bad(BadConstant)
  }

  function DecLocVar(b: bytes): Dec<LocVar> {
    match DecString(b)
    case Bad(e) => Bad(e)
    case Ok(s, rest) =>
      (match DecInt(rest)
       case Bad(e) => Bad(e)
       case Ok(x, rest1) =>
         (match DecInt(rest1) case Bad(e) => Bad(e) case Ok(y, rest2) => Ok(LocVar(s, x, y), rest2)))
  }

  /** `n` values, one after the other. */
  function DecMany<T>(n: nat, d: bytes -> Dec<T>, b: bytes): (r: Dec<seq<T>>)
    ensures r.Ok? ==> |r.value| == n
    decreases n
  {
    if n == 0 then Ok([], b)
    else
      match d(b)
      case Bad(e) => Bad(e)
      case Ok(x, rest) =>
        (match DecMany(n - 1, d, rest) case Bad(e) => Bad(e) case Ok(xs, rest1) => Ok([x] + xs, rest1))
  }

  /** A count, and as many values. */
  function DecVector<T>(d: bytes -> Dec<T>, b: bytes): Dec<seq<T>> {
    match DecInt(b) case Bad(e) => Bad(e) case Ok(n, rest) => DecMany(n, d, rest)
  }

  const MAXCCALLS: nat := 200

  /** The parts of a function before and after its nested functions. */
  datatype Front = Front(source: Option<bytes>, linedefined: int, lastlinedefined: int, nups: int, numparams: int,
                         isVararg: int, maxstacksize: int, code: seq<nat>, k: seq<Const>)

  datatype Debug = Debug(lineinfo: seq<int>, locvars: seq<LocVar>, upvalues: seq<Option<bytes>>)

  datatype Heading = Heading(linedefined: int, lastlinedefined: int, nups: int, numparams: int, isVararg: int,
                             maxstacksize: int)

  function DecHeading(b: bytes): Dec<Heading> {
    match DecInt(b)
    case Bad(e) => Bad(e)
    case Ok(x, b1) =>
      (match DecInt(b1)
       case Bad(e) => Bad(e)
       case Ok(y, b2) =>
         (match DecMany(4, DecByte, b2)
          case Bad(e) => Bad(e)
          case Ok(c, b3) => Ok(Heading(x, y, c[0], c[1], c[2], c[3]), b3)))
  }

  function DecFront(p: Option<bytes>, b: bytes): Dec<Front> {
    match DecString(b)
    case Bad(e) => Bad(e)
    case Ok(s, b1) =>
      (match DecHeading(b1)
       case Bad(e) => Bad(e)
       case Ok(h, b2) =>
         (match DecVector(DecInstruction, b2)
          case Bad(e) => Bad(e)
          case Ok(code, b3) =>
            (match DecVector(DecConst, b3)
             case Bad(e) => Bad(e)
             case Ok(k, b4) =>
               Ok(Front(if s.None? then p else s, h.linedefined, h.lastlinedefined, h.nups, h.numparams, h.isVararg,
                        h.maxstacksize, code, k), b4))))
  }

  function DecDebug(b: bytes): Dec<Debug> {
    match DecVector(DecRaw, b)
    case Bad(e) => Bad(e)
    case Ok(lines, b1) =>
      (match DecVector(DecLocVar, b1)
       case Bad(e) => Bad(e)
       case Ok(locs, b2) =>
         (match DecVector(DecString, b2) case Bad(e) => Bad(e) case Ok(ups, b3) => Ok(Debug(lines, locs, ups), b3)))
  }

  function Assemble(h: Front, p: seq<Proto>, d: Debug): Proto {
    Proto(h.source, h.linedefined, h.lastlinedefined, h.nups, h.numparams, h.isVararg, h.maxstacksize, h.code, h.k, p,
          d.lineinfo, d.locvars, d.upvalues)
  }

  /** LoadFunction, when `calls` C calls are active; `check` is luaG_checkcode. */
  function DecFunction(check: Proto -> bool, p: Option<bytes>, calls: nat, b: bytes): Dec<Proto>
    decreases if calls < MAXCCALLS then MAXCCALLS - calls else 0, 1, 0
  {
    if calls + 1 > MAXCCALLS then Bad(TooDeep)
    else
      match DecFront(p, b)
      case Bad(e) => Bad(e)
      case Ok(h, b1) =>
        (match DecInt(b1)
         case Bad(e) => Bad(e)
         case Ok(n, b2) =>
           (match DecFunctions(check, n, h.source, calls + 1, b2)
            case Bad(e) => Bad(e)
            case Ok(ps, b3) =>
              (match DecDebug(b3)
               case Bad(e) => Bad(e)
               case Ok(d, b4) =>
                 var f := Assemble(h, ps, d);
                 if check(f) then Ok(f, b4) else Bad(BadCode))))
  }

  function DecFunctions(check: Proto -> bool, n: nat, p: Option<bytes>, calls: nat, b: bytes): (r: Dec<seq<Proto>>)
    ensures r.Ok? ==> |r.value| == n
    decreases if calls < MAXCCALLS then MAXCCALLS - calls else 0, 2, n
  {
    if n == 0 then Ok([], b)
    else
      match DecFunction(check, p, calls, b)
      case Bad(e) => Bad(e)
      case Ok(f, rest) =>
        (match DecFunctions(check, n - 1, p, calls, rest) case Bad(e) => Bad(e) case Ok(fs, rest1) => Ok([f] + fs, rest1))
  }

  // ---------------------------------------------------------------------
  // Writing

  function EncInt(x: int): bytes { if -TWO31 <= x < TWO31 then Le(Unsigned(x), SIZE_INT) else Le(0, SIZE_INT) }

  function EncByte(x: int): bytes { [(x % 256) as byte] }

  function EncString(s: Option<bytes>): bytes {
    match s case None => Le(0, SIZE_SIZET) case Some(v) => Le(|v| + 1, SIZE_SIZET) + v + [0]
  }

  function EncConst(c: Const): bytes {
    match c
    case KNil => EncByte(0)
    case KBool(b) => EncByte(1) + EncByte(if b then 1 else 0)
    case KNum(n) => EncByte(3) + Le(n, SIZE_NUMBER)
    case KStr(s) => EncByte(4) + EncString(Some(s))
    case KNullStr => EncByte(4) + EncString(None)
  }

  function EncInstruction(i: nat): bytes { Le(i, SIZE_INSTRUCTION) }

  function EncLocVar(v: LocVar): bytes { EncString(v.varname) + EncInt(v.startpc) + EncInt(v.endpc) }

  function EncMany<T>(e: T -> bytes, xs: seq<T>): bytes { if xs == [] then [] else e(xs[0]) + EncMany(e, xs[1..]) }

  function EncVector<T>(e: T -> bytes, xs: seq<T>): bytes { EncInt(|xs|) + EncMany(e, xs) }

  function EncHeading(f: Proto): bytes {
    EncInt(f.linedefined) + EncInt(f.lastlinedefined)
    + EncMany(EncByte, [f.nups, f.numparams, f.isVararg, f.maxstacksize])
  }

  /** The source is left out if it is that of the enclosing function. */
  function EncFront(f: Proto, p: Option<bytes>, strip: bool): bytes {
    EncString(if f.source == p || strip then None else f.source) + EncHeading(f)
    + EncVector(EncInstruction, f.code) + EncVector(EncConst, f.k)
  }

  function EncDebug(f: Proto, strip: bool): bytes {
    EncVector(EncInt, if strip then [] else f.lineinfo) + EncVector(EncLocVar, if strip then [] else f.locvars)
    + EncVector(EncString, if strip then [] else f.upvalues)
  }

  /** DumpFunction. */
  function EncFunction(f: Proto, p: Option<bytes>, strip: bool): bytes
    decreases f, 1, 0
  {
    EncFront(f, p, strip) + EncInt(|f.p|) + EncFunctions(f, 0, strip) + EncDebug(f, strip)
  }

  /** The functions nested in `f`, from number `i` on. */
  function EncFunctions(f: Proto, i: nat, strip: bool): bytes
    requires i <= |f.p|
    decreases f, 0, |f.p| - i
  {
    if i == |f.p| then [] else EncFunction(f.p[i], f.source, strip) + EncFunctions(f, i + 1, strip)
  }

  // ---------------------------------------------------------------------
  // Reading back what was written

  /** Within the ranges of the fields. */
  predicate IsInt(x: int) { 0 <= x < TWO31 }

  predicate IsByte(x: int) { 0 <= x < 256 }

  predicate StringFits(s: Option<bytes>) { s.Some? ==> |s.value| + 1 < TWO32 }

  predicate ConstFits(c: Const) {
    match c
    case KNum(n) => n < Pow256(SIZE_NUMBER)
    case KStr(s) => |s| + 1 < TWO32
    case _ => true
  }

  predicate LocVarFits(v: LocVar) { StringFits(v.varname) && IsInt(v.startpc) && IsInt(v.endpc) }

  predicate FrontFits(f: Proto) {
    && StringFits(f.source) && IsInt(f.linedefined) && IsInt(f.lastlinedefined)
    && IsByte(f.nups) && IsByte(f.numparams) && IsByte(f.isVararg) && IsByte(f.maxstacksize)
    && IsInt(|f.code|) && IsInt(|f.k|)
    && (forall i :: 0 <= i < |f.code| ==> f.code[i] < TWO32)
    && (forall i :: 0 <= i < |f.k| ==> ConstFits(f.k[i]))
  }

  predicate DebugFits(f: Proto) {
    && IsInt(|f.lineinfo|) && IsInt(|f.locvars|) && IsInt(|f.upvalues|)
    && (forall i :: 0 <= i < |f.lineinfo| ==> -TWO31 <= f.lineinfo[i] < TWO31)
    && (forall i :: 0 <= i < |f.locvars| ==> LocVarFits(f.locvars[i]))
    && (forall i :: 0 <= i < |f.upvalues| ==> StringFits(f.upvalues[i]))
  }

  /** A prototype as the compiler makes it, with at most `depth` levels. */
  predicate Fits(f: Proto, depth: nat)
    decreases depth
  {
    && depth > 0 && FrontFits(f) && DebugFits(f) && IsInt(|f.p|)
    && forall i :: 0 <= i < |f.p| ==> Fits(f.p[i], depth - 1)
  }

  /** The source that is read back. */
  function SourceBack(f: Proto, p: Option<bytes>, q: Option<bytes>, strip: bool): Option<bytes> {
    if f.source == p || strip || f.source.None? then q else f.source
  }

  /** What is read back, when `p` was the source of the enclosing function, and
      `q` is the one that was read. */
  function Rebuilt(f: Proto, p: Option<bytes>, q: Option<bytes>, strip: bool): Proto
    decreases f
  {
    var source := SourceBack(f, p, q, strip);
    f.(source := source,
       p := seq(|f.p|, i requires 0 <= i < |f.p| => Rebuilt(f.p[i], f.source, source, strip)),
       lineinfo := if strip then [] else f.lineinfo,
       locvars := if strip then [] else f.locvars,
       upvalues := if strip then [] else f.upvalues)
  }

  /** The code checker accepts what is read back, at all levels. */
  predicate Checked(check: Proto -> bool, f: Proto) {
    check(f) && forall i :: 0 <= i < |f.p| ==> Checked(check, f.p[i])
  }

  lemma BlockRound(b: bytes, tail: bytes)
    ensures DecBlock(|b|, b + tail) == Ok(b, tail)
  {
    assert (b + tail)[..|b|] == b && (b + tail)[|b|..] == tail;
  }

  lemma WordRound(n: nat, k: nat, tail: bytes)
    requires n < Pow256(k)
    ensures DecWord(k, Le(n, k) + tail) == Ok(n, tail)
  {
    BlockRound(Le(n, k), tail);
    LeRound(n, k);
  }

  lemma PowFour()
    ensures Pow256(4) == TWO32
  {
    assert Pow256(2) == 65536;
    assert Pow256(4) == 256 * (256 * Pow256(2));
  }

  lemma IntRound(x: int, tail: bytes)
    requires -TWO31 <= x < TWO31
    ensures DecRaw(EncInt(x) + tail) == Ok(x, tail)
    ensures x >= 0 ==> DecInt(EncInt(x) + tail) == Ok(x, tail)
  {
    PowFour();
    WordRound(Unsigned(x), SIZE_INT, tail);
  }

  lemma ByteRound(x: int, tail: bytes)
    requires IsByte(x)
    ensures DecByte(EncByte(x) + tail) == Ok(x, tail)
  {
    BlockRound(EncByte(x), tail);
  }

  lemma StringRound(s: Option<bytes>, tail: bytes)
    requires StringFits(s)
    ensures DecString(EncString(s) + tail) == Ok(s, tail)
  {
    PowFour();
    match s
    case None => WordRound(0, SIZE_SIZET, tail);
    case Some(v) =>
      var body := v + [0 as byte];
      WordRound(|v| + 1, SIZE_SIZET, body + tail);
      assert EncString(s) + tail == Le(|v| + 1, SIZE_SIZET) + (body + tail);
      BlockRound(body, tail);
      assert body[..|v|] == v;
  }

  lemma ConstRound(c: Const, tail: bytes)
    requires ConstFits(c)
    ensures DecConst(EncConst(c) + tail) == Ok(c, tail)
  {
    hide DecByte, DecWord, DecString, EncByte, Le, EncString, Pow256;
    match c
    case KNil => ByteRound(0, tail);
    case KBool(b) =>
      var body := EncByte(if b then 1 else 0);
      assert EncConst(c) + tail == EncByte(1) + (body + tail);
      ByteRound(1, body + tail);
      ByteRound(if b then 1 else 0, tail);
    case KNum(n) =>
      assert EncConst(c) + tail == EncByte(3) + (Le(n, SIZE_NUMBER) + tail);
      ByteRound(3, Le(n, SIZE_NUMBER) + tail);
      WordRound(n, SIZE_NUMBER, tail);
    case KStr(s) =>
      assert EncConst(c) + tail == EncByte(4) + (EncString(Some(s)) + tail);
      ByteRound(4, EncString(Some(s)) + tail);
      StringRound(Some(s), tail);
    case KNullStr =>
      assert EncConst(c) + tail == EncByte(4) + (EncString(None) + tail);
      ByteRound(4, EncString(None) + tail);
      StringRound(None, tail);
  }

  lemma LocVarRound(v: LocVar, tail: bytes)
    requires LocVarFits(v)
    ensures DecLocVar(EncLocVar(v) + tail) == Ok(v, tail)
  {
    var b2 := EncInt(v.endpc) + tail;
    var b1 := EncInt(v.startpc) + b2;
    assert EncLocVar(v) + tail == EncString(v.varname) + b1;
    StringRound(v.varname, b1);
    IntRound(v.startpc, b2);
    IntRound(v.endpc, tail);
  }

  lemma {:induction false} ManyRound<T>(e: T -> bytes, d: bytes -> Dec<T>, xs: seq<T>, tail: bytes)
    requires forall i, t :: 0 <= i < |xs| ==> d(e(xs[i]) + t) == Ok(xs[i], t)
    ensures DecMany(|xs|, d, EncMany(e, xs) + tail) == Ok(xs, tail)
    decreases |xs|
  {
    if xs != [] {
      var rest := EncMany(e, xs[1..]) + tail;
      assert EncMany(e, xs) + tail == e(xs[0]) + rest;
      ManyRound(e, d, xs[1..], tail);
      assert xs == [xs[0]] + xs[1..];
    } else {
      assert EncMany(e, xs) + tail == tail;
    }
  }

  lemma VectorRound<T>(e: T -> bytes, d: bytes -> Dec<T>, xs: seq<T>, tail: bytes)
    requires IsInt(|xs|) && forall i, t :: 0 <= i < |xs| ==> d(e(xs[i]) + t) == Ok(xs[i], t)
    ensures DecVector(d, EncVector(e, xs) + tail) == Ok(xs, tail)
  {
    assert EncVector(e, xs) + tail == EncInt(|xs|) + (EncMany(e, xs) + tail);
    IntRound(|xs|, EncMany(e, xs) + tail);
    ManyRound(e, d, xs, tail);
  }

  lemma HeadingRound(f: Proto, tail: bytes)
    requires FrontFits(f)
    ensures DecHeading(EncHeading(f) + tail) ==
      Ok(Heading(f.linedefined, f.lastlinedefined, f.nups, f.numparams, f.isVararg, f.maxstacksize), tail)
  {
    var cs := [f.nups, f.numparams, f.isVararg, f.maxstacksize];
    var b2 := EncMany(EncByte, cs) + tail;
    var b1 := EncInt(f.lastlinedefined) + b2;
    assert EncHeading(f) + tail == EncInt(f.linedefined) + b1;
    IntRound(f.linedefined, b1);
    IntRound(f.lastlinedefined, b2);
    forall i, t | 0 <= i < |cs| ensures DecByte(EncByte(cs[i]) + t) == Ok(cs[i], t) { ByteRound(cs[i], t); }
    ManyRound(EncByte, DecByte, cs, tail);
  }

  lemma FrontRound(f: Proto, p: Option<bytes>, q: Option<bytes>, strip: bool, tail: bytes)
    requires FrontFits(f)
    ensures DecFront(q, EncFront(f, p, strip) + tail) ==
      Ok(Front(SourceBack(f, p, q, strip), f.linedefined, f.lastlinedefined, f.nups, f.numparams, f.isVararg,
               f.maxstacksize, f.code, f.k), tail)
  {
    hide EncVector, DecVector, EncHeading, DecHeading, DecString, EncString, EncConst, DecConst, DecWord, Le;
    var s := if f.source == p || strip then None else f.source;
    var b3 := EncVector(EncConst, f.k) + tail;
    var b2 := EncVector(EncInstruction, f.code) + b3;
    var b1 := EncHeading(f) + b2;
    assert EncFront(f, p, strip) + tail == EncString(s) + b1;
    StringRound(s, b1);
    HeadingRound(f, b2);
    CodeRound(f.code, b3);
    ConstsRound(f.k, tail);
  }

  lemma CodeRound(code: seq<nat>, tail: bytes)
    requires IsInt(|code|) && forall i :: 0 <= i < |code| ==> code[i] < TWO32
    ensures DecVector(DecInstruction, EncVector(EncInstruction, code) + tail) == Ok(code, tail)
  {
    forall i, t | 0 <= i < |code| ensures DecInstruction(EncInstruction(code[i]) + t) == Ok(code[i], t) {
      PowFour();
      WordRound(code[i], SIZE_INSTRUCTION, t);
    }
    VectorRound(EncInstruction, DecInstruction, code, tail);
  }

  lemma ConstsRound(k: seq<Const>, tail: bytes)
    requires IsInt(|k|) && forall i :: 0 <= i < |k| ==> ConstFits(k[i])
    ensures DecVector(DecConst, EncVector(EncConst, k) + tail) == Ok(k, tail)
  {
    forall i, t | 0 <= i < |k| ensures DecConst(EncConst(k[i]) + t) == Ok(k[i], t) { ConstRound(k[i], t); }
    VectorRound(EncConst, DecConst, k, tail);
  }

  lemma DebugRound(f: Proto, strip: bool, tail: bytes)
    requires DebugFits(f)
    ensures DecDebug(EncDebug(f, strip) + tail) ==
      Ok(if strip then Debug([], [], []) else Debug(f.lineinfo, f.locvars, f.upvalues), tail)
  {
    hide DecVector, EncVector, DecRaw, EncInt, DecLocVar, EncLocVar, DecString, EncString, LocVarFits, StringFits;
    var lines, locs, ups := if strip then [] else f.lineinfo, if strip then [] else f.locvars, if strip then [] else f.upvalues;
    var b2 := EncVector(EncString, ups) + tail;
    var b1 := EncVector(EncLocVar, locs) + b2;
    assert EncDebug(f, strip) + tail == EncVector(EncInt, lines) + b1;
    forall i, t | 0 <= i < |lines| ensures DecRaw(EncInt(lines[i]) + t) == Ok(lines[i], t) { IntRound(lines[i], t); }
    VectorRound(EncInt, DecRaw, lines, b1);
    forall i, t | 0 <= i < |locs| ensures DecLocVar(EncLocVar(locs[i]) + t) == Ok(locs[i], t) { LocVarRound(locs[i], t); }
    VectorRound(EncLocVar, DecLocVar, locs, b2);
    forall i, t | 0 <= i < |ups| ensures DecString(EncString(ups[i]) + t) == Ok(ups[i], t) { StringRound(ups[i], t); }
    VectorRound(EncString, DecString, ups, tail);
  }

  /** A dumped function is read back, up to the sources and the debug
      information that the dump leaves out, and nothing but its bytes is
      consumed. */
  lemma {:induction false} FunctionRound(check: Proto -> bool, f: Proto, p: Option<bytes>, q: Option<bytes>, strip: bool,
                                         calls: nat, tail: bytes)
    requires calls < MAXCCALLS && Fits(f, MAXCCALLS - calls) && Checked(check, Rebuilt(f, p, q, strip))
    ensures DecFunction(check, q, calls, EncFunction(f, p, strip) + tail) == Ok(Rebuilt(f, p, q, strip), tail)
    decreases f, 1, 0
  {
    hide EncFront, DecFront, EncDebug, DecDebug, EncInt, DecInt, FrontFits, DebugFits, SourceBack, EncFunctions, DecFunctions;
    var r := Rebuilt(f, p, q, strip);
    var b3 := EncDebug(f, strip) + tail;
    var b2 := EncFunctions(f, 0, strip) + b3;
    var b1 := EncInt(|f.p|) + b2;
    assert EncFunction(f, p, strip) + tail == EncFront(f, p, strip) + b1;
    FrontRound(f, p, q, strip, b1);
    IntRound(|f.p|, b2);
    FunctionsRound(check, f, 0, p, q, strip, calls, b3);
    assert r.p[0..] == r.p;
    DebugRound(f, strip, tail);
  }

  lemma {:induction false} FunctionsRound(check: Proto -> bool, f: Proto, i: nat, p: Option<bytes>, q: Option<bytes>,
                                          strip: bool, calls: nat, tail: bytes)
    requires i <= |f.p| && calls < MAXCCALLS && Fits(f, MAXCCALLS - calls) && Checked(check, Rebuilt(f, p, q, strip))
    ensures var r := Rebuilt(f, p, q, strip);
      DecFunctions(check, |f.p| - i, r.source, calls + 1, EncFunctions(f, i, strip) + tail) == Ok(r.p[i..], tail)
    decreases f, 0, |f.p| - i
  {
    hide EncFunction, DecFunction, FrontFits, DebugFits, SourceBack;
    var r := Rebuilt(f, p, q, strip);
    if i < |f.p| {
      var rest := EncFunctions(f, i + 1, strip) + tail;
      assert EncFunctions(f, i, strip) + tail == EncFunction(f.p[i], f.source, strip) + rest;
      assert r.p[i] == Rebuilt(f.p[i], f.source, r.source, strip) && Checked(check, r.p[i]);
      assert Fits(f.p[i], MAXCCALLS - calls - 1);
      hide Fits, Checked, Rebuilt;
      FunctionRound(check, f.p[i], f.source, r.source, strip, calls + 1, rest);
      FunctionsRound(check, f, i + 1, p, q, strip, calls, tail);
      assert r.p[i..] == [r.p[i]] + r.p[i + 1..];
    } else {
      assert EncFunctions(f, i, strip) + tail == tail && r.p[i..] == [];
    }
  }

  // ---------------------------------------------------------------------
  // When the tree comes back exactly

  /** Every function names its source. */
  predicate Sourced(f: Proto) { f.source.Some? && forall i :: 0 <= i < |f.p| ==> Sourced(f.p[i]) }

  /** Read under the source that it was written under, a tree comes back whose
      functions all name their sources. */
  lemma {:induction false} RebuiltSame(f: Proto, p: Option<bytes>)
    requires Sourced(f)
    ensures Rebuilt(f, p, p, false) == f
    decreases f
  {
    var r := Rebuilt(f, p, p, false);
    forall i | 0 <= i < |f.p| ensures r.p[i] == f.p[i] { RebuiltSame(f.p[i], f.source); }
    assert r.p == f.p;
  }

  /** A whole chunk is read under the name "=?", so that a tree comes back
      unchanged exactly if every function in it has a source. */
  lemma {:induction false} TopSame(f: Proto)
    ensures Rebuilt(f, None, Some(UNKNOWN), false) == f <==> Sourced(f)
    decreases f
  {
    var r := Rebuilt(f, None, Some(UNKNOWN), false);
    if Sourced(f) {
      forall i | 0 <= i < |f.p| ensures r.p[i] == f.p[i] { RebuiltSame(f.p[i], f.source); }
      assert r.p == f.p;
    } else if f.source.Some? {
      var i :| 0 <= i < |f.p| && !Sourced(f.p[i]);
      NestedSame(f.p[i], f.source);
      assert r.p[i] == Rebuilt(f.p[i], f.source, f.source, false);
    }
  }

  lemma {:induction false} NestedSame(f: Proto, p: Option<bytes>)
    requires p.Some? && !Sourced(f)
    ensures Rebuilt(f, p, p, false) != f
    decreases f
  {
    if f.source.Some? {
      var i :| 0 <= i < |f.p| && !Sourced(f.p[i]);
      NestedSame(f.p[i], f.source);
      assert Rebuilt(f, p, p, false).p[i] == Rebuilt(f.p[i], f.source, f.source, false);
    }
  }

  /** The name under which luaU_undump reads a chunk: "=?". */
  const UNKNOWN: bytes := [61, 63]

  // ---------------------------------------------------------------------
  // Whole chunks

  /** luaU_header, for little-endian 32-bit integers and 64-bit numbers. */
  const HEADER: bytes := [27, 76, 117, 97, 0x51, 0, 1, SIZE_INT, SIZE_SIZET, SIZE_INSTRUCTION, SIZE_NUMBER, 0]

  /** luaU_dump. */
  function EncChunk(f: Proto, strip: bool): bytes { HEADER + EncFunction(f, None, strip) }

  /** luaU_undump. */
  function DecChunk(check: Proto -> bool, calls: nat, b: bytes): Dec<Proto> {
    match DecBlock(|HEADER|, b)
    case Bad(e) => Bad(e)
    case Ok(h, rest) => if h != HEADER then Bad(BadHeader) else DecFunction(check, Some(UNKNOWN), calls, rest)
  }

  /** Dumping and loading a chunk gives the same function tree, exactly if all
      functions have a source, and consumes exactly the bytes of the chunk. */
  lemma ChunkRoundTrip(check: Proto -> bool, f: Proto, calls: nat, tail: bytes)
    requires calls < 200 && Fits(f, 200 - calls)
    requires Checked(check, Rebuilt(f, None, Some(UNKNOWN), false))
    ensures DecChunk(check, calls, EncChunk(f, false) + tail).Ok?
    ensures DecChunk(check, calls, EncChunk(f, false) + tail) == Ok(f, tail) <==> Sourced(f)
  {
    hide EncFunction, DecFunction, Rebuilt, Sourced, Fits, Checked;
    var b := EncFunction(f, None, false) + tail;
    assert EncChunk(f, false) + tail == HEADER + b;
    BlockRound(HEADER, b);
    FunctionRound(check, f, None, Some(UNKNOWN), false, calls, tail);
    TopSame(f);
  }

  /** A stripped chunk loses its sources and debug information, and nothing
      else. */
  predicate Stripped(f: Proto, r: Proto, source: Option<bytes>) {
    && r == f.(source := source, p := r.p, lineinfo := [], locvars := [], upvalues := [])
    && |r.p| == |f.p| && forall i :: 0 <= i < |f.p| ==> Stripped(f.p[i], r.p[i], source)
  }

  lemma {:induction false} RebuiltStripped(f: Proto, p: Option<bytes>, q: Option<bytes>)
    ensures Stripped(f, Rebuilt(f, p, q, true), q)
    decreases f
  {
    forall i | 0 <= i < |f.p| ensures Stripped(f.p[i], Rebuilt(f, p, q, true).p[i], q) { RebuiltStripped(f.p[i], f.source, q); }
  }

  lemma StrippedRoundTrip(check: Proto -> bool, f: Proto, calls: nat, tail: bytes)
    requires calls < 200 && Fits(f, 200 - calls)
    requires Checked(check, Rebuilt(f, None, Some(UNKNOWN), true))
    ensures var d := DecChunk(check, calls, EncChunk(f, true) + tail);
      d.Ok? && d.rest == tail && Stripped(f, d.value, Some([61, 63]))
  {
    hide EncFunction, DecFunction, Rebuilt, Stripped, Fits, Checked;
    var b := EncFunction(f, None, true) + tail;
    assert EncChunk(f, true) + tail == HEADER + b;
    BlockRound(HEADER, b);
    FunctionRound(check, f, None, Some(UNKNOWN), true, calls, tail);
    RebuiltStripped(f, None, Some(UNKNOWN));
  }

  // ---------------------------------------------------------------------
  // The bytes of the format

  /** `n` in four bytes, the lowest first. */
  function Word(n: int): (b: bytes)
    requires 0 <= n < 0x1_0000_0000
  {
    [n % 256, n / 256 % 256, n / 65536 % 256, n / 16777216]
  }

  lemma WordBytes(n: nat)
    requires n < 0x1_0000_0000
    ensures Le(n, 4) == Word(n)
  {
    var a, b, c := n / 256, n / 65536, n / 16777216;
    assert a / 256 == b && b / 256 == c && c < 256;
    assert Le(c, 1) == [c] + Le(c / 256, 0);
    assert Le(b, 2) == [b % 256] + Le(c, 1);
    assert Le(a, 3) == [a % 256] + Le(b, 2);
    assert Le(n, 4) == [n % 256] + Le(a, 3);
  }

  /** Integers, strings and constants as they stand in a chunk. */
  lemma ValueBytes(x: int, s: bytes, bits: nat)
    requires -0x8000_0000 <= x < 0x8000_0000 && |s| + 1 < 0x1_0000_0000
    ensures EncInt(x) == Word(if x < 0 then x + 0x1_0000_0000 else x)
    ensures EncInstruction(bits) == Le(bits, 4)
    ensures EncString(None) == [0, 0, 0, 0] && EncString(Some(s)) == Word(|s| + 1) + s + [0]
    ensures EncConst(KNil) == [0] && EncConst(KBool(false)) == [1, 0] && EncConst(KBool(true)) == [1, 1]
    ensures EncConst(KNum(bits)) == [3] + Le(bits, 8)
    ensures EncConst(KStr(s)) == [4] + Word(|s| + 1) + s + [0] && EncConst(KNullStr) == [4, 0, 0, 0, 0]
  {
    WordBytes(Unsigned(x));
    WordBytes(0);
    WordBytes(|s| + 1);
    assert [4 as byte] + (Word(|s| + 1) + s + [0]) == [4] + Word(|s| + 1) + s + [0];
  }

  lemma HeadingBytes(a: int, b: int, c: int, d: int)
    requires IsByte(a) && IsByte(b) && IsByte(c) && IsByte(d)
    ensures EncMany(EncByte, [a, b, c, d]) == [a, b, c, d]
  {
    var xs := [a, b, c, d];
    ManyBytes(xs);
    assert EncMany(EncByte, xs)[0] == xs[0] && EncMany(EncByte, xs)[1] == xs[1];
    assert EncMany(EncByte, xs)[2] == xs[2] && EncMany(EncByte, xs)[3] == xs[3];
    hide EncMany;
  }

  lemma {:induction false} ManyBytes(xs: seq<int>)
    requires forall i :: 0 <= i < |xs| ==> IsByte(xs[i])
    ensures |EncMany(EncByte, xs)| == |xs| && forall i :: 0 <= i < |xs| ==> EncMany(EncByte, xs)[i] == xs[i]
    decreases |xs|
  {
    if xs != [] { ManyBytes(xs[1..]); }
  }

  /** The parts of a function in the order in which they are dumped. */
  lemma FunctionBytes(f: Proto, p: Option<bytes>, strip: bool)
    requires FrontFits(f)
    ensures EncFunction(f, p, strip) ==
              EncString(if f.source == p || strip then None else f.source)
              + EncInt(f.linedefined) + EncInt(f.lastlinedefined)
              + [f.nups, f.numparams, f.isVararg, f.maxstacksize]
              + EncInt(|f.code|) + EncMany(EncInstruction, f.code)
              + EncInt(|f.k|) + EncMany(EncConst, f.k)
              + EncInt(|f.p|) + EncFunctions(f, 0, strip)
              + (if strip then EncInt(0) + EncInt(0) + EncInt(0)
                 else EncInt(|f.lineinfo|) + EncMany(EncInt, f.lineinfo)
                      + EncInt(|f.locvars|) + EncMany(EncLocVar, f.locvars)
                      + EncInt(|f.upvalues|) + EncMany(EncString, f.upvalues))
  {
    HeadingBytes(f.nups, f.numparams, f.isVararg, f.maxstacksize);
    hide EncInt, EncMany, EncString;
    FrontBytes(f, p, strip);
    DebugBytes(f, strip);
  }

  lemma FrontBytes(f: Proto, p: Option<bytes>, strip: bool)
    ensures EncFront(f, p, strip) ==
              EncString(if f.source == p || strip then None else f.source)
              + EncInt(f.linedefined) + EncInt(f.lastlinedefined)
              + EncMany(EncByte, [f.nups, f.numparams, f.isVararg, f.maxstacksize])
              + EncInt(|f.code|) + EncMany(EncInstruction, f.code)
              + EncInt(|f.k|) + EncMany(EncConst, f.k)
  {
    hide EncInt, EncMany, EncString;
  }

  lemma DebugBytes(f: Proto, strip: bool)
    ensures EncDebug(f, strip) ==
              if strip then EncInt(0) + EncInt(0) + EncInt(0)
              else EncInt(|f.lineinfo|) + EncMany(EncInt, f.lineinfo)
                   + EncInt(|f.locvars|) + EncMany(EncLocVar, f.locvars)
                   + EncInt(|f.upvalues|) + EncMany(EncString, f.upvalues)
  {
    hide EncInt, EncString;
    assert EncMany(EncInt, []) == [] && EncMany(EncLocVar, []) == [] && EncMany(EncString, []) == [];
    hide EncMany;
  }

  /** A chunk begins with ESC, "Lua", the version 5.1, the official format,
      little-endian order, the sizes of the types, and floating point numbers. */
  lemma ChunkBytes(f: Proto, strip: bool)
    ensures EncChunk(f, strip) == [27, 'L' as int, 'u' as int, 'a' as int, 0x51, 0, 1, 4, 4, 4, 8, 0] + EncFunction(f, None, strip)
  {}
}
