/** A chunk that is cut short is refused, wherever it was cut. */
module ChunkCut {
  import opened Options
  import opened Chunk

  /** `q` is what is made of more bytes than `r`: a value stays the same, and so
      does an error other than the end of the bytes. */
  predicate Extends<T(==)>(r: Dec<T>, q: Dec<T>, t: bytes) {
    match r
    case Ok(v, rest) => q == Ok(v, rest + t)
    case Bad(e) => e == UnexpectedEnd || q == Bad(e)
  }

  lemma BlockExtends(n: nat, b: bytes, t: bytes)
    ensures Extends(DecBlock(n, b), DecBlock(n, b + t), t)
  {
    if n <= |b| { assert (b + t)[..n] == b[..n] && (b + t)[n..] == b[n..] + t; }
  }

  lemma WordExtends(k: nat, b: bytes, t: bytes)
    ensures Extends(DecWord(k, b), DecWord(k, b + t), t)
  {
    BlockExtends(k, b, t);
  }

  lemma ByteExtends(b: bytes, t: bytes)
    ensures Extends(DecByte(b), DecByte(b + t), t)
  {
    BlockExtends(1, b, t);
  }

  lemma IntExtends(b: bytes, t: bytes)
    ensures Extends(DecInt(b), DecInt(b + t), t) && Extends(DecRaw(b), DecRaw(b + t), t)
    ensures Extends(DecInstruction(b), DecInstruction(b + t), t)
  {
    WordExtends(SIZE_INT, b, t);
    WordExtends(SIZE_INSTRUCTION, b, t);
  }

  lemma StringExtends(b: bytes, t: bytes)
    ensures Extends(DecString(b), DecString(b + t), t)
  {
    WordExtends(SIZE_SIZET, b, t);
    var r := DecWord(SIZE_SIZET, b);
    if r.Ok? { BlockExtends(r.value, r.rest, t); }
  }

  lemma ConstExtends(b: bytes, t: bytes)
    ensures Extends(DecConst(b), DecConst(b + t), t)
  {
    ByteExtends(b, t);
    var r := DecByte(b);
    if r.Ok? {
      ByteExtends(r.rest, t);
      WordExtends(SIZE_NUMBER, r.rest, t);
      StringExtends(r.rest, t);
      hide DecByte, DecWord, DecString;
    }
  }

  lemma LocVarExtends(b: bytes, t: bytes)
    ensures Extends(DecLocVar(b), DecLocVar(b + t), t)
  {
    hide DecString, DecInt;
    StringExtends(b, t);
    var s := DecString(b);
    if s.Ok? {
      IntExtends(s.rest, t);
      var x := DecInt(s.rest);
      if x.Ok? { IntExtends(x.rest, t); }
    }
  }

  lemma {:induction false} ManyExtends<T>(n: nat, d: bytes -> Dec<T>, b: bytes, t: bytes)
    requires forall c :: Extends(d(c), d(c + t), t)
    ensures Extends(DecMany(n, d, b), DecMany(n, d, b + t), t)
    decreases n
  {
    if n > 0 {
      assert Extends(d(b), d(b + t), t);
      if d(b).Ok? { ManyExtends(n - 1, d, d(b).rest, t); }
    }
  }

  lemma VectorExtends<T>(d: bytes -> Dec<T>, b: bytes, t: bytes)
    requires forall c :: Extends(d(c), d(c + t), t)
    ensures Extends(DecVector(d, b), DecVector(d, b + t), t)
  {
    hide DecMany, DecInt;
    IntExtends(b, t);
    var r := DecInt(b);
    if r.Ok? { ManyExtends(r.value, d, r.rest, t); }
  }

  lemma HeadingExtends(b: bytes, t: bytes)
    ensures Extends(DecHeading(b), DecHeading(b + t), t)
  {
    hide DecInt, DecMany, DecByte;
    forall c ensures Extends(DecByte(c), DecByte(c + t), t) { ByteExtends(c, t); }
    IntExtends(b, t);
    var x := DecInt(b);
    if x.Ok? {
      IntExtends(x.rest, t);
      var y := DecInt(x.rest);
      if y.Ok? { ManyExtends(4, DecByte, y.rest, t); }
    }
  }

  lemma FrontExtends(p: Option<bytes>, b: bytes, t: bytes)
    ensures Extends(DecFront(p, b), DecFront(p, b + t), t)
  {
    hide DecString, DecHeading, DecVector, DecInstruction, DecConst;
    forall c ensures Extends(DecInstruction(c), DecInstruction(c + t), t) { IntExtends(c, t); }
    forall c ensures Extends(DecConst(c), DecConst(c + t), t) { ConstExtends(c, t); }
    StringExtends(b, t);
    var s := DecString(b);
    if s.Ok? {
      HeadingExtends(s.rest, t);
      var h := DecHeading(s.rest);
      if h.Ok? {
        VectorExtends(DecInstruction, h.rest, t);
        var code := DecVector(DecInstruction, h.rest);
        if code.Ok? { VectorExtends(DecConst, code.rest, t); }
      }
    }
  }

  lemma DebugExtends(b: bytes, t: bytes)
    ensures Extends(DecDebug(b), DecDebug(b + t), t)
  {
    hide DecString, DecVector, DecRaw, DecLocVar;
    forall c ensures Extends(DecRaw(c), DecRaw(c + t), t) { IntExtends(c, t); }
    forall c ensures Extends(DecLocVar(c), DecLocVar(c + t), t) { LocVarExtends(c, t); }
    forall c ensures Extends(DecString(c), DecString(c + t), t) { StringExtends(c, t); }
    VectorExtends(DecRaw, b, t);
    var lines := DecVector(DecRaw, b);
    if lines.Ok? {
      VectorExtends(DecLocVar, lines.rest, t);
      var locs := DecVector(DecLocVar, lines.rest);
      if locs.Ok? { VectorExtends(DecString, locs.rest, t); }
    }
  }

  lemma {:induction false} FunctionExtends(check: Proto -> bool, p: Option<bytes>, calls: nat, b: bytes, t: bytes)
    ensures Extends(DecFunction(check, p, calls, b), DecFunction(check, p, calls, b + t), t)
    decreases if calls < MAXCCALLS then MAXCCALLS - calls else 0, 1, 0
  {
    hide DecFront, DecInt, DecDebug, DecFunctions;
    if calls < MAXCCALLS {
      FrontExtends(p, b, t);
      var h := DecFront(p, b);
      if h.Ok? {
        IntExtends(h.rest, t);
        var n := DecInt(h.rest);
        if n.Ok? {
          FunctionsExtends(check, n.value, h.value.source, calls + 1, n.rest, t);
          var ps := DecFunctions(check, n.value, h.value.source, calls + 1, n.rest);
          if ps.Ok? { DebugExtends(ps.rest, t); }
        }
      }
    }
  }

  lemma {:induction false} FunctionsExtends(check: Proto -> bool, n: nat, p: Option<bytes>, calls: nat, b: bytes, t: bytes)
    ensures Extends(DecFunctions(check, n, p, calls, b), DecFunctions(check, n, p, calls, b + t), t)
    decreases if calls < MAXCCALLS then MAXCCALLS - calls else 0, 2, n
  {
    hide DecFunction;
    if n > 0 {
      FunctionExtends(check, p, calls, b, t);
      var f := DecFunction(check, p, calls, b);
      if f.Ok? { FunctionsExtends(check, n - 1, p, calls, f.rest, t); }
    }
  }

  lemma ChunkExtends(check: Proto -> bool, calls: nat, b: bytes, t: bytes)
    ensures Extends(DecChunk(check, calls, b), DecChunk(check, calls, b + t), t)
  {
    hide DecFunction;
    BlockExtends(|HEADER|, b, t);
    var h := DecBlock(|HEADER|, b);
    if h.Ok? { FunctionExtends(check, Some(UNKNOWN), calls, h.rest, t); }
  }

  /** Whatever loads, and uses all of its bytes, does not load without the last
      of them. */
  lemma CutShort(check: Proto -> bool, calls: nat, b: bytes, n: nat)
    requires DecChunk(check, calls, b).Ok? && DecChunk(check, calls, b).rest == [] && n < |b|
    ensures DecChunk(check, calls, b[..n]) == Bad(UnexpectedEnd)
  {
    hide DecChunk;
    assert b == b[..n] + b[n..];
    ChunkExtends(check, calls, b[..n], b[n..]);
  }

  /** A dumped chunk, stripped or not, that is cut short anywhere. */
  lemma ChunkCutShort(check: Proto -> bool, f: Proto, strip: bool, calls: nat, n: nat)
    requires calls < 200 && Fits(f, 200 - calls) && Checked(check, Rebuilt(f, None, Some(UNKNOWN), strip))
    requires n < |EncChunk(f, strip)|
    ensures DecChunk(check, calls, EncChunk(f, strip)[..n]) == Bad(UnexpectedEnd)
  {
    hide EncFunction, DecFunction, Rebuilt, Fits, Checked;
    var b := EncFunction(f, None, strip);
    assert EncChunk(f, strip) == HEADER + b && b + [] == b;
    BlockRound(HEADER, b);
    FunctionRound(check, f, None, Some(UNKNOWN), strip, calls, []);
    CutShort(check, calls, EncChunk(f, strip), n);
  }

  // ---------------------------------------------------------------------
  // Other chunks that are refused

  /** A first block other than the header, and too many nested calls. */
  lemma HeaderRefused(check: Proto -> bool, calls: nat, b: bytes)
    requires |b| >= 12
    ensures b[..12] != [27, 76, 117, 97, 0x51, 0, 1, 4, 4, 4, 8, 0] ==> DecChunk(check, calls, b) == Bad(BadHeader)
    ensures b[..12] == [27, 76, 117, 97, 0x51, 0, 1, 4, 4, 4, 8, 0] && calls >= 200 ==> DecChunk(check, calls, b) == Bad(TooDeep)
  {}

  /** A constant of another type than nil, boolean, number and string, and a
      negative count. */
  lemma ValueRefused(t: byte, n: nat, rest: bytes)
    ensures t != 0 && t != 1 && t != 3 && t != 4 ==> DecConst([t] + rest) == Bad(BadConstant)
    ensures 0x8000_0000 <= n < 0x1_0000_0000 ==> DecInt(Word(n) + rest) == Bad(BadInteger)
  {
    assert ([t] + rest)[..1] == [t];
    if 0x8000_0000 <= n < 0x1_0000_0000 {
      WordBytes(n);
      PowFour();
      WordRound(n, 4, rest);
    }
  }

  /** Code that the check refuses. */
  lemma CodeRefused(check: Proto -> bool, p: Option<bytes>, calls: nat, b: bytes)
    ensures DecFunction(check, p, calls, b).Ok? ==> check(DecFunction(check, p, calls, b).value)
  {}
}
