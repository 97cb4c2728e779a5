/** How string literals are written, and what each way of writing reads as. */
module LuaStringText {
  import opened Options
  import opened Chunk
  import opened LuaQuote

  /** The pieces of a literal between its delimiters.  `Triple`, `Pair` and
      `Digit` are decimal escapes, `Control` is an escape by a letter, counted
      from BEL on, and `Break` an escaped newline, of one or two bytes. */
  datatype Piece =
    | Plain(c: byte)
    | Triple(n: byte)
    | Pair(n: byte)
    | Digit(n: byte)
    | Control(k: nat)
    | Escaped(c: byte)
    | Break(c: byte)
    | DoubleBreak(c: byte)

  /** The letters of `abtnvfr`. */
  const CONTROLS: bytes := [97, 98, 116, 110, 118, 102, 114]

  function PieceText(p: Piece): (t: bytes) {
    match p
    case Plain(c) => [c]
    case Triple(n) => [92, 48 + n / 100, 48 + n / 10 % 10, 48 + n % 10]
    case Pair(n) => if n < 100 then [92, 48 + n / 10, 48 + n % 10] else []
    case Digit(n) => if n < 10 then [92, 48 + n] else []
    case Control(k) => if k < 7 then [92, CONTROLS[k]] else []
    case Escaped(c) => [92, c]
    case Break(c) => [92, c]
    case DoubleBreak(c) => [92, c, if c == 10 then 13 else 10]
  }

  function PieceValue(p: Piece): (v: byte) {
    match p
    case Plain(c) => c
    case Triple(n) => n
    case Pair(n) => n
    case Digit(n) => n
    case Control(k) => if k < 7 then 7 + k else 0
    case Escaped(c) => c
    case Break(_) => 10
    case DoubleBreak(_) => 10
  }

  predicate DigitByte(c: byte) { 48 <= c <= 57 }

  predicate BreakByte(c: byte) { c == 10 || c == 13 }

  predicate Written(p: Piece, del: byte) {
    match p
    case Plain(c) => c != del && c != 92 && !BreakByte(c)
    case Triple(_) => true
    case Pair(n) => n < 100
    case Digit(n) => n < 10
    case Control(k) => k < 7
    case Escaped(c) => c !in CONTROLS && !BreakByte(c) && !DigitByte(c)
    case Break(c) => BreakByte(c)
    case DoubleBreak(c) => BreakByte(c)
  }

  /** A short decimal escape ends before a byte that is no digit, and an escaped
      newline before one that does not make a pair with it. */
  predicate Before(p: Piece, u: bytes) {
    match p
    case Pair(_) => u == [] || !DigitByte(u[0])
    case Digit(_) => u == [] || !DigitByte(u[0])
    case Break(c) => u == [] || !BreakByte(u[0]) || u[0] == c
    case _ => true
  }

  /** `l`, written before `u`. */
  predicate AllWritten(l: seq<Piece>, del: byte, u: bytes) {
    l == [] || (Written(l[0], del) && AllWritten(l[1..], del, u) && Before(l[0], Text(l[1..]) + u))
  }

  function Text(l: seq<Piece>): (t: bytes) {
    if l == [] then [] else PieceText(l[0]) + Text(l[1..])
  }

  function Values(l: seq<Piece>): (v: bytes) {
    if l == [] then [] else [PieceValue(l[0])] + Values(l[1..])
  }

  function Breaks(l: seq<Piece>): nat {
    if l == [] then 0 else (if l[0].Break? || l[0].DoubleBreak? then 1 else 0) + Breaks(l[1..])
  }

  // ---------------------------------------------------------------------
  // Reading one piece

  function Number(a: int, b: int, c: int): int { 100 * (a - 48) + 10 * (b - 48) + (c - 48) }

  lemma DigitsValue(a: byte, b: byte, c: byte)
    requires DigitByte(a) && DigitByte(b) && DigitByte(c)
    ensures Decimal([a]) == Number(48, 48, a)
    ensures Decimal([a, b]) == Number(48, a, b)
    ensures Decimal([a, b, c]) == Number(a, b, c)
  {
    assert [a][..0] == [] && [a, b][..1] == [a] && [a, b, c][..2] == [a, b];
    assert Decimal([]) == 0;
  }

  lemma LetterIs(c: byte)
    ensures Letter(c).Some? <==> c in CONTROLS
    ensures forall k :: 0 <= k < 7 ==> Letter(CONTROLS[k]).Some? && Letter(CONTROLS[k]).value == 7 + k
  {
    assert CONTROLS[0] == 97 && CONTROLS[1] == 98 && CONTROLS[2] == 116 && CONTROLS[3] == 110;
    assert CONTROLS[4] == 118 && CONTROLS[5] == 102 && CONTROLS[6] == 114;
  }

  /** A decimal escape. */
  lemma DigitsEscape(d: bytes, u: bytes, del: byte, line: int, acc: bytes)
    requires del == 34 || del == 39
    requires 1 <= |d| <= 3 && forall i :: 0 <= i < |d| ==> IsDigit(d[i])
    requires |d| < 3 && u != [] ==> !DigitByte(u[0])
    ensures var c := Decimal(d);
      ReadRest([92] + d + u, del, line, acc) == if c > 255 then Error(EscapeTooLarge) else ReadRest(u, del, line, acc + [c])
  {
    hide Decimal, ReadRest;
    var t := [92] + d + u;
    AtBackslash(t, del, line, acc);
    LetterIs(d[0]);
    var v := t[1..];
    assert v == d + u && v[..|d|] == d && v[|d|..] == u && t[1] == d[0];
    assert Digits(v) == |d|;
  }

  lemma ReadsPiece(p: Piece, u: bytes, del: byte, line: int, acc: bytes)
    requires del == 34 || del == 39
    requires Written(p, del) && Before(p, u)
    requires p.Break? || p.DoubleBreak? ==> line + 1 < 0x7FFF_FFFD
    ensures ReadRest(PieceText(p) + u, del, line, acc) ==
            ReadRest(u, del, if p.Break? || p.DoubleBreak? then line + 1 else line, acc + [PieceValue(p)])
  {
    match p
    case Plain(c) => assert ([c] + u)[1..] == u;
    case Triple(n) => ReadsDecimal(p, u, del, line, acc);
    case Pair(n) => ReadsDecimal(p, u, del, line, acc);
    case Digit(n) => ReadsDecimal(p, u, del, line, acc);
    case Control(k) => ReadsLetter(CONTROLS[k], u, del, line, acc);
    case Escaped(c) => ReadsLetter(c, u, del, line, acc);
    case Break(c) => BreakStep([92, c] + u, u, c, del, line, acc);
    case DoubleBreak(c) => BreakStep([92, c, if c == 10 then 13 else 10] + u, u, c, del, line, acc);
  }

  lemma ReadsLetter(c: byte, u: bytes, del: byte, line: int, acc: bytes)
    requires (del == 34 || del == 39) && !BreakByte(c) && !DigitByte(c)
    ensures c !in CONTROLS ==> ReadRest([92, c] + u, del, line, acc) == ReadRest(u, del, line, acc + [c])
    ensures forall k :: 0 <= k < 7 && c == CONTROLS[k] ==>
              ReadRest([92, c] + u, del, line, acc) == ReadRest(u, del, line, acc + [7 + k])
  {
    LetterIs(c);
    AtBackslash([92, c] + u, del, line, acc);
    assert ([92, c] + u)[2..] == u;
  }

  lemma NumberOfDigits(n: byte)
    ensures var a, b, c := 48 + n / 100, 48 + n / 10 % 10, 48 + n % 10;
      && DigitByte(a) && DigitByte(b) && DigitByte(c)
      && Number(a, b, c) == n
      && (n < 100 ==> b == 48 + n / 10 && Number(48, b, c) == n)
      && (n < 10 ==> c == 48 + n && Number(48, 48, c) == n)
  {}

  lemma ReadsDecimal(p: Piece, u: bytes, del: byte, line: int, acc: bytes)
    requires del == 34 || del == 39
    requires Written(p, del) && Before(p, u) && (p.Triple? || p.Pair? || p.Digit?)
    ensures ReadRest(PieceText(p) + u, del, line, acc) == ReadRest(u, del, line, acc + [PieceValue(p)])
  {
    hide *;
    var d := DecimalForm(p, del, u);
    DigitsEscape(d, u, del, line, acc);
  }

  lemma DecimalForm(p: Piece, del: byte, u: bytes) returns (d: bytes)
    requires Written(p, del) && Before(p, u) && (p.Triple? || p.Pair? || p.Digit?)
    ensures 1 <= |d| <= 3 && (forall i :: 0 <= i < |d| ==> IsDigit(d[i])) && PieceText(p) == [92] + d
    ensures Decimal(d) == PieceValue(p) <= 255
    ensures |d| < 3 && u != [] ==> !DigitByte(u[0])
  {
    hide Decimal, Number;
    var n := p.n;
    var a, b, c := 48 + n / 100, 48 + n / 10 % 10, 48 + n % 10;
    NumberOfDigits(n);
    match p
    case Triple(_) => d := [a, b, c]; DigitsValue(a, b, c);
    case Pair(_) => d := [b, c]; DigitsValue(b, c, c);
    case Digit(_) => d := [c]; DigitsValue(c, c, c);
  }

  lemma BreakStep(t: bytes, u: bytes, c: byte, del: byte, line: int, acc: bytes)
    requires del == 34 || del == 39
    requires BreakByte(c) && line + 1 < 0x7FFF_FFFD
    requires (t == [92, c] + u && (u == [] || !BreakByte(u[0]) || u[0] == c))
             || t == [92, c, if c == 10 then 13 else 10] + u
    ensures ReadRest(t, del, line, acc) == ReadRest(u, del, line + 1, acc + [10])
  {
    LetterIs(c);
    AtBackslash(t, del, line, acc);
    assert AfterNewline(t[1..]) == u;
  }

  // ---------------------------------------------------------------------
  // Reading a literal

  lemma {:induction false} ReadsPieces(l: seq<Piece>, u: bytes, del: byte, line: int, acc: bytes)
    requires del == 34 || del == 39
    requires AllWritten(l, del, u) && line + Breaks(l) < 0x7FFF_FFFD
    ensures ReadRest(Text(l) + u, del, line, acc) == ReadRest(u, del, line + Breaks(l), acc + Values(l))
    decreases |l|
  {
    hide ReadRest, PieceText, PieceValue, Written, Before;
    if l == [] {
      assert [] + u == u && acc + [] == acc;
    } else {
      var p, v := l[0], Text(l[1..]) + u;
      assert Text(l) + u == PieceText(p) + v;
      var line1 := if p.Break? || p.DoubleBreak? then line + 1 else line;
      ReadsPiece(p, v, del, line, acc);
      ReadsPieces(l[1..], u, del, line1, acc + [PieceValue(p)]);
      assert acc + [PieceValue(p)] + Values(l[1..]) == acc + Values(l);
    }
  }

  /** The front of a text that reads on: one piece, and what follows it. */
  lemma FrontPiece(t: bytes, del: byte, line: int, acc: bytes) returns (p: Piece, u: bytes)
    requires del == 34 || del == 39
    requires t != [] && t[0] != del && ReadRest(t, del, line, acc).Token?
    ensures Written(p, del) && Before(p, u) && t == PieceText(p) + u && |u| < |t|
    ensures p.Break? || p.DoubleBreak? ==> line + 1 < 0x7FFF_FFFD
  {
    if t[0] != 92 {
      p, u := Plain(t[0]), t[1..];
    } else {
      AtBackslash(t, del, line, acc);
      assert ReadRest([], del, line, acc).Error?;
      var c := t[1];
      LetterIs(c);
      if c in CONTROLS {
        var k :| 0 <= k < |CONTROLS| && CONTROLS[k] == c;
        p, u := Control(k), t[2..];
        assert t == [92, c] + u;
      } else if BreakByte(c) {
        if |t| > 2 && BreakByte(t[2]) && t[2] != c {
          p, u := DoubleBreak(c), t[3..];
        } else {
          p, u := Break(c), t[2..];
        }
      } else if DigitByte(c) {
        p, u := FrontDecimal(t, del, line, acc);
      } else {
        p, u := Escaped(c), t[2..];
      }
    }
  }

  lemma FrontDecimal(t: bytes, del: byte, line: int, acc: bytes) returns (p: Piece, u: bytes)
    requires del == 34 || del == 39
    requires |t| > 1 && t[0] == 92 && DigitByte(t[1]) && ReadRest(t, del, line, acc).Token?
    ensures !p.Break? && !p.DoubleBreak? && Written(p, del) && Before(p, u) && t == PieceText(p) + u && |u| < |t|
  {
    hide ReadRest, Decimal, Number;
    var a := t[1];
    if |t| == 2 || !DigitByte(t[2]) {
      u := t[2..];
      NumberDigits(48, 48, a);
      p := Digit(Number(48, 48, a));
      assert t == [92, a] + u;
    } else if |t| == 3 || !DigitByte(t[3]) {
      var b := t[2];
      u := t[3..];
      NumberDigits(48, a, b);
      p := Pair(Number(48, a, b));
      assert t == [92, a, b] + u;
    } else {
      var b, c := t[2], t[3];
      u := t[4..];
      NumberDigits(a, b, c);
      DigitsValue(a, b, c);
      assert t == [92] + [a, b, c] + u && t == [92, a, b, c] + u;
      DigitsEscape([a, b, c], u, del, line, acc);
      p := Triple(Number(a, b, c));
    }
  }

  lemma NumberDigits(a: byte, b: byte, c: byte)
    requires DigitByte(a) && DigitByte(b) && DigitByte(c)
    ensures var n := Number(a, b, c);
      && n >= 0 && 48 + n / 100 == a && 48 + n / 10 % 10 == b && 48 + n % 10 == c
      && (a == 48 ==> n < 100 && 48 + n / 10 == b) && (a == 48 && b == 48 ==> n < 10 && 48 + n == c)
  {
    var n, m := Number(a, b, c), 10 * (a - 48) + (b - 48);
    assert n == 10 * m + (c - 48);
    assert n / 10 == m && n % 10 == c - 48;
    assert m / 10 == a - 48 && m % 10 == b - 48;
    assert n / 100 == a - 48;
  }

  function LineAfter(p: Piece, line: int): int { if p.Break? || p.DoubleBreak? then line + 1 else line }

  /** `l` are the pieces from `t` on to where `r` has come. */
  ghost predicate PiecesTo(l: seq<Piece>, t: bytes, del: byte, line: int, acc: bytes, r: Read)
    requires r.Token?
  {
    && AllWritten(l, del, [del] + r.rest) && t == Text(l) + ([del] + r.rest)
    && line + Breaks(l) < 0x7FFF_FFFD && r.s == acc + Values(l) && r.line == line + Breaks(l)
  }

  lemma NoPieces(t: bytes, del: byte, line: int, acc: bytes)
    requires line < 0x7FFF_FFFD && ReadRest(t, del, line, acc).Token?
    ensures t != []
    ensures t[0] == del ==> PiecesTo([], t, del, line, acc, ReadRest(t, del, line, acc))
  {
    assert t == [] ==> ReadRest(t, del, line, acc).Error?;
    if t[0] == del { assert t == [] + ([del] + t[1..]) && acc + [] == acc; }
  }

  lemma ConsPieces(p: Piece, l: seq<Piece>, u: bytes, del: byte, line: int, acc: bytes, r: Read)
    requires r.Token? && PiecesTo(l, u, del, LineAfter(p, line), acc + [PieceValue(p)], r)
    requires Written(p, del) && Before(p, u)
    ensures PiecesTo([p] + l, PieceText(p) + u, del, line, acc, r)
  {
    hide Written, PieceText, PieceValue, Before;
    assert ([p] + l)[1..] == l;
    assert acc + [PieceValue(p)] + Values(l) == acc + Values([p] + l);
    assert PieceText(p) + (Text(l) + ([del] + r.rest)) == Text([p] + l) + ([del] + r.rest);
  }

  /** The pieces of a text that is read to the delimiter. */
  lemma {:induction false} PiecesOf(t: bytes, del: byte, line: int, acc: bytes) returns (l: seq<Piece>)
    requires del == 34 || del == 39
    requires line < 0x7FFF_FFFD && ReadRest(t, del, line, acc).Token?
    ensures PiecesTo(l, t, del, line, acc, ReadRest(t, del, line, acc))
    decreases |t|
  {
    hide *;
    NoPieces(t, del, line, acc);
    if t[0] == del {
      l := [];
    } else {
      var p, u := FrontPiece(t, del, line, acc);
      ReadsPiece(p, u, del, line, acc);
      AfterIs(p, line);
      var rest := PiecesOf(u, del, LineAfter(p, line), acc + [PieceValue(p)]);
      ConsPieces(p, rest, u, del, line, acc, ReadRest(t, del, line, acc));
      l := [p] + rest;
    }
  }

  lemma AfterIs(p: Piece, line: int)
    ensures LineAfter(p, line) == if p.Break? || p.DoubleBreak? then line + 1 else line
  {}

  ghost predicate Writes(l: seq<Piece>, t: bytes, line: int, s: bytes, rest: bytes, line1: int)
    requires t != []
  {
    var u := [t[0]] + rest;
    AllWritten(l, t[0], u) && t[1..] == Text(l) + u && s == Values(l) && line1 == line + Breaks(l) < 0x7FFF_FFFD
  }

  /** A text is read as `s` exactly if it is written in pieces that stand for
      the bytes of `s`, one after the other. */
  lemma LiteralExact(t: bytes, line: int, s: bytes, rest: bytes, line1: int)
    requires t != [] && (t[0] == 34 || t[0] == 39) && line < 0x7FFF_FFFD
    ensures ReadText(t, line) == Token(s, rest, line1) <==> exists l :: Writes(l, t, line, s, rest, line1)
  {
    hide ReadRest;
    if ReadText(t, line) == Token(s, rest, line1) {
      var l := PiecesOf(t[1..], t[0], line, []);
      assert [] + Values(l) == Values(l);
      assert Writes(l, t, line, s, rest, line1);
    }
    if l :| Writes(l, t, line, s, rest, line1) { WritesRead(l, t, line, s, rest, line1); }
  }

  lemma WritesRead(l: seq<Piece>, t: bytes, line: int, s: bytes, rest: bytes, line1: int)
    requires t != [] && (t[0] == 34 || t[0] == 39) && Writes(l, t, line, s, rest, line1)
    ensures ReadText(t, line) == Token(s, rest, line1)
  {
    hide ReadRest, AllWritten;
    var del := t[0];
    ReadsPieces(l, [del] + rest, del, line, []);
    assert [] + Values(l) == Values(l);
    AtDelimiter(rest, del, line1, s);
  }

  /** What goes wrong behind pieces that are all right. */
  lemma LiteralErrors(l: seq<Piece>, u: bytes, del: byte, line: int)
    requires del == 34 || del == 39
    requires AllWritten(l, del, u) && line + Breaks(l) < 0x7FFF_FFFD
    ensures Wrong(u, line + Breaks(l)).Some? ==>
              ReadText([del] + Text(l) + u, line) == Error(Wrong(u, line + Breaks(l)).value)
  {
    hide ReadRest;
    assert ([del] + Text(l) + u)[1..] == Text(l) + u;
    ReadsPieces(l, u, del, line, []);
    if Wrong(u, line + Breaks(l)).Some? { WrongRead(u, del, line + Breaks(l), [] + Values(l)); }
  }

  function Wrong(u: bytes, line: int): Option<LexError> {
    if u == [] || u == [92] then Some(Unfinished)
    else if BreakByte(u[0]) then Some(UnfinishedLine)
    else if |u| > 1 && u[0] == 92 && BreakByte(u[1]) && line + 1 >= 0x7FFF_FFFD then Some(TooManyLines)
    else if |u| > 3 && u[0] == 92 && DigitByte(u[1]) && DigitByte(u[2]) && DigitByte(u[3])
            && Number(u[1], u[2], u[3]) > 255 then Some(EscapeTooLarge)
    else None
  }

  lemma WrongRead(u: bytes, del: byte, line: int, acc: bytes)
    requires (del == 34 || del == 39) && Wrong(u, line).Some?
    ensures ReadRest(u, del, line, acc) == Error(Wrong(u, line).value)
  {
    if |u| > 1 && u[0] == 92 {
      LetterIs(u[1]);
      AtBackslash(u, del, line, acc);
      if DigitByte(u[1]) {
        DigitsValue(u[1], u[2], u[3]);
        assert u == [92] + [u[1], u[2], u[3]] + u[4..];
        DigitsEscape([u[1], u[2], u[3]], u[4..], del, line, acc);
      }
    }
  }

  // ---------------------------------------------------------------------
  // Every byte by its number, and the form of addquoted

  function Numbers(s: bytes): (t: bytes) {
    if s == [] then [] else [92, 48 + s[0] / 100, 48 + s[0] / 10 % 10, 48 + s[0] % 10] + Numbers(s[1..])
  }

  lemma {:induction false} NumbersPieces(s: bytes, del: byte, u: bytes) returns (l: seq<Piece>)
    ensures AllWritten(l, del, u) && Text(l) == Numbers(s) && Values(l) == s && Breaks(l) == 0
    decreases |s|
  {
    l := [];
    if s != [] {
      var rest := NumbersPieces(s[1..], del, u);
      l := [Triple(s[0])] + rest;
      assert l[1..] == rest;
    }
  }

  /** Any string can be written by its numbers alone. */
  lemma NumbersRead(s: bytes, tail: bytes, del: byte, line: int)
    requires (del == 34 || del == 39) && line < 0x7FFF_FFFD
    ensures ReadText([del] + Numbers(s) + [del] + tail, line) == Token(s, tail, line)
  {
    hide ReadRest, Numbers;
    var u := [del] + tail;
    var l := NumbersPieces(s, del, u);
    ReadsPieces(l, u, del, line, []);
    assert ([del] + Numbers(s) + [del] + tail)[1..] == Numbers(s) + u;
    assert [] + s == s;
    AtDelimiter(tail, del, line, s);
  }

  lemma AtDelimiter(tail: bytes, del: byte, line: int, acc: bytes)
    ensures ReadRest([del] + tail, del, line, acc) == Token(acc, tail, line)
  {
    assert ([del] + tail)[1..] == tail;
  }

  lemma {:induction false} QuotedSum(s: bytes, t: bytes)
    ensures QuoteAll(s + t) == QuoteAll(s) + QuoteAll(t)
    decreases |s|
  {
    hide QuoteByte;
    if s == [] {
      assert [] + t == t;
    } else {
      QuotedSum(s[1..], t);
      assert (s + t)[0] == s[0] && (s + t)[1..] == s[1..] + t;
    }
  }

  /** addquoted writes the bytes one by one, and most of them as they are. */
  lemma QuotedForm(s: bytes, c: byte, t: bytes)
    ensures Quoted(s + [c] + t) ==
              Quoted(s)[..|Quoted(s)| - 1]
              + (if c == 34 || c == 92 || c == 10 then [92, c] else if c == 13 then [92, 114]
                 else if c == 0 then [92, 48, 48, 48] else [c])
              + Quoted(t)[1..]
    ensures Quoted([]) == [34, 34]
  {
    hide QuoteByte, QuoteAll;
    QuotedOne(c);
    QuotedSum(s + [c], t);
    QuotedSum(s, [c]);
    var q := QuoteAll([c]);
    assert Quoted(s)[..|Quoted(s)| - 1] == [34] + QuoteAll(s);
    assert Quoted(t)[1..] == QuoteAll(t) + [34];
    assert Quoted(s + [c] + t) == [34] + QuoteAll(s) + q + (QuoteAll(t) + [34]);
  }

  lemma QuotedOne(c: byte)
    ensures QuoteAll([]) == []
    ensures QuoteAll([c]) == if c == 34 || c == 92 || c == 10 then [92, c] else if c == 13 then [92, 114]
                             else if c == 0 then [92, 48, 48, 48] else [c]
  {
    assert [c][1..] == [] && QuoteAll([c]) == QuoteByte(c);
  }
}
