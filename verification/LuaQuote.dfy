/** The `%q` format of lstrlib.c, and the reading of strings in llex.c, which
    undoes it. */
module LuaQuote {
  import opened Limits
  import opened Options
  import opened Chunk
  import ChunkIO

  const QUOTE: byte := 34
  const APOSTROPHE: byte := 39
  const BACKSLASH: byte := 92
  const NEWLINE: byte := 10
  const RETURN: byte := 13
  const ZERO: byte := 48

  const UCHAR_MAX: nat := 255

  predicate IsNewline(c: int) { c == NEWLINE || c == RETURN }

  predicate IsDigit(c: int) { ZERO <= c <= ZERO + 9 }

  // ---------------------------------------------------------------------
  // Writing

  function QuoteByte(c: byte): bytes {
    if c == QUOTE || c == BACKSLASH || c == NEWLINE then [BACKSLASH, c]
    else if c == RETURN then [BACKSLASH, 114]
    else if c == 0 then [BACKSLASH, ZERO, ZERO, ZERO]
    else [c]
  }

  function QuoteAll(s: bytes): bytes { if s == [] then [] else QuoteByte(s[0]) + QuoteAll(s[1..]) }

  function Quoted(s: bytes): bytes { [QUOTE] + QuoteAll(s) + [QUOTE] }

  lemma {:induction false} QuoteMore(s: bytes, c: byte)
    ensures QuoteAll(s + [c]) == QuoteAll(s) + QuoteByte(c)
  {
    if s == [] {
      assert s + [c] == [c];
      assert QuoteAll([c]) == QuoteByte(c) + QuoteAll([]);
    } else {
      QuoteMore(s[1..], c);
      assert (s + [c])[1..] == s[1..] + [c];
    }
  }

  /** The switch of addquoted. */
  method AddByte(b0: bytes, c: byte) returns (b: bytes)
    ensures b == b0 + QuoteByte(c)
  {
    b := b0;
    if c == QUOTE || c == BACKSLASH || c == NEWLINE {
      b := b + [BACKSLASH];
      b := b + [c];
    } else if c == RETURN {
      b := b + [BACKSLASH, 114];
    } else if c == 0 {
      b := b + [BACKSLASH, ZERO, ZERO, ZERO];
    } else {
      b := b + [c];
    }
  }

  lemma NothingQuoted(s: bytes)
    ensures QuoteAll(s[..0]) == []
  {
  }

  /** addquoted, onto the end of a buffer. */
  method AddQuoted(b0: bytes, s: bytes) returns (b: bytes)
    ensures b == b0 + Quoted(s)
  {
    hide QuoteAll, QuoteByte;
    b := b0 + [QUOTE];
    NothingQuoted(s);
    var i := 0;
    while i < |s|
      invariant 0 <= i <= |s|
      invariant b == b0 + [QUOTE] + QuoteAll(s[..i])
    {
      b := AddByte(b, s[i]);
      QuoteMore(s[..i], s[i]);
      assert s[..i + 1] == s[..i] + [s[i]];
      i := i + 1;
    }
    assert s[..i] == s;
    b := b + [QUOTE];
  }

  // ---------------------------------------------------------------------
  // Reading, as a function of the bytes from the current one on

  datatype LexError = Unfinished | UnfinishedLine | EscapeTooLarge | TooManyLines

  /** A string that was read: its bytes, the bytes left over and the line
      number, or an error. */
  datatype Read = Token(s: bytes, rest: bytes, line: int) | Error(e: LexError)

  function AfterNewline(t: bytes): bytes
    requires t != [] && IsNewline(t[0])
  {
    if |t| > 1 && IsNewline(t[1]) && t[1] != t[0] then t[2..] else t[1..]
  }

  /** The byte that a letter stands for after a backslash. */
  function Letter(c: byte): Option<byte> {
    if c == 97 then Some(7)
    else if c == 98 then Some(8)
    else if c == 102 then Some(12)
    else if c == 110 then Some(NEWLINE)
    else if c == 114 then Some(RETURN)
    else if c == 116 then Some(9)
    else if c == 118 then Some(11)
    else None
  }

  /** How many digits, of three at most, stand at the front. */
  function Digits(t: bytes): (n: nat)
    ensures n <= 3 && n <= |t| && forall i :: 0 <= i < n ==> IsDigit(t[i])
  {
    if t == [] || !IsDigit(t[0]) then 0
    else if |t| == 1 || !IsDigit(t[1]) then 1
    else if |t| == 2 || !IsDigit(t[2]) then 2
    else 3
  }

  function Decimal(t: bytes): (n: nat)
    requires forall i :: 0 <= i < |t| ==> IsDigit(t[i])
  {
    if t == [] then 0
    else
      var d := t[|t| - 1];
      assert IsDigit(d);
      10 * Decimal(t[..|t| - 1]) + (d - ZERO)
  }

  /** The loop of read_string. */
  function ReadRest(t: bytes, del: byte, line: int, s: bytes): (r: Read)
    decreases |t|
  {
    if t == [] then Error(Unfinished)
    else if t[0] == del then Token(s, t[1..], line)
    else if IsNewline(t[0]) then Error(UnfinishedLine)
    else if t[0] != BACKSLASH then ReadRest(t[1..], del, line, s + [t[0]])
    else if |t| == 1 then Error(Unfinished)
    else if Letter(t[1]).Some? then ReadRest(t[2..], del, line, s + [Letter(t[1]).value])
    else if IsNewline(t[1]) then
      if line + 1 >= MAX_INT then Error(TooManyLines)
      else ReadRest(AfterNewline(t[1..]), del, line + 1, s + [NEWLINE])
    else if IsDigit(t[1]) then
      var n := Digits(t[1..]);
      var c := Decimal(t[1..][..n]);
      if c > UCHAR_MAX then Error(EscapeTooLarge) else ReadRest(t[1 + n..], del, line, s + [c])
    else ReadRest(t[2..], del, line, s + [t[1]])
  }

  /** The cases of a backslash. */
  lemma AtBackslash(t: bytes, del: byte, line: int, s: bytes)
    requires t != [] && t[0] == BACKSLASH && del != BACKSLASH
    ensures var r := ReadRest(t, del, line, s);
      if |t| == 1 then r == ReadRest([], del, line, s)
      else if Letter(t[1]).Some? then r == ReadRest(t[2..], del, line, s + [Letter(t[1]).value])
      else if IsNewline(t[1]) then
        r == if line + 1 >= MAX_INT then Error(TooManyLines)
             else ReadRest(AfterNewline(t[1..]), del, line + 1, s + [NEWLINE])
      else if IsDigit(t[1]) then
        var n := Digits(t[1..]);
        var c := Decimal(t[1..][..n]);
        r == if c > UCHAR_MAX then Error(EscapeTooLarge) else ReadRest(t[1..][n..], del, line, s + [c])
      else r == ReadRest(t[2..], del, line, s + [t[1]])
  {
    if |t| > 1 { assert t[1..][Digits(t[1..])..] == t[1 + Digits(t[1..])..]; }
  }

  // ---------------------------------------------------------------------
  // The round trip

  function Newlines(s: bytes): nat { if s == [] then 0 else (if s[0] == NEWLINE then 1 else 0) + Newlines(s[1..]) }

  /** One byte is written and read back. */
  lemma ReadsByte(c: byte, t: bytes, line: int, s: bytes)
    requires t != [] && t[0] != RETURN
    ensures ReadRest(QuoteByte(c) + t, QUOTE, line, s) ==
            if c != NEWLINE then ReadRest(t, QUOTE, line, s + [c])
            else if line + 1 >= MAX_INT then Error(TooManyLines)
            else ReadRest(t, QUOTE, line + 1, s + [c])
  {
    var u := QuoteByte(c) + t;
    assert u[|QuoteByte(c)|..] == t;
    if c == NEWLINE {
      assert AfterNewline(u[1..]) == t;
    } else if c == 0 {
      assert u[1..][..3] == [ZERO, ZERO, ZERO] && Digits(u[1..]) == 3;
      assert Decimal([ZERO, ZERO, ZERO]) == 0 by {
        assert [ZERO, ZERO, ZERO][..2] == [ZERO, ZERO] && [ZERO, ZERO][..1] == [ZERO] && [ZERO][..0] == [];
        assert Decimal([]) == 0 && Decimal([ZERO]) == 0 && Decimal([ZERO, ZERO]) == 0;
      }
    }
  }

  lemma {:induction false} ReadsAll(s: bytes, tail: bytes, line: int, acc: bytes)
    requires line < MAX_INT
    ensures ReadRest(QuoteAll(s) + [QUOTE] + tail, QUOTE, line, acc) ==
            if line + Newlines(s) < MAX_INT then Token(acc + s, tail, line + Newlines(s)) else Error(TooManyLines)
  {
    if s == [] {
      assert QuoteAll(s) + [QUOTE] + tail == [QUOTE] + tail;
      assert acc + s == acc;
    } else {
      var t := QuoteAll(s[1..]) + [QUOTE] + tail;
      assert QuoteAll(s) + [QUOTE] + tail == QuoteByte(s[0]) + t;
      ReadsByte(s[0], t, line, acc);
      assert acc + [s[0]] + s[1..] == acc + s;
      if s[0] != NEWLINE {
        ReadsAll(s[1..], tail, line, acc + [s[0]]);
      } else if line + 1 < MAX_INT {
        ReadsAll(s[1..], tail, line + 1, acc + [s[0]]);
      }
    }
  }

  /** What read_string makes of a text that begins with a delimiter. */
  function ReadText(t: bytes, line: int): Read
    requires t != []
  {
    ReadRest(t[1..], t[0], line, [])
  }

  /** Reading a quoted string gives it back and stops behind the quote, whatever
      follows, just when the line numbers do not run out. */
  lemma QuoteRoundTrip(s: bytes, tail: bytes, line: int)
    requires line < MAX_INT
    ensures ReadText(Quoted(s) + tail, line) ==
            if line + Newlines(s) < MAX_INT then Token(s, tail, line + Newlines(s)) else Error(TooManyLines)
  {
    assert (Quoted(s) + tail)[1..] == QuoteAll(s) + [QUOTE] + tail;
    ReadsAll(s, tail, line, []);
    assert [] + s == s;
  }

  /** Different strings are quoted differently. */
  lemma QuotedApart(s: bytes, t: bytes)
    requires Quoted(s) == Quoted(t)
    ensures s == t
  {
    var line := 0 - Newlines(s) - Newlines(t);
    assert Quoted(s) + [] == Quoted(t) + [];
    QuoteRoundTrip(s, [], line);
    QuoteRoundTrip(t, [], line);
  }

  // ---------------------------------------------------------------------
  // The lexer in place

  datatype Result = Done(s: bytes) | Failed(e: LexError)

  class LexState {
    const z: ChunkIO.ZIO
    var current: int
    var linenumber: int
    var buff: bytes

    ghost predicate Valid()
      reads this, z
    {
      z.Valid() && (current == ChunkIO.EOZ || 0 <= current < 256)
    }

    /** The bytes from the current one on. */
    ghost function Text(): bytes
      reads this, z
      requires Valid()
    {
      if current == ChunkIO.EOZ then [] else [current] + z.Rest()
    }

    constructor (z: ChunkIO.ZIO)
      requires z.Valid()
      modifies z
      ensures Valid() && Text() == old(z.Rest()) && linenumber == 1 && this.z == z && buff == []
    {
      this.z := z;
      linenumber := 1;
      buff := [];
      current := ChunkIO.EOZ;
      new;
      Next1();
    }

    method Next1()
      requires z.Valid()
      modifies `current, z
      ensures Valid() && Text() == old(z.Rest())
    {
      current := z.Zgetc();
    }

    /** next */
    method Next()
      requires Valid() && current != ChunkIO.EOZ
      modifies `current, z
      ensures Valid() && Text() == old(Text())[1..]
    {
      current := z.Zgetc();
    }

    /** save */
    method Save(c: byte)
      modifies `buff
      ensures buff == old(buff) + [c]
    {
      buff := buff + [c];
    }

    method SaveAndNext()
      requires Valid() && current != ChunkIO.EOZ
      modifies `current, `buff, z
      ensures Valid() && Text() == old(Text())[1..] && buff == old(buff) + [old(Text())[0]]
    {
      Save(current);
      Next();
    }

    method IncLineNumber() returns (ok: bool)
      requires Valid() && IsNewline(current)
      modifies `current, `linenumber, z
      ensures Valid() && Text() == AfterNewline(old(Text()))
      ensures linenumber == old(linenumber) + 1 && ok == (linenumber < MAX_INT)
    {
      var was := current;
      Next();
      if IsNewline(current) && current != was { Next(); }
      linenumber := linenumber + 1;
      ok := linenumber < MAX_INT;
    }

    /** \ddd */
    method ReadDecimal() returns (c: nat)
      requires Valid() && IsDigit(current)
      modifies `current, z
      ensures Valid() && var n := Digits(old(Text())); c == Decimal(old(Text())[..n]) && Text() == old(Text())[n..]
    {
      ghost var t := Text();
      var i := 0;
      c := 0;
      while i < 3 && IsDigit(current)
        invariant Valid() && 0 <= i <= Digits(t) && c == Decimal(t[..i]) && Text() == t[i..]
      {
        c := 10 * c + (current - ZERO);
        Next();
        assert t[..i + 1][..i] == t[..i];
        i := i + 1;
      }
    }

    /** A run of the reader has come to what `spec` tells. */
    ghost predicate Meets(r: Result, spec: Read)
      reads this, z
    {
      Valid() &&
      match spec
      case Token(s, rest, line) => r == Done(s) && Text() == rest && linenumber == line
      case Error(e) => r == Failed(e)
    }

    /** What follows a backslash. */
    method Escape(del: byte) returns (error: Option<LexError>)
      requires Valid() && current == BACKSLASH && buff != [] && del != BACKSLASH
      modifies this, z
      ensures Valid() && buff != [] && |Text()| < |old(Text())|
      ensures var spec := ReadRest(old(Text()), del, old(linenumber), old(buff)[1..]);
        match error
        case None => spec == ReadRest(Text(), del, linenumber, buff[1..])
        case Some(e) => spec == Error(e)
    {
      hide ReadRest, Decimal, Letter;
      ghost var t, b := Text(), buff;
      AtBackslash(t, del, linenumber, buff[1..]);
      Next();
      error := None;
      if current == ChunkIO.EOZ {
      } else if Letter(current).Some? {
        Save(Letter(current).value);
        Next();
        assert buff[1..] == b[1..] + [Letter(t[1]).value];
      } else if IsNewline(current) {
        Save(NEWLINE);
        assert buff[1..] == b[1..] + [NEWLINE];
        var ok := IncLineNumber();
        if !ok { error := Some(TooManyLines); }
      } else if !IsDigit(current) {
        SaveAndNext();
        assert buff[1..] == b[1..] + [t[1]];
      } else {
        var c := ReadDecimal();
        if c > UCHAR_MAX { return Some(EscapeTooLarge); }
        Save(c);
        assert buff[1..] == b[1..] + [c];
      }
    }

    /** read_string, on a buffer that llex has reset. */
    method ReadString(del: byte) returns (r: Result)
      requires Valid() && current == del && buff == [] && (del == QUOTE || del == APOSTROPHE)
      modifies this, z
      ensures Meets(r, ReadText(old(Text()), old(linenumber)))
    {
      ghost var spec := ReadText(Text(), linenumber);
      SaveAndNext();
      assert buff[1..] == [];
      while current != del
        invariant Valid() && buff != []
        invariant spec == ReadRest(Text(), del, linenumber, buff[1..])
        decreases |Text()|
      {
        if current == ChunkIO.EOZ { return Failed(Unfinished); }
        if IsNewline(current) { return Failed(UnfinishedLine); }
        if current == BACKSLASH {
          var error := Escape(del);
          if error.Some? { return Failed(error.value); }
        } else {
          ghost var b := buff;
          SaveAndNext();
          assert buff[1..] == b[1..] + [buff[|b|]];
        }
      }
      ghost var b := buff;
      SaveAndNext();
      r := Done(buff[1..|buff| - 1]);
      assert buff[1..|buff| - 1] == b[1..];
    }
  }
}
