/** The conversions of UTFConvert.cpp between UTF-16, in units of 16 bits, and
    UTF-8.  Shifts and masks are written as arithmetic. */
module UTFConvert {
  import opened Options

  type Byte = x: int | 0 <= x < 0x100

  type Unit = x: int | 0 <= x < 0x10000

  // ---------------------------------------------------------------------
  // The two encodings, as their standards have them

  /** A Unicode scalar value. */
  predicate IsScalar(cp: int) { 0 <= cp < 0xD800 || 0xE000 <= cp < 0x110000 }

  predicate IsHigh(u: int) { 0xD800 <= u < 0xDC00 }

  predicate IsLow(u: int) { 0xDC00 <= u < 0xE000 }

  /** Section 3 of RFC 3629. */
  function Utf8(cp: int): (b: seq<Byte>)
    requires 0 <= cp < 0x110000
    ensures |b| > 0
  {
    if cp < 0x80 then [cp]
    else if cp < 0x800 then [0xC0 + cp / 64, 0x80 + cp % 64]
    else if cp < 0x10000 then [0xE0 + cp / 4096, 0x80 + cp / 64 % 64, 0x80 + cp % 64]
    else [0xF0 + cp / 262144, 0x80 + cp / 4096 % 64, 0x80 + cp / 64 % 64, 0x80 + cp % 64]
  }

  /** Section 2.1 of RFC 2781. */
  function Utf16(cp: int): (u: seq<Unit>)
    requires 0 <= cp < 0x110000
    ensures |u| > 0
  {
    if cp < 0x10000 then [cp] else [0xD800 + (cp - 0x10000) / 1024, 0xDC00 + (cp - 0x10000) % 1024]
  }

  function Sum16(hi: int, lo: int): int { 0x10000 + (hi - 0xD800) * 1024 + (lo - 0xDC00) }

  function Sum8(a: int, b: int, c: int, d: int): int { a * 262144 + b * 4096 + c * 64 + d }

  /** What the units and the bytes of a character add up to. */
  lemma SumsUp(cp: int)
    requires 0 <= cp < 0x110000
    ensures var u := Utf16(cp);
      (|u| == 1 && u[0] == cp) || (|u| == 2 && IsHigh(u[0]) && IsLow(u[1]) && Sum16(u[0], u[1]) == cp)
    ensures forall i :: 0 < i < |Utf8(cp)| ==> 128 <= Utf8(cp)[i] < 192
    ensures var b := Utf8(cp);
      || (|b| == 1 && b[0] < 128 && b[0] == cp)
      || (|b| == 2 && 192 <= b[0] < 224 && Sum8(0, 0, b[0] - 192, b[1] - 128) == cp)
      || (|b| == 3 && 224 <= b[0] < 240 && Sum8(0, b[0] - 224, b[1] - 128, b[2] - 128) == cp)
      || (|b| == 4 && 240 <= b[0] < 248 && Sum8(b[0] - 240, b[1] - 128, b[2] - 128, b[3] - 128) == cp)
  {
    Joined(cp);
  }

  predicate IsTail(b: int) { 0x80 <= b < 0xC0 }

  /** The length of the first character by the syntax in section 4 of RFC 3629,
      which allows no character that is longer than it need be, no surrogate and
      nothing above 10FFFF; 0 if there is none. */
  function SyntaxLength(b: seq<Byte>): (n: nat)
    ensures n <= |b| && n <= 4
  {
    if b == [] then 0
    else if b[0] < 0x80 then 1
    else if |b| >= 2 && 0xC2 <= b[0] < 0xE0 && IsTail(b[1]) then 2
    else if |b| >= 3 && 0xE0 <= b[0] < 0xF0 && IsTail(b[1]) && IsTail(b[2])
         && (b[0] == 0xE0 ==> b[1] >= 0xA0) && (b[0] == 0xED ==> b[1] < 0xA0) then 3
    else if |b| >= 4 && 0xF0 <= b[0] < 0xF5 && IsTail(b[1]) && IsTail(b[2]) && IsTail(b[3])
         && (b[0] == 0xF0 ==> b[1] >= 0x90) && (b[0] == 0xF4 ==> b[1] < 0x90) then 4
    else 0
  }

  predicate Valid8(b: seq<Byte>) { b == [] || (SyntaxLength(b) > 0 && Valid8(b[SyntaxLength(b)..])) }

  /** Surrogates come in pairs. */
  predicate Valid16(u: seq<Unit>) {
    && (forall i :: 0 <= i < |u| && IsHigh(u[i]) ==> i + 1 < |u| && IsLow(u[i + 1]))
    && (forall i :: 0 <= i < |u| && IsLow(u[i]) ==> i > 0 && IsHigh(u[i - 1]))
  }

  // ---------------------------------------------------------------------
  // Utf16_To_Utf8

  /** What was written, and whether all was read. */
  datatype Written<T> = Written(out: seq<T>, ok: bool)

  /** The first scalar value, and how many units it takes. */
  function First16(u: seq<Unit>): (r: Option<(int, nat)>)
    requires u != []
    ensures r.Some? ==> IsScalar(r.value.0) && 0 < r.value.1 <= |u| && u[..r.value.1] == Utf16(r.value.0)
  {
    if !(0xD800 <= u[0] < 0xE000) then Some((u[0], 1))
    else if u[0] >= 0xDC00 || |u| == 1 || !IsLow(u[1]) then None
    else
      var hi: int, lo: int := u[0] - 0xD800, u[1] - 0xDC00;
      var cp := hi * 1024 + lo + 0x10000;
      Some((cp, 2))
  }

  function To8(u: seq<Unit>): Written<Byte> {
    if u == [] then Written([], true)
    else
      match First16(u)
      case None => Written([], false)
      case Some((cp, n)) =>
        var w := To8(u[n..]);
        Written(Utf8(cp) + w.out, w.ok)
  }

  // ---------------------------------------------------------------------
  // Utf8_To_Utf16, on any bytes

  const UTF8_LIMITS: seq<Byte> := [0xC0, 0xE0, 0xF0, 0xF8, 0xFC]

  /** What a byte that follows contributes. */
  function Bits(b: Byte): int { b - 0x80 }

  /** How many bytes should follow a first byte. */
  function Adds(c: int): (n: nat)
    ensures 1 <= n <= 5
  {
    if c < 0xE0 then 1 else if c < 0xF0 then 2 else if c < 0xF8 then 3 else if c < 0xFC then 4 else 5
  }

  /** The loop over the bytes that follow: it takes a byte that is not one of
      them too, and stops at the end; neither is an error. */
  function Follow(b: seq<Byte>, p: nat, value: nat, n: nat): (r: (nat, nat))
    requires p <= |b| && n > 0
    ensures p <= r.1 <= |b|
    decreases n
  {
    if p == |b| then (value, p)
    else if !IsTail(b[p]) then (value, p + 1)
    else if n == 1 then (value * 64 + Bits(b[p]), p + 1)
    else Follow(b, p + 1, value * 64 + Bits(b[p]), n - 1)
  }

  function To16(b: seq<Byte>): Written<Unit>
    decreases |b|
  {
    if b == [] then Written([], true)
    else if b[0] < 0x80 then
      var w := To16(b[1..]);
      Written([b[0]] + w.out, w.ok)
    else if b[0] < 0xC0 then Written([], false)
    else
      var n := Adds(b[0]);
      var (value, p) := Follow(b, 1, b[0] - UTF8_LIMITS[n - 1], n);
      if value >= 0x110000 then Written([], false)
      else
        var w := To16(b[p..]);
        Written(Utf16(value) + w.out, w.ok)
  }

  // ---------------------------------------------------------------------
  // What succeeds

  lemma {:induction false} To8Ok(u: seq<Unit>)
    ensures To8(u).ok <==> Valid16(u)
  {
    if u != [] {
      match First16(u)
      case None => NotPaired(u);
      case Some((cp, n)) =>
        To8Ok(u[n..]);
        PairedOff(u, n);
    }
  }

  lemma NotPaired(u: seq<Unit>)
    requires u != [] && First16(u) == None
    ensures !Valid16(u)
  {
    assert IsHigh(u[0]) || IsLow(u[0]);
  }

  /** Whether surrogates are paired does not hang on the first character. */
  lemma PairedOff(u: seq<Unit>, n: nat)
    requires u != [] && First16(u).Some? && First16(u).value.1 == n
    ensures Valid16(u) <==> Valid16(u[n..])
  {
    var v := u[n..];
    assert forall i :: 0 <= i < |v| ==> v[i] == u[i + n];
    assert IsHigh(u[0]) <==> n == 2;
    assert !IsLow(u[0]) && (n == 2 ==> IsLow(u[1]));
    if Valid16(v) {
      forall i | 0 <= i < |u| && IsHigh(u[i]) ensures i + 1 < |u| && IsLow(u[i + 1]) {
        if i >= n { assert IsHigh(v[i - n]); }
      }
      forall i | 0 <= i < |u| && IsLow(u[i]) ensures i > 0 && IsHigh(u[i - 1]) {
        if i >= n { assert IsLow(v[i - n]); }
      }
    }
    if Valid16(u) {
      forall i | 0 <= i < |v| && IsHigh(v[i]) ensures i + 1 < |v| && IsLow(v[i + 1]) {
        assert IsHigh(u[i + n]);
      }
      forall i | 0 <= i < |v| && IsLow(v[i]) ensures i > 0 && IsHigh(v[i - 1]) {
        assert IsLow(u[i + n]) && IsHigh(u[i + n - 1]);
      }
    }
  }

  /** One character is written in its shortest form... */
  lemma Utf8Syntax(cp: int, t: seq<Byte>)
    requires IsScalar(cp)
    ensures SyntaxLength(Utf8(cp) + t) == |Utf8(cp)|
    ensures (Utf8(cp) + t)[|Utf8(cp)|..] == t
  {
  }

  lemma Div64(q: nat, r: int)
    requires 0 <= r < 64
    ensures (q * 64 + r) / 64 == q && (q * 64 + r) % 64 == r
  {
  }

  lemma Div4096(q: nat, r: int)
    requires 0 <= r < 4096
    ensures (q * 4096 + r) / 4096 == q
  {
  }

  lemma Div262144(q: nat, r: int)
    requires 0 <= r < 262144
    ensures (q * 262144 + r) / 262144 == q
  {
  }

  /** The digits of a number to the base of 64. */
  lemma Digits(a: nat, x: int, y: int, z: int)
    requires 0 <= x < 64 && 0 <= y < 64 && 0 <= z < 64
    ensures var c := a * 262144 + x * 4096 + y * 64 + z;
      c / 262144 == a && c / 4096 == a * 64 + x && c / 4096 % 64 == x && c / 64 % 64 == y && c % 64 == z
  {
    Div262144(a, x * 4096 + y * 64 + z);
    Div4096(a * 64 + x, y * 64 + z);
    Div64(a * 4096 + x * 64 + y, z);
    Div64(a, x);
    Div64(a * 64 + x, y);
  }

  lemma Joined(c: nat)
    ensures ((c / 262144 * 64 + c / 4096 % 64) * 64 + c / 64 % 64) * 64 + c % 64 == c
    ensures (c / 4096 * 64 + c / 64 % 64) * 64 + c % 64 == c
  {
  }

  /** ... and what the syntax allows is one. */
  function Scalar8(b: seq<Byte>): (cp: int)
    requires SyntaxLength(b) > 0
    ensures IsScalar(cp) && Utf8(cp) == b[..SyntaxLength(b)]
  {
    var n, c: int := SyntaxLength(b), b[0];
    if n == 1 then c
    else if n == 2 then (c - 0xC0) * 64 + Bits(b[1])
    else if n == 3 then
      Digits(0, c - 0xE0, Bits(b[1]), Bits(b[2]));
      (c - 0xE0) * 4096 + Bits(b[1]) * 64 + Bits(b[2])
    else
      Digits(c - 0xF0, Bits(b[1]), Bits(b[2]), Bits(b[3]));
      (c - 0xF0) * 262144 + Bits(b[1]) * 4096 + Bits(b[2]) * 64 + Bits(b[3])
  }

  lemma {:induction false} To8Shortest(u: seq<Unit>)
    requires To8(u).ok
    ensures Valid8(To8(u).out)
  {
    if u != [] {
      var (cp, n) := First16(u).value;
      To8Shortest(u[n..]);
      Utf8Syntax(cp, To8(u[n..]).out);
    }
  }

  /** Reading back one character. */
  lemma ReadsScalar(cp: int, t: seq<Byte>)
    requires IsScalar(cp)
    ensures To16(Utf8(cp) + t) == Written(Utf16(cp) + To16(t).out, To16(t).ok)
  {
    var b := Utf8(cp) + t;
    assert b[|Utf8(cp)|..] == t;
    if cp >= 0x80 {
      var n := |Utf8(cp)| - 1;
      assert Adds(b[0]) == n;
      FollowReads(cp, t);
    }
  }

  lemma FollowReads(cp: int, t: seq<Byte>)
    requires IsScalar(cp) && cp >= 0x80
    ensures var b, n := Utf8(cp) + t, |Utf8(cp)| - 1;
      n == Adds(b[0]) && Follow(b, 1, b[0] - UTF8_LIMITS[n - 1], n) == (cp, n + 1)
  {
    hide IsTail;
    var b := Utf8(cp) + t;
    Joined(cp);
    TailsFollow(cp, t);
    if cp < 0x800 {
      FollowOnce(b, 1, cp / 64, 1);
    } else if cp < 0x10000 {
      FollowOnce(b, 1, cp / 4096, 2);
      FollowOnce(b, 2, cp / 4096 * 64 + cp / 64 % 64, 1);
    } else {
      FollowOnce(b, 1, cp / 262144, 3);
      FollowOnce(b, 2, cp / 262144 * 64 + cp / 4096 % 64, 2);
      FollowOnce(b, 3, (cp / 262144 * 64 + cp / 4096 % 64) * 64 + cp / 64 % 64, 1);
    }
  }

  lemma TailsFollow(cp: int, t: seq<Byte>)
    requires IsScalar(cp)
    ensures forall i :: 1 <= i < |Utf8(cp)| ==> IsTail((Utf8(cp) + t)[i]) && (Utf8(cp) + t)[i] == Utf8(cp)[i]
  {
  }

  lemma FollowOnce(b: seq<Byte>, p: nat, value: nat, n: nat)
    requires p < |b| && IsTail(b[p]) && n > 0
    ensures Follow(b, p, value, n) ==
            if n == 1 then (value * 64 + Bits(b[p]), p + 1) else Follow(b, p + 1, value * 64 + Bits(b[p]), n - 1)
  {
  }

  /** Writing UTF-16 as UTF-8 and reading it back. */
  lemma {:induction false} RoundTrip(u: seq<Unit>)
    requires To8(u).ok
    ensures To16(To8(u).out) == Written(u, true)
  {
    if u != [] {
      var (cp, n) := First16(u).value;
      RoundTrip(u[n..]);
      ReadsScalar(cp, To8(u[n..]).out);
      assert u == u[..n] + u[n..];
    }
  }

  lemma First16Of(cp: int, t: seq<Unit>)
    requires IsScalar(cp)
    ensures First16(Utf16(cp) + t) == Some((cp, |Utf16(cp)|)) && (Utf16(cp) + t)[|Utf16(cp)|..] == t
  {
  }

  lemma EmptyBack()
    ensures To16([]) == Written([], true)
  {
  }

  /** Reading well-formed UTF-8 succeeds, and writing the result gives it back. */
  lemma {:induction false} RoundTripBack(b: seq<Byte>)
    requires Valid8(b)
    ensures To16(b).ok && To8(To16(b).out) == Written(b, true)
    decreases |b|
  {
    hide SyntaxLength, Scalar8, Utf8, Utf16, First16, To16;
    if b == [] {
      EmptyBack();
    } else {
      var n, cp := SyntaxLength(b), Scalar8(b);
      RoundTripBack(b[n..]);
      assert b == Utf8(cp) + b[n..];
      ReadsScalar(cp, b[n..]);
      First16Of(cp, To16(b[n..]).out);
    }
  }

  /** The reader does not check its input, so it may succeed on ill-formed
      UTF-8; what it then returns stands for other bytes.  It is a faithful
      reading just when the input is well-formed. */
  lemma DecodesExactly(b: seq<Byte>)
    ensures To8(To16(b).out) == Written(b, true) <==> Valid8(b)
    ensures Valid8(b) ==> To16(b).ok
  {
    if Valid8(b) { RoundTripBack(b); }
    if To8(To16(b).out) == Written(b, true) { To8Shortest(To16(b).out); }
  }

  /** A character that is cut short, and taken for one. */
  lemma TruncatedIsTaken()
    ensures !Valid8([0xC3]) && To16([0xC3]) == Written([3], true)
  {
    assert Follow([0xC3], 1, 3, 1) == (3, 1);
  }

  // ---------------------------------------------------------------------
  // The conversions in place.  Without a destination they only count.

  /** A destination holds `out` up to `n`, and is as before behind it. */
  ghost predicate Holds<T>(was: seq<T>, now: seq<T>, out: seq<T>) {
    |now| == |was| && |out| <= |now| && now[..|out|] == out && now[|out|..] == was[|out|..]
  }

  lemma HoldsMore<T>(was: seq<T>, now: seq<T>, out: seq<T>, x: T)
    requires Holds(was, now, out) && |out| < |was|
    ensures Holds(was, now[|out| := x], out + [x])
  {
    var w := now[|out| := x];
    assert w[..|out|] == now[..|out|];
    assert w[..|out| + 1] == out + [x];
    forall i | |out| + 1 <= i < |was| ensures w[i] == was[i] { assert now[|out|..][i - |out|] == was[|out|..][i - |out|]; }
    assert w[|out| + 1..] == was[|out| + 1..];
  }

  /** Writes one element, if there is a destination. */
  method Write<T>(dest: array?<T>, pos: nat, x: T, ghost was: seq<T>, ghost out: seq<T>) returns (next: nat)
    requires pos == |out| && (dest != null ==> Holds(was, dest[..], out) && pos < dest.Length)
    modifies dest
    ensures next == pos + 1 && (dest != null ==> Holds(was, dest[..], out + [x]))
  {
    if dest != null {
      HoldsMore(was, dest[..], out, x);
      ghost var now := dest[..];
      dest[pos] := x;
      assert dest[..] == now[pos := x];
    }
    next := pos + 1;
  }

  /** value >> 6 * n */
  function Shift(value: nat, n: nat): nat { if n == 0 then value else Shift(value, n - 1) / 64 }

  lemma ShiftIs(cp: nat)
    ensures Shift(cp, 0) == cp && Shift(cp, 1) == cp / 64 && Shift(cp, 2) == cp / 4096 && Shift(cp, 3) == cp / 262144
  {
    assert Shift(cp, 1) == cp / 64;
    assert Shift(cp, 2) == cp / 64 / 64;
    assert Shift(cp, 3) == cp / 64 / 64 / 64;
  }

  /** 1 << (n * 5 + 6) */
  function Limit(n: nat): nat { if n == 0 then 64 else 32 * Limit(n - 1) }

  method NumAdds(value: nat) returns (n: nat)
    requires 0x80 <= value < 0x110000
    ensures 1 <= n <= 3 && n == |Utf8(value)| - 1
  {
    assert Limit(1) == 0x800 && Limit(2) == 0x10000 && Limit(3) == 0x200000;
    n := 1;
    while n < 5
      invariant 1 <= n <= 3 && (n > 1 ==> value >= Limit(n - 1))
    {
      if value < Limit(n) { break; }
      n := n + 1;
    }
  }

  lemma PointBytes(cp: nat, n: nat, m: nat)
    requires 0x80 <= cp < 0x110000 && n == |Utf8(cp)| - 1 && m <= n
    ensures n <= 3 && Utf8(cp)[n - m] == if m == n then UTF8_LIMITS[n - 1] + Shift(cp, n) else 0x80 + Shift(cp, m) % 64
  {
    ShiftIs(cp);
  }

  /** Writes a character of more than one byte. */
  method WritePoint(dest: array?<Byte>, pos: nat, cp: nat, ghost was: seq<Byte>, ghost out: seq<Byte>)
    returns (next: nat)
    requires 0x80 <= cp < 0x110000 && pos == |out|
    requires dest != null ==> Holds(was, dest[..], out) && pos + |Utf8(cp)| <= dest.Length
    modifies dest
    ensures next == pos + |Utf8(cp)| && (dest != null ==> Holds(was, dest[..], out + Utf8(cp)))
  {
    hide Utf8, Holds, Shift;
    var n := NumAdds(cp);
    ghost var b := Utf8(cp);
    PointBytes(cp, n, n);
    next := Write(dest, pos, UTF8_LIMITS[n - 1] + Shift(cp, n), was, out);
    assert b[..1] == [b[0]];
    var m := n;
    while m != 0
      invariant 0 <= m <= n && next == pos + (n - m) + 1
      invariant dest != null ==> Holds(was, dest[..], out + b[..n - m + 1])
      decreases m
    {
      m := m - 1;
      PointBytes(cp, n, m);
      next := Write(dest, next, 0x80 + Shift(cp, m) % 64, was, out + b[..n - m]);
      assert out + b[..n - m] + [b[n - m]] == out + b[..n - m + 1];
    }
    assert b[..n + 1] == b;
  }

  lemma To8At(src: seq<Unit>, pos: nat, next: nat, cp: int)
    requires pos < next <= |src| && First16(src[pos..]) == Some((cp, next - pos))
    ensures IsScalar(cp)
    ensures To8(src[pos..]) == Written(Utf8(cp) + To8(src[next..]).out, To8(src[next..]).ok)
  {
    hide Utf8, Utf16;
    assert src[pos..][next - pos..] == src[next..];
  }

  /** One turn of the loop. */
  lemma To8Step(src: seq<Unit>, pos: nat, next: nat, cp: int, out: seq<Byte>)
    requires pos < next <= |src| && First16(src[pos..]) == Some((cp, next - pos))
    requires To8(src) == Written(out + To8(src[pos..]).out, To8(src[pos..]).ok)
    ensures IsScalar(cp)
    ensures To8(src) == Written(out + Utf8(cp) + To8(src[next..]).out, To8(src[next..]).ok)
  {
    hide First16, Utf8, Utf16, To8;
    To8At(src, pos, next, cp);
    var x, y := Utf8(cp), To8(src[next..]).out;
    assert out + (x + y) == out + x + y;
  }

  lemma To8Stop(src: seq<Unit>, pos: nat, out: seq<Byte>)
    requires pos <= |src| && (pos == |src| || First16(src[pos..]) == None)
    requires To8(src) == Written(out + To8(src[pos..]).out, To8(src[pos..]).ok)
    ensures To8(src) == Written(out, pos == |src|)
  {
    assert out + [] == out;
  }

  /** The next character, if there is one at `pos`. */
  method ReadUnits(src: seq<Unit>, pos: nat) returns (value: nat, next: nat, ok: bool)
    requires pos < |src|
    ensures pos < next <= |src|
    ensures First16(src[pos..]) == if ok then Some((value, next - pos)) else None
  {
    value := src[pos];
    next := pos + 1;
    ok := true;
    if value >= 0xD800 && value < 0xE000 {
      if value >= 0xDC00 || next == |src| { return value, next, false; }
      var c2: int := src[next];
      next := next + 1;
      if c2 < 0xDC00 || c2 >= 0xE000 { return value, next, false; }
      value := (value - 0xD800) * 1024 + (c2 - 0xDC00) + 0x10000;
    }
  }

  lemma ShortPoint(cp: int)
    requires IsScalar(cp)
    ensures 0 <= cp < 0x110000 && (cp < 0x80 ==> Utf8(cp) == [cp])
  {
  }

  lemma HoldsNothing<T>(was: seq<T>)
    ensures Holds(was, was, [])
  {
  }

  /** Utf16_To_Utf8: the length of what is written, and whether all was read. */
  method Utf16ToUtf8(dest: array?<Byte>, src: seq<Unit>) returns (destLen: nat, ok: bool)
    requires dest != null ==> dest.Length >= |To8(src).out|
    modifies dest
    ensures ok == To8(src).ok && destLen == |To8(src).out|
    ensures dest != null ==> Holds(old(dest[..]), dest[..], To8(src).out)
  {
    hide *;
    ghost var was := if dest == null then [] else dest[..];
    ghost var out: seq<Byte> := [];
    var srcPos := 0;
    destLen := 0;
    HoldsNothing(was);
    assert src[0..] == src && out + To8(src).out == To8(src).out;
    while true
      invariant srcPos <= |src| && destLen == |out|
      invariant To8(src) == Written(out + To8(src[srcPos..]).out, To8(src[srcPos..]).ok)
      invariant dest != null ==> Holds(was, dest[..], out)
      decreases |src| - srcPos
    {
      if srcPos == |src| {
        To8Stop(src, srcPos, out);
        return destLen, true;
      }
      var value, next, more := ReadUnits(src, srcPos);
      if !more {
        To8Stop(src, srcPos, out);
        return destLen, false;
      }
      To8Step(src, srcPos, next, value, out);
      ShortPoint(value);
      srcPos := next;
      if value < 0x80 {
        destLen := Write(dest, destLen, value, was, out);
      } else {
        destLen := WritePoint(dest, destLen, value, was, out);
      }
      out := out + Utf8(value);
    }
  }

  // ---------------------------------------------------------------------

  /** The loop over the bytes that follow a first one. */
  method FollowBytes(src: seq<Byte>, pos: nat, first: nat, adds: nat) returns (value: nat, next: nat)
    requires pos <= |src| && adds > 0
    ensures (value, next) == Follow(src, pos, first, adds) && next <= |src|
  {
    value, next := first, pos;
    var numAdds := adds;
    while true
      invariant next <= |src| && numAdds > 0
      invariant Follow(src, pos, first, adds) == Follow(src, next, value, numAdds)
      decreases numAdds
    {
      if next == |src| { return; }
      var c2 := src[next];
      next := next + 1;
      if c2 < 0x80 || c2 >= 0xC0 { return; }
      value := value * 64 + Bits(c2);
      numAdds := numAdds - 1;
      if numAdds == 0 { return; }
    }
  }

  method CountAdds(c: Byte) returns (n: nat)
    requires c >= 0xC0
    ensures n == Adds(c)
  {
    n := 1;
    while n < 5
      invariant 1 <= n <= 5 && (n > 1 ==> c >= UTF8_LIMITS[n - 1])
    {
      if c < UTF8_LIMITS[n] { break; }
      n := n + 1;
    }
  }

  /** What is read at `pos`: its value, and where the next character starts. */
  function First8(b: seq<Byte>, pos: nat): (r: Option<(nat, nat)>)
    requires pos < |b|
    ensures r.Some? ==> r.value.0 < 0x110000 && pos < r.value.1 <= |b|
  {
    if b[pos] < 0x80 then Some((b[pos], pos + 1))
    else if b[pos] < 0xC0 then None
    else
      var n := Adds(b[pos]);
      var (value, p) := Follow(b, pos + 1, b[pos] - UTF8_LIMITS[n - 1], n);
      if value >= 0x110000 then None else Some((value, p))
  }

  lemma {:induction false} FollowShift(b: seq<Byte>, pos: nat, p: nat, value: nat, n: nat)
    requires pos <= p <= |b| && n > 0
    ensures var r, q := Follow(b, p, value, n), Follow(b[pos..], p - pos, value, n); r.0 == q.0 && r.1 == q.1 + pos
    decreases n
  {
    if p < |b| && IsTail(b[p]) && n > 1 { FollowShift(b, pos, p + 1, value * 64 + Bits(b[p]), n - 1); }
  }

  lemma To16At(src: seq<Byte>, pos: nat)
    requires pos < |src|
    ensures To16(src[pos..]) ==
            var r := First8(src, pos);
            if r.None? then Written([], false)
            else Written(Utf16(r.value.0) + To16(src[r.value.1..]).out, To16(src[r.value.1..]).ok)
  {
    hide Utf16, Follow;
    var b := src[pos..];
    if b[0] >= 0xC0 {
      var n := Adds(b[0]);
      FollowShift(src, pos, pos + 1, b[0] - UTF8_LIMITS[n - 1], n);
      var (value, p) := Follow(b, 1, b[0] - UTF8_LIMITS[n - 1], n);
      assert b[p..] == src[pos + p..];
    } else if b[0] < 0x80 {
      assert b[1..] == src[pos + 1..];
      SmallUnit(b[0]);
    }
  }

  lemma SmallUnit(v: nat)
    requires v < 0x10000
    ensures Utf16(v) == [v]
  {
  }

  lemma To16Step(src: seq<Byte>, pos: nat, out: seq<Unit>)
    requires pos < |src|
    requires To16(src) == Written(out + To16(src[pos..]).out, To16(src[pos..]).ok)
    ensures To16(src) ==
            var r := First8(src, pos);
            if r.None? then Written(out, false)
            else Written(out + Utf16(r.value.0) + To16(src[r.value.1..]).out, To16(src[r.value.1..]).ok)
  {
    hide First8, Utf16, To16;
    To16At(src, pos);
    assert out + [] == out;
    var r := First8(src, pos);
    if r.Some? {
      var x, y := Utf16(r.value.0), To16(src[r.value.1..]).out;
      assert out + (x + y) == out + x + y;
    }
  }

  lemma To16End(src: seq<Byte>, out: seq<Unit>)
    requires To16(src) == Written(out + To16(src[|src|..]).out, To16(src[|src|..]).ok)
    ensures To16(src) == Written(out, true)
  {
    assert out + [] == out;
  }

  /** One character, of one byte or more. */
  method ReadBytes(src: seq<Byte>, pos: nat) returns (value: nat, next: nat, ok: bool)
    requires pos < |src|
    ensures next <= |src| && First8(src, pos) == if ok then Some((value, next)) else None
  {
    var c := src[pos];
    value, next, ok := c, pos + 1, true;
    if c < 0x80 { return; }
    if c < 0xC0 { return value, next, false; }
    var n := CountAdds(c);
    value, next := FollowBytes(src, pos + 1, c - UTF8_LIMITS[n - 1], n);
    ok := value < 0x10000 || value - 0x10000 < 0x100000;
  }

  /** One unit, or two. */
  method WriteUnits(dest: array?<Unit>, pos: nat, value: nat, ghost was: seq<Unit>, ghost out: seq<Unit>)
    returns (next: nat)
    requires value < 0x110000 && pos == |out|
    requires dest != null ==> Holds(was, dest[..], out) && pos + |Utf16(value)| <= dest.Length
    modifies dest
    ensures next == pos + |Utf16(value)| && (dest != null ==> Holds(was, dest[..], out + Utf16(value)))
  {
    hide Holds;
    if value < 0x10000 {
      next := Write(dest, pos, value, was, out);
    } else {
      var v := value - 0x10000;
      next := Write(dest, pos, 0xD800 + v / 1024, was, out);
      next := Write(dest, next, 0xDC00 + v % 1024, was, out + [0xD800 + v / 1024]);
      assert out + [0xD800 + v / 1024] + [0xDC00 + v % 1024] == out + Utf16(value);
    }
  }

  /** Utf8_To_Utf16 */
  method Utf8ToUtf16(dest: array?<Unit>, src: seq<Byte>) returns (destLen: nat, ok: bool)
    requires dest != null ==> dest.Length >= |To16(src).out|
    modifies dest
    ensures ok == To16(src).ok && destLen == |To16(src).out|
    ensures dest != null ==> Holds(old(dest[..]), dest[..], To16(src).out)
  {
    hide *;
    ghost var was := if dest == null then [] else dest[..];
    ghost var out: seq<Unit> := [];
    var srcPos := 0;
    destLen := 0;
    HoldsNothing(was);
    assert src[0..] == src && out + To16(src).out == To16(src).out;
    while true
      invariant srcPos <= |src| && destLen == |out|
      invariant To16(src) == Written(out + To16(src[srcPos..]).out, To16(src[srcPos..]).ok)
      invariant dest != null ==> Holds(was, dest[..], out)
      decreases |src| - srcPos
    {
      if srcPos == |src| {
        To16End(src, out);
        return destLen, true;
      }
      To16Step(src, srcPos, out);
      var value, next, more := ReadBytes(src, srcPos);
      if !more { return destLen, false; }
      destLen := WriteUnits(dest, destLen, value, was, out);
      srcPos := next;
      out := out + Utf16(value);
    }
  }

  // ---------------------------------------------------------------------
  // Which bytes the reader accepts

  /** How many bytes that follow a first one stand at `p`, up to `n`. */
  function Tails(b: seq<Byte>, p: nat, n: nat): (t: nat)
    requires p <= |b|
    ensures t <= n && p + t <= |b| && forall i :: p <= i < p + t ==> IsTail(b[i])
    decreases n
  {
    if n == 0 || p == |b| || !IsTail(b[p]) then 0 else 1 + Tails(b, p + 1, n - 1)
  }

  /** The bits of a character. */
  function Horner(value: nat, b: seq<Byte>): nat
    requires forall i :: 0 <= i < |b| ==> IsTail(b[i])
    decreases |b|
  {
    if b == [] then value
    else
      assert IsTail(b[0]);
      Horner(value * 64 + Bits(b[0]), b[1..])
  }

  /** The value of what stands at `p`, with as many following bytes as there are. */
  function CharValue(b: seq<Byte>, p: nat): nat
    requires p < |b| && !IsTail(b[p])
  {
    if b[p] < 0x80 then b[p]
    else
      var n := Adds(b[p]);
      Horner(b[p] - UTF8_LIMITS[n - 1], b[p + 1..p + 1 + Tails(b, p + 1, n)])
  }

  /** Where the next character starts: a byte that cuts a character short is
      skipped with it. */
  function CharEnd(b: seq<Byte>, p: nat): (q: nat)
    requires p < |b|
    ensures p < q <= |b|
  {
    if b[p] < 0xC0 then p + 1
    else
      var n := Adds(b[p]);
      var t := Tails(b, p + 1, n);
      p + 1 + t + if t < n && p + 1 + t < |b| then 1 else 0
  }

  ghost predicate StartFrom(b: seq<Byte>, p: nat, q: nat)
    requires q <= |b|
    decreases q
  {
    q == p || (p < q && exists r: nat :: r < q && CharEnd(b, r) == q && StartFrom(b, p, r))
  }

  /** A character starts at `q`. */
  ghost predicate Start(b: seq<Byte>, q: nat)
    requires q <= |b|
  {
    StartFrom(b, 0, q)
  }

  predicate Readable(b: seq<Byte>, p: nat)
    requires p < |b|
  {
    !IsTail(b[p]) && CharValue(b, p) < 0x110000
  }

  lemma {:induction false} FollowIs(b: seq<Byte>, p: nat, value: nat, n: nat)
    requires p <= |b| && n > 0
    ensures var t := Tails(b, p, n);
      Follow(b, p, value, n) == (Horner(value, b[p..p + t]), p + t + if t < n && p + t < |b| then 1 else 0)
    decreases n
  {
    var t := Tails(b, p, n);
    if p < |b| && IsTail(b[p]) {
      var v := value * 64 + Bits(b[p]);
      assert b[p..p + t][0] == b[p] && b[p..p + t][1..] == b[p + 1..p + t];
      if n > 1 {
        FollowIs(b, p + 1, v, n - 1);
      } else {
        assert b[p + 1..p + t] == [];
      }
    } else {
      assert b[p..p + t] == [];
    }
  }

  lemma First8Is(b: seq<Byte>, p: nat)
    requires p < |b|
    ensures First8(b, p) == if Readable(b, p) then Some((CharValue(b, p), CharEnd(b, p))) else None
  {
    if b[p] >= 0xC0 {
      var n := Adds(b[p]);
      FollowIs(b, p + 1, b[p] - UTF8_LIMITS[n - 1], n);
    }
  }

  /** The starts from `p` on are `p` itself, and those from the next one on. */
  lemma {:induction false} StartsOn(b: seq<Byte>, p: nat, q: nat)
    requires p < |b| && q <= |b|
    ensures StartFrom(b, p, q) <==> q == p || StartFrom(b, CharEnd(b, p), q)
    decreases q
  {
    if StartFrom(b, p, q) && q != p {
      var r: nat :| r < q && CharEnd(b, r) == q && StartFrom(b, p, r);
      StartsOn(b, p, r);
    }
    if StartFrom(b, CharEnd(b, p), q) && q != p {
      if q == CharEnd(b, p) {
        assert StartFrom(b, p, p);
      } else {
        var r: nat :| r < q && CharEnd(b, r) == q && StartFrom(b, CharEnd(b, p), r);
        StartsOn(b, p, r);
      }
    }
  }

  ghost predicate AllReadable(b: seq<Byte>, p: nat) {
    forall q: nat :: q < |b| && StartFrom(b, p, q) ==> Readable(b, q)
  }

  lemma {:induction false} SucceedsFrom(b: seq<Byte>, p: nat)
    requires p <= |b|
    ensures To16(b[p..]).ok <==> AllReadable(b, p)
    decreases |b| - p
  {
    hide To16, Readable, CharEnd, Utf16;
    if p == |b| {
      EmptyBack();
      assert b[p..] == [];
    } else {
      First8Is(b, p);
      To16At(b, p);
      assert StartFrom(b, p, p);
      if Readable(b, p) {
        var q := CharEnd(b, p);
        SucceedsFrom(b, q);
        forall r: nat | r < |b| ensures StartFrom(b, p, r) <==> r == p || StartFrom(b, q, r) { StartsOn(b, p, r); }
      }
    }
  }

  /** The reader succeeds exactly if at each start of a character there is no
      stray following byte, and no value of 110000 or more. */
  lemma SucceedsExactly(b: seq<Byte>)
    ensures To16(b).ok <==> forall q: nat :: q < |b| && Start(b, q) ==> Readable(b, q)
  {
    assert b[0..] == b;
    SucceedsFrom(b, 0);
    assert forall q: nat :: q < |b| ==> Start(b, q) == StartFrom(b, 0, q);
  }

  // ---------------------------------------------------------------------
  // The two public conversions

  /** A buffer up to its first zero: what ReleaseBuffer makes of it. */
  function UpToZero(s: seq<int>): (t: seq<int>)
    ensures |t| <= |s| && t == s[..|t|] && 0 !in t && (|t| < |s| ==> s[|t|] == 0)
  {
    if s == [] || s[0] == 0 then [] else [s[0]] + UpToZero(s[1..])
  }

  lemma {:induction false} UpToZeroOf(s: seq<int>, t: seq<int>)
    requires |s| < |t| && t[..|s|] == s && t[|s|] == 0
    ensures UpToZero(t) == UpToZero(s)
  {
    if s != [] {
      assert s[0] == t[..|s|][0] == t[0];
      assert t[1..][..|s| - 1] == t[..|s|][1..] == s[1..];
      UpToZeroOf(s[1..], t[1..]);
    }
  }

  /** ConvertUnicodeToUTF8: a pass that counts, and a pass that writes just as
      much. */
  method ConvertUnicodeToUtf8(src: seq<Unit>) returns (dest: seq<Byte>, res: bool)
    ensures res == To8(src).ok && dest == UpToZero(To8(src).out)
  {
    var destLen, counted := Utf16ToUtf8(null, src);
    var p := new Byte[destLen + 1];
    var n;
    n, res := Utf16ToUtf8(p, src);
    assert n == destLen && p[..n] == To8(src).out;
    p[n] := 0;
    assert p[..n] == To8(src).out;
    UpToZeroOf(To8(src).out, p[..]);
    dest := UpToZero(p[..]);
  }

  /** ConvertUTF8ToUnicode */
  method ConvertUtf8ToUnicode(src: seq<Byte>) returns (dest: seq<Unit>, res: bool)
    ensures res == To16(src).ok && dest == UpToZero(To16(src).out)
  {
    var destLen, counted := Utf8ToUtf16(null, src);
    var p := new Unit[destLen + 1];
    var n;
    n, res := Utf8ToUtf16(p, src);
    assert n == destLen && p[..n] == To16(src).out;
    p[n] := 0;
    assert p[..n] == To16(src).out;
    UpToZeroOf(To16(src).out, p[..]);
    dest := UpToZero(p[..]);
  }

  lemma Utf8Zero(cp: int)
    requires IsScalar(cp) && cp > 0
    ensures 0 !in Utf8(cp) && 0 !in Utf16(cp)
  {
  }

  lemma {:induction false} UpToZeroSkips(s: seq<int>, t: seq<int>)
    requires 0 !in s
    ensures UpToZero(s + t) == s + UpToZero(t)
  {
    if s == [] {
      assert s + t == t;
    } else {
      assert (s + t)[1..] == s[1..] + t;
      UpToZeroSkips(s[1..], t);
    }
  }

  lemma To8Front(cp: int, v: seq<Unit>)
    requires IsScalar(cp)
    ensures To8(Utf16(cp) + v) == Written(Utf8(cp) + To8(v).out, To8(v).ok)
  {
    hide Utf8, Utf16, First16;
    First16Of(cp, v);
    var u := Utf16(cp) + v;
    assert u[0..] == u;
    To8At(u, 0, |Utf16(cp)|, cp);
  }

  lemma ZeroFirst(cp: int, t: seq<int>)
    requires cp == 0
    ensures UpToZero(Utf16(cp) + t) == [] && UpToZero(Utf8(cp) + t) == []
  {
  }

  lemma NoUnits()
    ensures To8([]) == Written([], true) && UpToZero([]) == []
  {
  }

  /** Both conversions stop at a zero, at the same place. */
  lemma {:induction false} ZeroCuts(u: seq<Unit>)
    requires To8(u).ok
    ensures To8(UpToZero(u)).ok && UpToZero(To8(u).out) == To8(UpToZero(u)).out
    decreases |u|
  {
    hide *;
    NoUnits();
    if u != [] {
      var cp, v := FirstOf(u);
      To8Front(cp, v);
      if cp == 0 {
        ZeroFirst(cp, To8(v).out);
        ZeroFirst(cp, v);
      } else {
        ZeroCuts(v);
        Utf8Zero(cp);
        UpToZeroSkips(Utf8(cp), To8(v).out);
        UpToZeroSkips(Utf16(cp), v);
        To8Front(cp, UpToZero(v));
      }
    }
  }

  lemma FirstOf(u: seq<Unit>) returns (cp: int, v: seq<Unit>)
    requires u != [] && To8(u).ok
    ensures IsScalar(cp) && u == Utf16(cp) + v && |v| < |u| && cp >= 0
  {
    var (c, n) := First16(u).value;
    cp, v := c, u[n..];
  }

  /** Through both public conversions a well-formed text comes back up to its
      first zero; so all of it just when it has none. */
  lemma PublicRoundTrip(u: seq<Unit>)
    requires Valid16(u)
    ensures var b := UpToZero(To8(u).out);
      && To16(b).ok && UpToZero(To16(b).out) == UpToZero(u)
      && (UpToZero(To16(b).out) == u <==> 0 !in u)
  {
    To8Ok(u);
    ZeroCuts(u);
    RoundTrip(UpToZero(u));
    UpToZeroSkips(UpToZero(u), []);
    assert UpToZero(u) + [] == UpToZero(u);
    if 0 !in u {
      UpToZeroSkips(u, []);
      assert u + [] == u;
    }
  }
}
