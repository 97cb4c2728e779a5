/** Lua patterns: their syntax, and what it means for one to match. */
module LuaPattern {
  import opened Options

  // ---------------------------------------------------------------------
  // Characters, in the "C" locale

  const NUL: char := '\0'

  /** A C string may be read at its end, where there is a NUL. */
  function At(p: string, i: nat): char { if i < |p| then p[i] else NUL }

  predicate IsLower(c: char) { 'a' <= c <= 'z' }

  predicate IsUpper(c: char) { 'A' <= c <= 'Z' }

  predicate IsAlpha(c: char) { IsLower(c) || IsUpper(c) }

  predicate IsDigit(c: char) { '0' <= c <= '9' }

  predicate IsCntrl(c: char) { c < ' ' || c as int == 127 }

  predicate IsSpace(c: char) { c == ' ' || 9 <= c as int <= 13 }

  predicate IsPunct(c: char) { '!' <= c <= '~' && !IsAlpha(c) && !IsDigit(c) }

  predicate IsXDigit(c: char) { IsDigit(c) || 'a' <= c <= 'f' || 'A' <= c <= 'F' }

  function ToLower(c: char): char { if IsUpper(c) then (c as int + 32) as char else c }

  /** match_class. */
  predicate MatchClass(c: char, cl: char) {
    var l := ToLower(cl);
    var res :=
      if l == 'a' then IsAlpha(c) else if l == 'c' then IsCntrl(c) else if l == 'd' then IsDigit(c)
      else if l == 'l' then IsLower(c) else if l == 'p' then IsPunct(c) else if l == 's' then IsSpace(c)
      else if l == 'u' then IsUpper(c) else if l == 'w' then IsAlpha(c) || IsDigit(c)
      else if l == 'x' then IsXDigit(c) else c == NUL;
    if l in "acdlpsuwxz" then (if IsLower(cl) then res else !res) else cl == c
  }

  // ---------------------------------------------------------------------
  // Syntax

  /** A member of a set in brackets. */
  datatype Elem = Char(c: char) | Range(lo: char, hi: char) | Class(cl: char)

  datatype Single = Any | Lit(c: char) | OfClass(cl: char) | Set(negated: bool, elems: seq<Elem>)

  datatype Mode = Optional | Star | Plus | Lazy

  datatype Item =
    | One(cls: Single)
    | Rep(cls: Single, mode: Mode)
    | Open
    | OpenPosition
    | Close
    | Balance(b: char, e: char)
    | Frontier(set_: Single)
    | BackRef(digit: char)
    | AtEnd
    | Bad

  /** The end of a set whose next member is at `j`. */
  function SetEnd(p: string, j: nat): (r: Option<nat>)
    requires j <= |p|
    ensures r.Some? ==> j + 1 < r.value <= |p| && At(p, r.value - 1) == ']'
    decreases |p| - j
  {
    if At(p, j) == NUL then None
    else
      var k := if At(p, j) == '%' && At(p, j + 1) != NUL then j + 2 else j + 1;
      if At(p, k) == ']' then Some(k + 1) else SetEnd(p, k)
  }

  /** classend: the end of the single-character class at `i`, if it is well formed. */
  function ClassEnd(p: string, i: nat): (r: Option<nat>)
    requires i < |p|
    ensures r.Some? ==> i < r.value <= |p|
    ensures r.Some? && p[i] == '[' ==> i + 1 < r.value - 1
    ensures r.Some? && p[i] == '%' ==> r.value == i + 2
  {
    if p[i] == '%' then (if At(p, i + 1) == NUL then None else Some(i + 2))
    else if p[i] == '[' then SetEnd(p, if At(p, i + 1) == '^' then i + 2 else i + 1)
    else Some(i + 1)
  }

  /** The members of a set, from `j` up to its closing bracket at `ec`. */
  function Elems(p: string, j: nat, ec: nat): seq<Elem>
    decreases if j < ec then ec - j else 0
  {
    if j >= ec then []
    else if At(p, j) == '%' then [Class(At(p, j + 1))] + Elems(p, j + 2, ec)
    else if At(p, j + 1) == '-' && j + 2 < ec then [Range(At(p, j), At(p, j + 2))] + Elems(p, j + 3, ec)
    else [Char(At(p, j))] + Elems(p, j + 1, ec)
  }

  /** The set in brackets that starts at `i` and closes at `ec`. */
  function SetOf(p: string, i: nat, ec: nat): Single {
    if At(p, i + 1) == '^' then Set(true, Elems(p, i + 2, ec)) else Set(false, Elems(p, i + 1, ec))
  }

  function SingleOf(p: string, i: nat, ep: nat): Single
    requires i < ep
  {
    if At(p, i) == '.' then Any
    else if At(p, i) == '%' then OfClass(At(p, i + 1))
    else if At(p, i) == '[' then SetOf(p, i, ep - 1)
    else Lit(At(p, i))
  }

  /** The item that a class and its suffix make. */
  function SimpleItem(p: string, i: nat): (r: (Item, nat))
    requires i < |p|
    ensures !r.0.Bad? ==> i < r.1 <= |p|
  {
    if ClassEnd(p, i).None? then (Bad, i)
    else
      var ep := ClassEnd(p, i).value;
      var cls := SingleOf(p, i, ep);
      if At(p, ep) == '?' then (Rep(cls, Optional), ep + 1)
      else if At(p, ep) == '*' then (Rep(cls, Star), ep + 1)
      else if At(p, ep) == '+' then (Rep(cls, Plus), ep + 1)
      else if At(p, ep) == '-' then (Rep(cls, Lazy), ep + 1)
      else (One(cls), ep)
  }

  /** The item at `i`, and where the next one begins. */
  function ItemAt(p: string, i: nat): (r: (Item, nat))
    requires i <= |p| && At(p, i) != NUL
    ensures !r.0.Bad? ==> i < r.1 <= |p|
  {
    var c, d := At(p, i), At(p, i + 1);
    if c == '(' then (if d == ')' then (OpenPosition, i + 2) else (Open, i + 1))
    else if c == ')' then (Close, i + 1)
    else if c == '%' && d == 'b' then
      (if At(p, i + 2) == NUL || At(p, i + 3) == NUL then (Bad, i) else (Balance(At(p, i + 2), At(p, i + 3)), i + 4))
    else if c == '%' && d == 'f' then
      (if At(p, i + 2) != '[' || ClassEnd(p, i + 2).None? then (Bad, i)
       else (Frontier(SetOf(p, i + 2, ClassEnd(p, i + 2).value - 1)), ClassEnd(p, i + 2).value))
    else if c == '%' && IsDigit(d) then (BackRef(d), i + 2)
    else if c == '$' && d == NUL then (AtEnd, i + 1)
    else SimpleItem(p, i)
  }

  /** The pattern from `i` on, up to its NUL; it ends in Bad where it is
      malformed. */
  function Items(p: string, i: nat): seq<Item>
    requires i <= |p|
    decreases |p| - i
  {
    if At(p, i) == NUL then []
    else
      var (item, next) := ItemAt(p, i);
      if item.Bad? then [Bad] else [item] + Items(p, next)
  }

  // ---------------------------------------------------------------------
  // Meaning of the pieces

  predicate InElem(c: char, e: Elem) {
    match e
    case Char(d) => c == d
    case Range(lo, hi) => lo <= c <= hi
    case Class(cl) => MatchClass(c, cl)
  }

  predicate Accepts(cls: Single, c: char) {
    match cls
    case Any => true
    case Lit(d) => c == d
    case OfClass(cl) => MatchClass(c, cl)
    case Set(negated, elems) => (exists i :: 0 <= i < |elems| && InElem(c, elems[i])) != negated
  }

  const MAXCAPTURES: nat := 32
  const UNFINISHED: int := -1
  const POSITION: int := -2

  datatype Cap = Cap(init: nat, len: int)

  /** capture_to_close: the last unfinished capture, or -1. */
  function LastOpen(caps: seq<Cap>): (l: int)
    ensures -1 <= l < |caps| && (l >= 0 ==> caps[l].len == UNFINISHED)
    ensures forall k :: l < k < |caps| ==> caps[k].len != UNFINISHED
  {
    if caps == [] then -1
    else if caps[|caps| - 1].len == UNFINISHED then |caps| - 1
    else LastOpen(caps[..|caps| - 1])
  }

  /** What a capture stands for in a back reference: position captures match
      nothing. */
  function BackRefEnd(src: string, i: nat, c: Cap): Option<nat>
    requires i <= |src|
  {
    if c.len >= 0 && i + c.len <= |src| && c.init + c.len <= |src| && src[i..i + c.len] == src[c.init..c.init + c.len]
    then Some(i + c.len) else None
  }

  /** The nesting after src[i..k], whose first character opens. */
  function Nesting(src: string, i: nat, k: nat, b: char, e: char): int
    requires i < k <= |src|
    decreases k
  {
    if k == i + 1 then 1
    else Nesting(src, i, k - 1, b, e) + (if src[k - 1] == e then -1 else if src[k - 1] == b then 1 else 0)
  }

  /** The first place after `k` where the nesting comes down to nothing. */
  function BalanceFrom(src: string, i: nat, k: nat, b: char, e: char): (r: Option<nat>)
    requires i < k <= |src|
    ensures r.Some? ==> k <= r.value <= |src| && Nesting(src, i, r.value, b, e) == 0
    ensures forall j :: k <= j <= |src| && (r.Some? ==> j < r.value) ==> Nesting(src, i, j, b, e) != 0
    decreases |src| - k
  {
    if Nesting(src, i, k, b, e) == 0 then Some(k)
    else if k == |src| then None
    else BalanceFrom(src, i, k + 1, b, e)
  }

  /** %b: from an opening character to the first place where all are closed. */
  function BalanceEnd(src: string, i: nat, b: char, e: char): Option<nat>
    requires i <= |src|
  {
    if i < |src| && src[i] == b then BalanceFrom(src, i, i + 1, b, e) else None
  }

  /** %f: a transition into the set; the ends of the subject count as NUL. */
  predicate AtFrontier(src: string, i: nat, cls: Single)
    requires i <= |src|
  {
    !Accepts(cls, if i == 0 then NUL else src[i - 1]) && Accepts(cls, At(src, i))
  }

  // ---------------------------------------------------------------------
  // The search, as the matcher makes it

  datatype Res = Fail | Hit(e: nat, caps: seq<Cap>) | Err

  predicate Fits(cls: Single, src: string, i: nat) { i < |src| && Accepts(cls, src[i]) }

  /** How often the class matches from `i` on. */
  function Longest(cls: Single, src: string, i: nat): (n: nat)
    requires i <= |src|
    ensures i + n <= |src| && forall k :: i <= k < i + n ==> Fits(cls, src, k)
    ensures !Fits(cls, src, i + n)
    decreases |src| - i
  {
    if Fits(cls, src, i) then 1 + Longest(cls, src, i + 1) else 0
  }

  datatype Next = Stop(r: Res) | Go(i: nat, caps: seq<Cap>)

  /** What an item that is not repeated does. */
  function Step(item: Item, src: string, i: nat, caps: seq<Cap>): (n: Next)
    requires i <= |src| && !item.Rep?
    ensures n.Go? ==> i <= n.i <= |src|
    ensures n.Stop? ==> !n.r.Hit?
  {
    match item
    case Bad => Stop(Err)
    case One(cls) => if Fits(cls, src, i) then Go(i + 1, caps) else Stop(Fail)
    case Open => if |caps| >= MAXCAPTURES then Stop(Err) else Go(i, caps + [Cap(i, UNFINISHED)])
    case OpenPosition => if |caps| >= MAXCAPTURES then Stop(Err) else Go(i, caps + [Cap(i, POSITION)])
    case Close =>
      var l := LastOpen(caps);
      if l < 0 then Stop(Err) else Go(i, caps[l := Cap(caps[l].init, i - caps[l].init)])
    case Balance(b, e) =>
      var j := BalanceEnd(src, i, b, e);
      if j.None? then Stop(Fail) else Go(j.value, caps)
    case Frontier(cls) => if AtFrontier(src, i, cls) then Go(i, caps) else Stop(Fail)
    case BackRef(d) =>
      var l := d as int - '1' as int;
      if l < 0 || l >= |caps| || caps[l].len == UNFINISHED then Stop(Err)
      else
        var j := BackRefEnd(src, i, caps[l]);
        if j.None? then Stop(Fail) else Go(j.value, caps)
    case AtEnd => if i == |src| then Go(i, caps) else Stop(Fail)
  }

  function Search(items: seq<Item>, src: string, i: nat, caps: seq<Cap>): (r: Res)
    requires i <= |src|
    ensures r.Hit? ==> i <= r.e <= |src|
    decreases |items|, 0, 0
  {
    if items == [] then Hit(i, caps)
    else
      var rest := items[1..];
      match items[0]
      case Rep(cls, mode) =>
        (match mode
         case Optional =>
           if Fits(cls, src, i) && Search(rest, src, i + 1, caps) != Fail then Search(rest, src, i + 1, caps)
           else Search(rest, src, i, caps)
         case Star => MaxFrom(items, cls, src, i, Longest(cls, src, i), caps)
         case Plus =>
           if Fits(cls, src, i) then MaxFrom(items, cls, src, i + 1, Longest(cls, src, i + 1), caps) else Fail
         case Lazy => MinFrom(items, cls, src, i, caps))
      case item =>
        (match Step(item, src, i, caps)
         case Stop(r) => r
         case Go(j, c) => Search(rest, src, j, c))
  }

  /** max_expand: with `n` repetitions, or else with fewer. */
  function MaxFrom(items: seq<Item>, cls: Single, src: string, i: nat, n: nat, caps: seq<Cap>): (r: Res)
    requires items != [] && i + n <= |src|
    ensures r.Hit? ==> i <= r.e <= |src|
    decreases |items| - 1, 1, n
  {
    var r := Search(items[1..], src, i + n, caps);
    if r != Fail || n == 0 then r else MaxFrom(items, cls, src, i, n - 1, caps)
  }

  /** min_expand: without repetition, or else with more. */
  function MinFrom(items: seq<Item>, cls: Single, src: string, i: nat, caps: seq<Cap>): (r: Res)
    requires items != [] && i <= |src|
    ensures r.Hit? ==> i <= r.e <= |src|
    decreases |items| - 1, 1, |src| - i
  {
    var r := Search(items[1..], src, i, caps);
    if r != Fail then r
    else if Fits(cls, src, i) then MinFrom(items, cls, src, i + 1, caps)
    else Fail
  }
}
