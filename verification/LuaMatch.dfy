/** The pattern matcher of lstrlib.c: it backtracks over the subject, and
    updates its captures in place. */
module LuaMatch {
  import opened Options
  import opened LuaPattern

  // ---------------------------------------------------------------------
  // Patterns that raise no error

  /** Captures lie before `i`. */
  predicate CapsOK(caps: seq<Cap>, i: nat) {
    |caps| <= MAXCAPTURES &&
    forall k :: 0 <= k < |caps| ==> caps[k].init <= i && caps[k].len >= POSITION && caps[k].init + caps[k].len <= i
  }

  /** Which captures are unfinished. */
  function Unfinished(caps: seq<Cap>): (u: seq<bool>)
    ensures |u| == |caps| && forall k :: 0 <= k < |caps| ==> u[k] == (caps[k].len == UNFINISHED)
  {
    seq(|caps|, k requires 0 <= k < |caps| => caps[k].len == UNFINISHED)
  }

  function LastTrue(u: seq<bool>): (l: int)
    ensures -1 <= l < |u| && (l >= 0 ==> u[l]) && forall k :: l < k < |u| ==> !u[k]
  {
    if u == [] then -1 else if u[|u| - 1] then |u| - 1 else LastTrue(u[..|u| - 1])
  }

  /** Sets are closed, parentheses match, and back references are to captures
      that are finished: `u` says which captures are not. */
  predicate WellFormed(items: seq<Item>, u: seq<bool>) {
    if items == [] then true !in u
    else
      var rest := items[1..];
      match items[0]
      case Bad => false
      case Open => |u| < MAXCAPTURES && WellFormed(rest, u + [true])
      case OpenPosition => |u| < MAXCAPTURES && WellFormed(rest, u + [false])
      case Close => LastTrue(u) >= 0 && WellFormed(rest, u[LastTrue(u) := false])
      case BackRef(d) =>
        var l := d as int - '1' as int;
        0 <= l < |u| && !u[l] && WellFormed(rest, u)
      case _ => WellFormed(rest, u)
  }

  /** Whether an item keeps the captures in order, and what it does to `u`. */
  lemma StepWellFormed(items: seq<Item>, src: string, i: nat, caps: seq<Cap>)
    requires i <= |src| && CapsOK(caps, i) && items != [] && !items[0].Rep? && WellFormed(items, Unfinished(caps))
    ensures var n := Step(items[0], src, i, caps);
      && n != Stop(Err) && (n.Go? ==> CapsOK(n.caps, n.i) && WellFormed(items[1..], Unfinished(n.caps)))
  {
    var n := Step(items[0], src, i, caps);
    if n.Go? {
      match items[0]
      case Open => assert Unfinished(n.caps) == Unfinished(caps) + [true];
      case OpenPosition => assert Unfinished(n.caps) == Unfinished(caps) + [false];
      case Close =>
        var l := LastTrue(Unfinished(caps));
        assert l == LastOpen(caps);
        assert Unfinished(n.caps) == Unfinished(caps)[l := false];
      case _ =>
    }
  }

  /** A well-formed pattern raises no error, and a match leaves no capture
      unfinished. */
  lemma {:induction false} NoError(items: seq<Item>, src: string, i: nat, caps: seq<Cap>)
    requires i <= |src| && CapsOK(caps, i) && WellFormed(items, Unfinished(caps))
    ensures var r := Search(items, src, i, caps);
      && r != Err
      && (r.Hit? ==> forall k :: 0 <= k < |r.caps| ==> r.caps[k].len != UNFINISHED)
    decreases |items|, 1, 0
  {
    if items == [] {
      forall k | 0 <= k < |caps| ensures caps[k].len != UNFINISHED { assert Unfinished(caps)[k] in Unfinished(caps); }
    } else if items[0].Rep? {
      var cls := items[0].cls;
      match items[0].mode
      case Optional =>
        NoError(items[1..], src, i, caps);
        if Fits(cls, src, i) { NoError(items[1..], src, i + 1, caps); }
      case Star => NoErrorMax(items, src, i, Longest(cls, src, i), caps);
      case Plus => if Fits(cls, src, i) { NoErrorMax(items, src, i + 1, Longest(cls, src, i + 1), caps); }
      case Lazy => NoErrorMin(items, src, i, caps);
    } else {
      StepWellFormed(items, src, i, caps);
      var n := Step(items[0], src, i, caps);
      if n.Go? { NoError(items[1..], src, n.i, n.caps); }
    }
  }

  lemma {:induction false} NoErrorMax(items: seq<Item>, src: string, i: nat, n: nat, caps: seq<Cap>)
    requires items != [] && items[0].Rep? && i + n <= |src| && CapsOK(caps, i) && WellFormed(items, Unfinished(caps))
    ensures var r := MaxFrom(items, items[0].cls, src, i, n, caps);
      && r != Err
      && (r.Hit? ==> forall k :: 0 <= k < |r.caps| ==> r.caps[k].len != UNFINISHED)
    decreases |items| - 1, 2, n
  {
    NoError(items[1..], src, i + n, caps);
    if n > 0 { NoErrorMax(items, src, i, n - 1, caps); }
  }

  lemma {:induction false} NoErrorMin(items: seq<Item>, src: string, i: nat, caps: seq<Cap>)
    requires items != [] && items[0].Rep? && i <= |src| && CapsOK(caps, i) && WellFormed(items, Unfinished(caps))
    ensures var r := MinFrom(items, items[0].cls, src, i, caps);
      && r != Err
      && (r.Hit? ==> forall k :: 0 <= k < |r.caps| ==> r.caps[k].len != UNFINISHED)
    decreases |items| - 1, 2, |src| - i
  {
    NoError(items[1..], src, i, caps);
    if Fits(items[0].cls, src, i) { NoErrorMin(items, src, i + 1, caps); }
  }

  /** Captures always lie in the part of the subject that has been matched. */
  lemma {:induction false} CapsKept(items: seq<Item>, src: string, i: nat, caps: seq<Cap>)
    requires i <= |src| && CapsOK(caps, i)
    ensures var r := Search(items, src, i, caps); r.Hit? ==> CapsOK(r.caps, r.e)
    decreases |items|, 1, 0
  {
    if items == [] {
    } else if items[0].Rep? {
      var cls := items[0].cls;
      match items[0].mode
      case Optional =>
        CapsKept(items[1..], src, i, caps);
        if Fits(cls, src, i) { CapsKept(items[1..], src, i + 1, caps); }
      case Star => CapsKeptMax(items, cls, src, i, Longest(cls, src, i), caps);
      case Plus => if Fits(cls, src, i) { CapsKeptMax(items, cls, src, i + 1, Longest(cls, src, i + 1), caps); }
      case Lazy => CapsKeptMin(items, cls, src, i, caps);
    } else {
      var n := Step(items[0], src, i, caps);
      if n.Go? { CapsKept(items[1..], src, n.i, n.caps); }
    }
  }

  lemma {:induction false} CapsKeptMax(items: seq<Item>, cls: Single, src: string, i: nat, n: nat, caps: seq<Cap>)
    requires items != [] && i + n <= |src| && CapsOK(caps, i)
    ensures var r := MaxFrom(items, cls, src, i, n, caps); r.Hit? ==> CapsOK(r.caps, r.e)
    decreases |items| - 1, 2, n
  {
    CapsKept(items[1..], src, i + n, caps);
    if n > 0 { CapsKeptMax(items, cls, src, i, n - 1, caps); }
  }

  lemma {:induction false} CapsKeptMin(items: seq<Item>, cls: Single, src: string, i: nat, caps: seq<Cap>)
    requires items != [] && i <= |src| && CapsOK(caps, i)
    ensures var r := MinFrom(items, cls, src, i, caps); r.Hit? ==> CapsOK(r.caps, r.e)
    decreases |items| - 1, 2, |src| - i
  {
    CapsKept(items[1..], src, i, caps);
    if Fits(cls, src, i) { CapsKeptMin(items, cls, src, i + 1, caps); }
  }

  // ---------------------------------------------------------------------
  // The matcher

  datatype Match = NoMatch | End(e: nat) | Error

  /** A capture that a match returns. */
  datatype Captured = Position(n: int) | Text(s: string)

  datatype Found = NotFound | FoundAt(start: nat, end: nat, captures: seq<Captured>) | FindError

  /** classend. */
  method ClassEndAt(p: string, i: nat) returns (ep: nat, ok: bool)
    requires i < |p|
    ensures if ok then ClassEnd(p, i) == Some(ep) else ClassEnd(p, i) == None
  {
    ep, ok := i + 1, true;
    if p[i] == '%' {
      if At(p, ep) == NUL { return 0, false; }
      ep := ep + 1;
    } else if p[i] == '[' {
      if At(p, ep) == '^' { ep := ep + 1; }
      ghost var j := ep;
      var more := true;
      while more
        invariant ep <= |p| && (more ==> SetEnd(p, ep) == SetEnd(p, j))
        invariant !more ==> At(p, ep) == ']' && SetEnd(p, j) == Some(ep + 1)
        decreases if more then |p| - ep + 1 else 0
      {
        if At(p, ep) == NUL { return 0, false; }
        var escape := At(p, ep) == '%';
        ep := ep + 1;
        if escape && At(p, ep) != NUL { ep := ep + 1; }
        more := At(p, ep) != ']';
      }
      ep := ep + 1;
    }
  }

  /** Whether a member of the set from `j` on matches. */
  predicate SomeElem(c: char, elems: seq<Elem>) { exists i :: 0 <= i < |elems| && InElem(c, elems[i]) }

  lemma SomeElemCons(c: char, e: Elem, rest: seq<Elem>)
    ensures SomeElem(c, [e] + rest) <==> InElem(c, e) || SomeElem(c, rest)
  {
    var all := [e] + rest;
    if InElem(c, e) { assert all[0] == e; }
    if SomeElem(c, rest) {
      var i :| 0 <= i < |rest| && InElem(c, rest[i]);
      assert all[i + 1] == rest[i];
    }
  }

  /** matchbracketclass: the set starts at `start` and closes at `ec`. */
  method MatchBracketClass(c: char, pat: string, start: nat, ec: nat) returns (res: bool)
    ensures res == Accepts(SetOf(pat, start, ec), c)
  {
    var sig, p := true, start;
    if At(pat, p + 1) == '^' {
      sig := false;
      p := p + 1;
    }
    p := p + 1;
    ghost var elems := Elems(pat, p, ec);
    while p < ec
      invariant SomeElem(c, elems) == SomeElem(c, Elems(pat, p, ec))
      decreases if p < ec then ec - p else 0
    {
      if At(pat, p) == '%' {
        SomeElemCons(c, Class(At(pat, p + 1)), Elems(pat, p + 2, ec));
        p := p + 1;
        if MatchClass(c, At(pat, p)) { return sig; }
      } else if At(pat, p + 1) == '-' && p + 2 < ec {
        SomeElemCons(c, Range(At(pat, p), At(pat, p + 2)), Elems(pat, p + 3, ec));
        p := p + 2;
        if At(pat, p - 2) <= c && c <= At(pat, p) { return sig; }
      } else {
        SomeElemCons(c, Char(At(pat, p)), Elems(pat, p + 1, ec));
        if At(pat, p) == c { return sig; }
      }
      p := p + 1;
    }
    res := !sig;
  }

  /** singlematch. */
  method SingleMatch(c: char, pat: string, p: nat, ep: nat) returns (res: bool)
    requires p < ep
    ensures res == Accepts(SingleOf(pat, p, ep), c)
  {
    if At(pat, p) == '.' {
      res := true;
    } else if At(pat, p) == '%' {
      res := MatchClass(c, At(pat, p + 1));
    } else if At(pat, p) == '[' {
      res := MatchBracketClass(c, pat, p, ep - 1);
    } else {
      res := At(pat, p) == c;
    }
  }

  /** MatchState. */
  class MatchState {
    const src: string
    const pat: string
    var level: nat
    const capture: array<Cap>

    ghost predicate Valid()
      reads this, capture
    {
      capture.Length == MAXCAPTURES && level <= MAXCAPTURES
    }

    /** The captures in use. */
    ghost function Caps(): seq<Cap>
      reads this, capture
      requires Valid()
    {
      capture[..level]
    }

    /** What a match has to come to: `r`, the captures having been `old`. */
    ghost predicate Comes(m: Match, r: Res, before: seq<Cap>)
      reads this, capture
      requires Valid()
    {
      match r
      case Fail => m == NoMatch && Caps() == before
      case Hit(e, caps) => m == End(e) && Caps() == caps
      case Err => m == Error
    }

    constructor (s: string, p: string)
      ensures Valid() && src == s && pat == p && level == 0 && fresh(capture)
    {
      src, pat, level := s, p, 0;
      capture := new Cap[MAXCAPTURES](_ => Cap(0, 0));
    }

    /** capture_to_close: the last unfinished capture, or -1. */
    method CaptureToClose() returns (l: int)
      requires Valid()
      ensures l == LastOpen(Caps())
    {
      l := level - 1;
      while l >= 0
        invariant -1 <= l < level && LastOpen(capture[..l + 1]) == LastOpen(capture[..level])
      {
        assert capture[..l + 1][..l] == capture[..l];
        if capture[l].len == UNFINISHED { return; }
        l := l - 1;
      }
    }

    /** matchbalance, the pattern giving the two characters. */
    method MatchBalance(s: nat, b: char, e: char) returns (r: Option<nat>)
      requires s <= |src|
      ensures r == BalanceEnd(src, s, b, e)
    {
      if s == |src| || src[s] != b { return None; }
      var cont, k := 1, s + 1;
      while k < |src|
        invariant s < k <= |src| && cont == Nesting(src, s, k, b, e) && cont != 0
        invariant BalanceFrom(src, s, k, b, e) == BalanceEnd(src, s, b, e)
      {
        if src[k] == e {
          cont := cont - 1;
          if cont == 0 { return Some(k + 1); }
        } else if src[k] == b {
          cont := cont + 1;
        }
        k := k + 1;
      }
      r := None;
    }

    /** match_capture: a back reference; Some(None) is a failure to match. */
    method MatchCapture(s: nat, d: char) returns (valid: bool, r: Option<nat>)
      requires Valid() && s <= |src|
      ensures var l := d as int - '1' as int;
        && valid == (0 <= l < level && capture[l].len != UNFINISHED)
        && (valid ==> r == BackRefEnd(src, s, capture[l]))
    {
      var l := d as int - '1' as int;
      if l < 0 || l >= level || capture[l].len == UNFINISHED { return false, None; }
      var c := capture[l];
      if c.len >= 0 && s + c.len <= |src| && c.init + c.len <= |src| && src[c.init..c.init + c.len] == src[s..s + c.len] {
        return true, Some(s + c.len);
      }
      return true, None;
    }

    /** start_capture. */
    method StartCapture(s: nat, p: nat, what: int) returns (m: Match)
      requires Valid() && s <= |src| && p <= |pat|
      modifies `level, capture
      ensures Valid()
      ensures Comes(m, if old(level) >= MAXCAPTURES then Err
                       else Search(Items(pat, p), src, s, old(Caps()) + [Cap(s, what)]), old(Caps()))
      decreases |pat| - p, 4, 0
    {
      if level >= MAXCAPTURES { return Error; }
      ghost var before := Caps();
      capture[level] := Cap(s, what);
      level := level + 1;
      assert Caps() == before + [Cap(s, what)];
      m := DoMatch(s, p);
      if m == NoMatch {
        assert Caps()[..level - 1] == before;
        level := level - 1;
      }
    }

    /** end_capture. */
    method EndCapture(s: nat, p: nat) returns (m: Match)
      requires Valid() && s <= |src| && p <= |pat|
      modifies `level, capture
      ensures Valid()
      ensures var caps, l := old(Caps()), LastOpen(old(Caps()));
        Comes(m, if l < 0 then Err else Search(Items(pat, p), src, s, caps[l := Cap(caps[l].init, s - caps[l].init)]), caps)
      decreases |pat| - p, 4, 0
    {
      var l := CaptureToClose();
      if l < 0 { return Error; }
      ghost var before := Caps();
      capture[l] := Cap(capture[l].init, s - capture[l].init);
      assert Caps() == before[l := Cap(before[l].init, s - before[l].init)];
      hide Search, Items;
      m := DoMatch(s, p);
      if m == NoMatch {
        assert Caps()[l] == Cap(before[l].init, s - before[l].init);
        capture[l] := Cap(capture[l].init, UNFINISHED);
        assert Caps() == before;
      }
    }

    /** max_expand. */
    method MaxExpand(s: nat, p: nat, ep: nat, ghost items: seq<Item>) returns (m: Match)
      requires Valid() && s <= |src| && p < ep < |pat| && items != [] && items[1..] == Items(pat, ep + 1)
      modifies `level, capture
      ensures Valid()
      ensures var cls := SingleOf(pat, p, ep);
        Comes(m, MaxFrom(items, cls, src, s, Longest(cls, src, s), old(Caps())), old(Caps()))
      decreases |pat| - p, 1, 0
    {
      hide Items, Search, SingleOf, Fits, Longest;
      ghost var cls, caps := SingleOf(pat, p, ep), Caps();
      var n := CountFits(s, p, ep);
      var i: int := n;
      while i >= 0
        invariant -1 <= i <= n && Valid() && Caps() == caps
        invariant i >= 0 ==> MaxFrom(items, cls, src, s, n, caps) == MaxFrom(items, cls, src, s, i, caps)
        invariant i < 0 ==> MaxFrom(items, cls, src, s, n, caps) == Fail
      {
        m := DoMatch(s + i, ep + 1);
        if m != NoMatch { return; }
        i := i - 1;
      }
      m := NoMatch;
    }

    /** The maximum expansion of an item. */
    method CountFits(s: nat, p: nat, ep: nat) returns (i: nat)
      requires s <= |src| && p < ep
      ensures i == Longest(SingleOf(pat, p, ep), src, s)
    {
      ghost var cls := SingleOf(pat, p, ep);
      hide SingleOf, Accepts;
      i := 0;
      var fits := FitsAt(s, p, ep);
      while fits
        invariant s + i <= |src| && fits == Fits(cls, src, s + i)
        invariant Longest(cls, src, s) == i + Longest(cls, src, s + i)
        decreases |src| - s - i
      {
        i := i + 1;
        fits := FitsAt(s + i, p, ep);
      }
    }

    /** min_expand. */
    method MinExpand(s: nat, p: nat, ep: nat, ghost items: seq<Item>) returns (m: Match)
      requires Valid() && s <= |src| && p < ep < |pat| && items != [] && items[1..] == Items(pat, ep + 1)
      modifies `level, capture
      ensures Valid()
      ensures Comes(m, MinFrom(items, SingleOf(pat, p, ep), src, s, old(Caps())), old(Caps()))
      decreases |pat| - p, 1, 0
    {
      ghost var cls, caps := SingleOf(pat, p, ep), Caps();
      var i := s;
      while true
        invariant s <= i <= |src| && Valid() && Caps() == caps
        invariant MinFrom(items, cls, src, s, caps) == MinFrom(items, cls, src, i, caps)
        decreases |src| - i
      {
        m := DoMatch(i, ep + 1);
        if m != NoMatch { return; }
        var fits := FitsAt(i, p, ep);
        if !fits { return NoMatch; }
        i := i + 1;
      }
    }

    /** Whether the class at `p` matches at `s`. */
    method FitsAt(s: nat, p: nat, ep: nat) returns (b: bool)
      requires p < ep && s <= |src|
      ensures b == Fits(SingleOf(pat, p, ep), src, s)
    {
      b := false;
      if s < |src| { b := SingleMatch(src[s], pat, p, ep); }
    }

    /** match. */
    method DoMatch(s0: nat, p0: nat) returns (m: Match)
      requires Valid() && s0 <= |src| && p0 <= |pat|
      modifies `level, capture
      ensures Valid() && Comes(m, Search(Items(pat, p0), src, s0, old(Caps())), old(Caps()))
      decreases |pat| - p0, 3, 0
    {
      var s: nat, p: nat := s0, p0;
      ghost var caps := Caps();
      var done := false;
      m := NoMatch;
      hide Items, Search, Step, ItemAt;
      while !done
        invariant s <= |src| && p0 <= p <= |pat| && Valid()
        invariant done ==> Comes(m, Search(Items(pat, p0), src, s0, caps), caps)
        invariant !done ==> Caps() == caps && Search(Items(pat, p), src, s, caps) == Search(Items(pat, p0), src, s0, caps)
        decreases !done, |pat| - p
      {
        var c, d := At(pat, p), At(pat, p + 1);
        if c == NUL {
          ItemsCons(pat, p, src, s, caps);
          return End(s);
        } else if c == '(' || c == ')' {
          m := MatchParen(s, p);
          done := true;
        } else if c == '%' && (d == 'b' || d == 'f' || IsDigit(d)) {
          done, m, s, p := MatchEscape(s, p);
        } else if c == '$' && d == NUL {
          AtEndSearch(pat, p, src, s, caps);
          m := if s == |src| then End(s) else NoMatch;
          done := true;
        } else {
          IsSimple(pat, p);
          done, m, s, p := MatchSimple(s, p);
        }
      }
    }

    method MatchParen(s: nat, p: nat) returns (m: Match)
      requires Valid() && s <= |src| && p < |pat| && (pat[p] == '(' || pat[p] == ')')
      modifies `level, capture
      ensures Valid() && Comes(m, Search(Items(pat, p), src, s, old(Caps())), old(Caps()))
      decreases |pat| - p, 2, 0
    {
      hide Items, Search;
      ItemsCons(pat, p, src, s, Caps());
      if pat[p] == ')' {
        m := EndCapture(s, p + 1);
      } else if At(pat, p + 1) == ')' {
        m := StartCapture(s, p + 2, POSITION);
      } else {
        m := StartCapture(s, p + 1, UNFINISHED);
      }
    }

    /** Either the match at `s` and `p` is decided, or it goes on from `s1` and
        `p1`. */
    ghost predicate GoesOn(done: bool, m: Match, s: nat, p: nat, s1: nat, p1: nat)
      reads this, capture
      requires Valid() && s <= |src| && p <= |pat|
    {
      && s1 <= |src| && p <= p1 <= |pat|
      && (done ==> Comes(m, Search(Items(pat, p), src, s, Caps()), Caps()))
      && (!done ==> p1 > p && Search(Items(pat, p1), src, s1, Caps()) == Search(Items(pat, p), src, s, Caps()))
    }

    method MatchEscape(s: nat, p: nat) returns (done: bool, m: Match, s1: nat, p1: nat)
      requires Valid() && s <= |src| && p < |pat| && pat[p] == '%'
      requires At(pat, p + 1) == 'b' || At(pat, p + 1) == 'f' || IsDigit(At(pat, p + 1))
      ensures GoesOn(done, m, s, p, s1, p1)
    {
      hide *;
      if At(pat, p + 1) == 'b' {
        done, m, s1, p1 := EscapeBalance(s, p);
      } else if At(pat, p + 1) == 'f' {
        done, m, s1, p1 := EscapeFrontier(s, p);
      } else {
        done, m, s1, p1 := EscapeBackRef(s, p);
      }
    }

    method EscapeBalance(s: nat, p: nat) returns (done: bool, m: Match, s1: nat, p1: nat)
      requires Valid() && s <= |src| && p < |pat| && pat[p] == '%' && At(pat, p + 1) == 'b'
      ensures GoesOn(done, m, s, p, s1, p1)
    {
      ItemsCons(pat, p, src, s, Caps());
      hide Items, Search, BalanceEnd, BackRefEnd, SimpleItem;
      done, m, s1, p1 := true, Error, s, p;
      if At(pat, p + 2) == NUL || At(pat, p + 3) == NUL { return; }
      var r := MatchBalance(s, At(pat, p + 2), At(pat, p + 3));
      m := NoMatch;
      if r.Some? { done, s1, p1 := false, r.value, p + 4; }
    }

    method EscapeFrontier(s: nat, p: nat) returns (done: bool, m: Match, s1: nat, p1: nat)
      requires Valid() && s <= |src| && p < |pat| && pat[p] == '%' && At(pat, p + 1) == 'f'
      ensures GoesOn(done, m, s, p, s1, p1)
    {
      ItemsCons(pat, p, src, s, Caps());
      hide Items, Search, ClassEnd, SetOf, Accepts, SimpleItem;
      done, m, s1, p1 := true, Error, s, p;
      if At(pat, p + 2) != '[' { return; }
      var ep, ok := ClassEndAt(pat, p + 2);
      if !ok { return; }
      m := NoMatch;
      var before := MatchBracketClass(if s == 0 then NUL else src[s - 1], pat, p + 2, ep - 1);
      if before { return; }
      var here := MatchBracketClass(At(src, s), pat, p + 2, ep - 1);
      if here { done, p1 := false, ep; }
    }

    method EscapeBackRef(s: nat, p: nat) returns (done: bool, m: Match, s1: nat, p1: nat)
      requires Valid() && s <= |src| && p < |pat| && pat[p] == '%' && IsDigit(At(pat, p + 1))
      ensures GoesOn(done, m, s, p, s1, p1)
    {
      ItemsCons(pat, p, src, s, Caps());
      hide Items, Search, BackRefEnd, SimpleItem;
      done, m, s1, p1 := true, Error, s, p;
      var valid, r := MatchCapture(s, At(pat, p + 1));
      if !valid { return; }
      m := NoMatch;
      if r.Some? { done, s1, p1 := false, r.value, p + 2; }
    }

    /** A single-character class and its suffix: either the match is decided, or
        it goes on from `s1` and `p1`. */
    method MatchSimple(s: nat, p: nat) returns (done: bool, m: Match, s1: nat, p1: nat)
      requires Valid() && s <= |src| && p < |pat| && At(pat, p) != NUL && ItemAt(pat, p) == SimpleItem(pat, p)
      modifies `level, capture
      ensures Valid() && s1 <= |src| && p <= p1 <= |pat|
      ensures done ==> Comes(m, Search(Items(pat, p), src, s, old(Caps())), old(Caps()))
      ensures !done ==> p1 > p && Caps() == old(Caps())
      ensures !done ==> Search(Items(pat, p1), src, s1, Caps()) == Search(Items(pat, p), src, s, Caps())
      decreases |pat| - p, 2, 0
    {
      ghost var items, caps := Items(pat, p), Caps();
      hide Items, Search, MaxFrom, MinFrom, ItemAt, ClassEnd, SingleOf, Accepts, Longest, Fits;
      ItemsCons(pat, p, src, s, caps);
      var ep, ok := ClassEndAt(pat, p);
      if !ok { return true, Error, s, p; }
      var fits := FitsAt(s, p, ep);
      var e := At(pat, ep);
      if e == '?' || e == '*' || e == '+' || e == '-' {
        RepSearch(items, src, s, caps);
        done, m, s1, p1 := MatchRepeated(s, p, ep, fits, items);
      } else if fits {
        done, m, s1, p1 := false, NoMatch, s + 1, ep;
      } else {
        done, m, s1, p1 := true, NoMatch, s, p;
      }
    }

    /** An item with one of the suffixes. */
    method MatchRepeated(s: nat, p: nat, ep: nat, fits: bool, ghost items: seq<Item>)
      returns (done: bool, m: Match, s1: nat, p1: nat)
      requires Valid() && s <= |src| && p < ep < |pat| && items != [] && items[1..] == Items(pat, ep + 1)
      requires fits == Fits(SingleOf(pat, p, ep), src, s) && At(pat, ep) in "?*+-"
      modifies `level, capture
      ensures Valid() && s1 <= |src| && p <= p1 <= |pat|
      ensures var cls, rest, caps := SingleOf(pat, p, ep), Items(pat, ep + 1), old(Caps());
        var r := match At(pat, ep)
          case '?' => if fits && Search(rest, src, s + 1, caps) != Fail then Search(rest, src, s + 1, caps)
                      else Search(rest, src, s, caps)
          case '*' => MaxFrom(items, cls, src, s, Longest(cls, src, s), caps)
          case '+' => if fits then MaxFrom(items, cls, src, s + 1, Longest(cls, src, s + 1), caps) else Fail
          case _ => MinFrom(items, cls, src, s, caps);
        && (done ==> Comes(m, r, caps))
        && (!done ==> p1 > p && Caps() == caps && Search(Items(pat, p1), src, s1, caps) == r)
      decreases |pat| - p, 1, 1
    {
      hide Items, Search, MaxFrom, MinFrom, SingleOf, Accepts, Longest;
      done, m, s1, p1 := true, NoMatch, s, p;
      var e := At(pat, ep);
      if e == '?' {
        if fits {
          m := DoMatch(s + 1, ep + 1);
          if m != NoMatch { return; }
        }
        done, p1 := false, ep + 1;
      } else if e == '*' {
        m := MaxExpand(s, p, ep, items);
      } else if e == '+' {
        if fits { m := MaxExpand(s + 1, p, ep, items); }
      } else {
        m := MinExpand(s, p, ep, items);
      }
    }
  }

  lemma IsSimple(p: string, i: nat)
    requires i < |p| && p[i] != NUL && p[i] != '(' && p[i] != ')' && !(p[i] == '$' && At(p, i + 1) == NUL)
    requires !(p[i] == '%' && (At(p, i + 1) == 'b' || At(p, i + 1) == 'f' || IsDigit(At(p, i + 1))))
    ensures ItemAt(p, i) == SimpleItem(p, i)
  {}

  /** What a search makes of the item at `i`. */
  lemma ItemsCons(p: string, i: nat, src: string, s: nat, caps: seq<Cap>)
    requires i <= |p| && s <= |src|
    ensures At(p, i) == NUL ==> Search(Items(p, i), src, s, caps) == Hit(s, caps)
    ensures At(p, i) != NUL ==> var (item, next) := ItemAt(p, i);
      if item.Bad? then Search(Items(p, i), src, s, caps) == Err
      else Items(p, i) != [] && Items(p, i)[0] == item && Items(p, i)[1..] == Items(p, next)
           && (!item.Rep? ==>
                Search(Items(p, i), src, s, caps) ==
                 (match Step(item, src, s, caps) case Stop(r) => r case Go(j, c) => Search(Items(p, next), src, j, c)))
  {}

  lemma RepSearch(items: seq<Item>, src: string, s: nat, caps: seq<Cap>)
    requires s <= |src| && items != [] && items[0].Rep?
    ensures var cls, rest := items[0].cls, items[1..];
      Search(items, src, s, caps) ==
        match items[0].mode
        case Optional =>
          if Fits(cls, src, s) && Search(rest, src, s + 1, caps) != Fail then Search(rest, src, s + 1, caps)
          else Search(rest, src, s, caps)
        case Star => MaxFrom(items, cls, src, s, Longest(cls, src, s), caps)
        case Plus =>
          if Fits(cls, src, s) then MaxFrom(items, cls, src, s + 1, Longest(cls, src, s + 1), caps) else Fail
        case Lazy => MinFrom(items, cls, src, s, caps)
  {}

  /** An end at the very end of the pattern. */
  lemma AtEndSearch(p: string, i: nat, src: string, s: nat, caps: seq<Cap>)
    requires i < |p| && s <= |src| && At(p, i) == '$' && At(p, i + 1) == NUL
    ensures Search(Items(p, i), src, s, caps) == if s == |src| then Hit(s, caps) else Fail
  {
    ItemsCons(p, i, src, s, caps);
    ItemsCons(p, i + 1, src, s, caps);
  }

  // ---------------------------------------------------------------------
  // string.find and string.match

  /** posrelat: a negative position counts from the end. */
  function PosRelat(pos: int, len: nat): int {
    var p := if pos < 0 then pos + len + 1 else pos;
    if p >= 0 then p else 0
  }

  predicate OccursAt(s1: string, s2: string, i: nat) { i + |s2| <= |s1| && s1[i..i + |s2|] == s2 }

  /** memchr. */
  function MemChr(s: string, i: nat, n: nat, c: char): (r: Option<nat>)
    requires i + n <= |s|
    ensures r.Some? ==> i <= r.value < i + n && s[r.value] == c && forall k :: i <= k < r.value ==> s[k] != c
    ensures r.None? ==> forall k :: i <= k < i + n ==> s[k] != c
    decreases n
  {
    if n == 0 then None else if s[i] == c then Some(i) else MemChr(s, i + 1, n - 1, c)
  }

  /** lmemfind: the first occurrence, or -1. */
  method LMemFind(s1: string, s2: string) returns (r: int)
    ensures r < 0 ==> forall i: nat :: !OccursAt(s1, s2, i)
    ensures r >= 0 ==> OccursAt(s1, s2, r) && forall i: nat :: i < r ==> !OccursAt(s1, s2, i)
  {
    if |s2| == 0 { return 0; }
    if |s2| > |s1| { return -1; }
    var l2 := |s2| - 1;
    var l1, p := |s1| - l2, 0;
    while l1 > 0
      invariant 0 <= p && l1 >= 0 && p + l1 + l2 == |s1|
      invariant forall i: nat :: i < p ==> !OccursAt(s1, s2, i)
      decreases l1
    {
      var init := MemChr(s1, p, l1, s2[0]);
      if init.None? {
        forall i: nat | p <= i ensures !OccursAt(s1, s2, i) { FirstChar(s1, s2, i); }
        return -1;
      }
      var at := init.value;
      forall i: nat | p <= i < at ensures !OccursAt(s1, s2, i) { FirstChar(s1, s2, i); }
      FirstAndRest(s1, s2, at);
      if s1[at + 1..at + 1 + l2] == s2[1..] { return at; }
      l1 := l1 - (at + 1 - p);
      p := at + 1;
    }
    r := -1;
  }

  lemma FirstChar(s1: string, s2: string, i: nat)
    requires s2 != []
    ensures OccursAt(s1, s2, i) ==> i + |s2| <= |s1| && s1[i] == s2[0]
  {
    if OccursAt(s1, s2, i) { assert s1[i..i + |s2|][0] == s1[i]; }
  }

  lemma FirstAndRest(s1: string, s2: string, i: nat)
    requires s2 != [] && i + |s2| <= |s1| && s1[i] == s2[0]
    ensures OccursAt(s1, s2, i) <==> s1[i + 1..i + |s2|] == s2[1..]
  {
    assert s1[i..i + |s2|] == [s1[i]] + s1[i + 1..i + |s2|];
    assert s2 == [s2[0]] + s2[1..];
    assert s1[i..i + |s2|][1..] == s1[i + 1..i + |s2|];
  }

  /** push_onecapture: None is the error for an unfinished capture. */
  function CaptureValue(src: string, c: Cap): Option<Captured>
    requires c.init + c.len <= |src| && c.len >= POSITION
  {
    if c.len == UNFINISHED then None
    else if c.len == POSITION then Some(Position(c.init + 1))
    else Some(Text(src[c.init..c.init + c.len]))
  }

  /** `vals` are the values of the captures, or `caps` has an unfinished one. */
  ghost predicate CaptureValues(src: string, caps: seq<Cap>, vals: Option<seq<Captured>>)
    requires CapsOK(caps, |src|)
  {
    match vals
    case None => exists k :: 0 <= k < |caps| && caps[k].len == UNFINISHED
    case Some(v) => |v| == |caps| && forall k :: 0 <= k < |caps| ==> CaptureValue(src, caps[k]) == Some(v[k])
  }

  /** push_captures; without captures, the whole match if it is asked for. */
  method PushCaptures(ms: MatchState, whole: bool, s: nat, e: nat) returns (r: Option<seq<Captured>>)
    requires ms.Valid() && CapsOK(ms.Caps(), |ms.src|) && s <= e <= |ms.src|
    ensures if ms.level == 0 && whole then r == Some([Text(ms.src[s..e])]) else CaptureValues(ms.src, ms.Caps(), r)
  {
    if ms.level == 0 && whole { return Some([Text(ms.src[s..e])]); }
    var vals: seq<Captured> := [];
    var i := 0;
    ghost var caps := ms.Caps();
    while i < ms.level
      invariant 0 <= i <= ms.level && |vals| == i
      invariant forall k :: 0 <= k < i ==> CaptureValue(ms.src, caps[k]) == Some(vals[k])
    {
      assert caps[i] == ms.capture[i];
      var v := CaptureValue(ms.src, ms.capture[i]);
      if v.None? { return None; }
      vals := vals + [v.value];
      i := i + 1;
    }
    r := Some(vals);
  }

  const SPECIALS: string := "^$*+?.([%-"

  /** strpbrk(p, SPECIALS) == NULL: only the part before a NUL is seen. */
  predicate NoSpecials(p: string) {
    p == [] || p[0] == NUL || (p[0] !in SPECIALS && NoSpecials(p[1..]))
  }

  /** Where the search begins. */
  function StartOf(init: int, len: nat): nat {
    var i := PosRelat(init, len) - 1;
    if i < 0 then 0 else if i > len then len else i
  }

  /** What the pattern makes of the subject at `i`. */
  function ResultAt(s: string, p: string, anchor: bool, i: nat): Res
    requires i <= |s| && (anchor ==> p != [])
  {
    Search(Items(p, if anchor then 1 else 0), s, i, [])
  }

  /** What a search finds at `a`. */
  ghost predicate OutcomeAt(s: string, p: string, anchor: bool, find: bool, a: nat, r: Found)
    requires a <= |s| && (anchor ==> p != [])
  {
    var res := ResultAt(s, p, anchor, a);
    match r
    case NotFound => res == Fail
    case FoundAt(start, e, vals) =>
      start == a && res.Hit? && res.e == e && a <= e <= |s|
      && if res.caps == [] && !find then vals == [Text(s[a..e])]
         else CapsOK(res.caps, |s|) && CaptureValues(s, res.caps, Some(vals))
    case FindError => res == Err || (res.Hit? && CapsOK(res.caps, |s|) && CaptureValues(s, res.caps, None))
  }

  /** The outcome of a search for a pattern: that of the leftmost place from
      `from` on where the pattern does not fail. */
  ghost predicate Leftmost(s: string, p: string, from: nat, find: bool, r: Found)
    requires from <= |s|
  {
    var anchor := At(p, 0) == '^';
    var last := if anchor then from else |s|;
    if r == NotFound then forall i :: from <= i <= last ==> ResultAt(s, p, anchor, i) == Fail
    else
      exists a :: from <= a <= last && OutcomeAt(s, p, anchor, find, a, r)
        && (forall i :: from <= i < a ==> ResultAt(s, p, anchor, i) == Fail)
  }

  /** The leftmost occurrence of a plain string. */
  ghost predicate LeftmostPlain(s: string, p: string, from: nat, r: Found) {
    match r
    case NotFound => forall i: nat :: i >= from ==> !OccursAt(s, p, i)
    case FoundAt(a, e, vals) =>
      a >= from && OccursAt(s, p, a) && e == a + |p| && vals == [] && forall i: nat :: from <= i < a ==> !OccursAt(s, p, i)
    case FindError => false
  }

  /** What string.find and string.match promise of their result. */
  ghost predicate Finds(s: string, p: string, init: int, plain: bool, find: bool, r: Found) {
    var from := StartOf(init, |s|);
    if find && (plain || NoSpecials(p)) then LeftmostPlain(s, p, from, r) else Leftmost(s, p, from, find, r)
  }

  /** str_find_aux. */
  method StrFindAux(s: string, p: string, init: int, plain: bool, find: bool) returns (r: Found)
    ensures Finds(s, p, init, plain, find, r)
  {
    var from := StartOf(init, |s|);
    if find && (plain || NoSpecials(p)) {
      var at := LMemFind(s[from..], p);
      forall i: nat | i >= from ensures OccursAt(s, p, i) == OccursAt(s[from..], p, i - from) { OccursShift(s, p, from, i); }
      r := if at < 0 then NotFound else FoundAt(from + at, from + at + |p|, []);
    } else {
      r := FindPattern(s, p, from, find);
    }
  }

  method FindPattern(s: string, p: string, from: nat, find: bool) returns (r: Found)
    requires from <= |s|
    ensures Leftmost(s, p, from, find, r)
  {
    var anchor := At(p, 0) == '^';
    var start := if anchor then 1 else 0;
    var ms := new MatchState(s, p);
    var s1 := from;
    while true
      invariant from <= s1 <= |s| && ms.Valid() && ms.src == s && ms.pat == p && fresh(ms) && fresh(ms.capture)
      invariant forall i :: from <= i < s1 ==> ResultAt(s, p, anchor, i) == Fail
      invariant anchor ==> s1 == from
      decreases |s| - s1
    {
      hide ResultAt;
      r := TryAt(ms, s1, start, find);
      if r != NotFound {
        assert OutcomeAt(s, p, anchor, find, s1, r);
        return;
      }
      if s1 == |s| || anchor { return; }
      s1 := s1 + 1;
    }
  }

  /** One attempt at a match. */
  method TryAt(ms: MatchState, s1: nat, start: nat, find: bool) returns (r: Found)
    requires ms.Valid() && s1 <= |ms.src| && start == if At(ms.pat, 0) == '^' then 1 else 0
    modifies ms`level, ms.capture
    ensures ms.Valid() && OutcomeAt(ms.src, ms.pat, At(ms.pat, 0) == '^', find, s1, r)
    ensures r == NotFound ==> ResultAt(ms.src, ms.pat, At(ms.pat, 0) == '^', s1) == Fail
  {
    ms.level := 0;
    assert ms.Caps() == [];
    CapsKept(Items(ms.pat, start), ms.src, s1, []);
    hide Search, Items, CapsOK, CaptureValues;
    var m := ms.DoMatch(s1, start);
    if m == Error { return FindError; }
    if m == NoMatch { return NotFound; }
    CapsWithin(ms.Caps(), m.e, |ms.src|);
    var vals := PushCaptures(ms, !find, s1, m.e);
    r := if vals.None? then FindError else FoundAt(s1, m.e, vals.value);
  }

  lemma CapsWithin(caps: seq<Cap>, e: nat, n: nat)
    requires CapsOK(caps, e) && e <= n
    ensures CapsOK(caps, n)
  {}

  lemma OccursShift(s: string, p: string, from: nat, i: nat)
    requires from <= |s| && i >= from
    ensures OccursAt(s, p, i) == OccursAt(s[from..], p, i - from)
  {
    if i + |p| <= |s| { assert s[from..][i - from..i - from + |p|] == s[i..i + |p|]; }
  }
}
