/** What patterns match, in character codes and places of the subject. */
module LuaPatternLaws {
  import opened Options
  import opened LuaPattern
  import opened LuaPatternText
  import opened LuaPatternMeaning
  import opened LuaMatch

  // ---------------------------------------------------------------------
  // Classes of characters

  /** The ten classes, which their lower-case letters name. */
  predicate Named(cl: char) {
    cl == 'a' || cl == 'c' || cl == 'd' || cl == 'l' || cl == 'p' || cl == 's' || cl == 'u' || cl == 'w' || cl == 'x'
    || cl == 'z'
  }

  predicate InNamed(cl: char, n: int)
    requires Named(cl)
  {
    match cl
    case 'a' => 65 <= n <= 90 || 97 <= n <= 122
    case 'c' => 0 <= n <= 31 || n == 127
    case 'd' => 48 <= n <= 57
    case 'l' => 97 <= n <= 122
    case 'p' => 33 <= n <= 47 || 58 <= n <= 64 || 91 <= n <= 96 || 123 <= n <= 126
    case 's' => n == 32 || 9 <= n <= 13
    case 'u' => 65 <= n <= 90
    case 'w' => 48 <= n <= 57 || 65 <= n <= 90 || 97 <= n <= 122
    case 'x' => 48 <= n <= 57 || 65 <= n <= 70 || 97 <= n <= 102
    case _ => n == 0
  }

  /** The class that a character names behind `%`: one of the ten, or by its
      upper-case letter all other characters, or the character itself. */
  predicate Stands(cl: char, c: char) {
    if Named(cl) then InNamed(cl, c as int)
    else if 65 <= cl as int <= 90 && Named((cl as int + 32) as char) then !InNamed((cl as int + 32) as char, c as int)
    else c == cl
  }

  lemma StandsIs(cl: char, c: char)
    ensures MatchClass(c, cl) <==> Stands(cl, c)
  {}

  predicate ElemHas(e: Elem, c: char) {
    match e
    case Char(d) => c == d
    case Range(lo, hi) => lo as int <= c as int <= hi as int
    case Class(cl) => Stands(cl, c)
  }

  /** The characters that a class of a pattern accepts. */
  predicate Has(cls: Single, c: char) {
    match cls
    case Any => true
    case Lit(d) => c == d
    case OfClass(cl) => Stands(cl, c)
    case Set(negated, elems) =>
      if negated then forall k :: 0 <= k < |elems| ==> !ElemHas(elems[k], c)
      else exists k :: 0 <= k < |elems| && ElemHas(elems[k], c)
  }

  lemma HasIs(cls: Single, c: char)
    ensures Accepts(cls, c) <==> Has(cls, c)
  {
    if cls.OfClass? { StandsIs(cls.cl, c); }
    if cls.Set? {
      forall k | 0 <= k < |cls.elems| ensures InElem(c, cls.elems[k]) <==> ElemHas(cls.elems[k], c) {
        if cls.elems[k].Class? { StandsIs(cls.elems[k].cl, c); }
      }
    }
  }

  predicate HasAt(cls: Single, s: string, i: nat) { i < |s| && Has(cls, s[i]) }

  lemma HasAtIs(cls: Single, s: string, i: nat)
    ensures Fits(cls, s, i) <==> HasAt(cls, s, i)
  {
    if i < |s| { HasIs(cls, s[i]); }
  }

  // ---------------------------------------------------------------------
  // From the text of a pattern to its items

  lemma ResultOf(s: string, items: seq<Item>, i: nat)
    requires Printable(items) && i <= |s|
    ensures ResultAt(s, PatternText(items), false, i) == Search(items, s, i, [])
  {
    PatternRoundTrip(items);
  }

  lemma {:induction false} OneSearch(cls: Single, rest: seq<Item>, s: string, i: nat, caps: seq<Cap>)
    requires i <= |s|
    ensures Search([One(cls)] + rest, s, i, caps) == if HasAt(cls, s, i) then Search(rest, s, i + 1, caps) else Fail
  {
    HasAtIs(cls, s, i);
    assert ([One(cls)] + rest)[1..] == rest;
  }

  /** A class by itself matches one character that it has. */
  lemma ClassResult(cls: Single, s: string, i: nat)
    requires PrintableSingle(cls) && i <= |s|
    ensures ResultAt(s, SingleText(cls), false, i) == if HasAt(cls, s, i) then Hit(i + 1, []) else Fail
  {
    ResultOf(s, [One(cls)], i);
    assert PatternText([One(cls)]) == SingleText(cls);
    OneSearch(cls, [], s, i, []);
    assert [One(cls)] + [] == [One(cls)];
  }

  /** Where a search begins: places count from 1, negative ones from the end. */
  function From(init: int, len: nat): (i: nat)
    ensures i <= len
  {
    if init > len then len else if init > 0 then init - 1 else if init < 0 <= len + init then len + init else 0
  }

  lemma FromIs(init: int, len: nat)
    ensures StartOf(init, len) == From(init, len)
  {}

  lemma NotPlain(cls: Single)
    requires PrintableSingle(cls) && !cls.Lit?
    ensures !NoSpecials(SingleText(cls)) && At(SingleText(cls), 0) != '^'
  {
    assert SingleText(cls)[0] in SPECIALS;
  }

  /** `r` is one character of the class, the first from `from` on, or nothing. */
  ghost predicate FirstOfClass(cls: Single, s: string, from: nat, find: bool, r: Found) {
    if r == NotFound then forall i :: from <= i < |s| ==> !Has(cls, s[i])
    else
      exists a :: from <= a < |s| && r == FoundAt(a, a + 1, if find then [] else [Text(s[a..a + 1])]) && Has(cls, s[a])
        && (forall i :: from <= i < a ==> !Has(cls, s[i]))
  }

  /** string.find and string.match on a class by itself: the first character
      from the start on that the class has. */
  lemma ClassFinds(cls: Single, s: string, init: int, find: bool, r: Found)
    requires PrintableSingle(cls) && Finds(s, SingleText(cls), init, false, find, r)
    ensures FirstOfClass(cls, s, From(init, |s|), find, r)
  {
    FromIs(init, |s|);
    var from, p := From(init, |s|), SingleText(cls);
    if cls.Lit? {
      LitFinds(cls.c, s, from, find, r);
    } else {
      NotPlain(cls);
      ClassLeftmost(cls, s, from, find, r);
    }
  }

  lemma ClassLeftmost(cls: Single, s: string, from: nat, find: bool, r: Found)
    requires PrintableSingle(cls) && from <= |s| && At(SingleText(cls), 0) != '^' && Leftmost(s, SingleText(cls), from, find, r)
    ensures FirstOfClass(cls, s, from, find, r)
  {
    hide ResultAt, Has, SingleText, PrintableSingle;
    var p := SingleText(cls);
    forall i | from <= i <= |s| ensures ResultAt(s, p, false, i) == if HasAt(cls, s, i) then Hit(i + 1, []) else Fail {
      ClassResult(cls, s, i);
    }
    if r == NotFound {
      forall i | from <= i < |s| ensures !Has(cls, s[i]) {
        assert ResultAt(s, p, At(p, 0) == '^', i) == Fail;
        assert !HasAt(cls, s, i);
      }
    } else {
      var a :| from <= a <= |s| && OutcomeAt(s, p, false, find, a, r)
        && (forall i :: from <= i < a ==> ResultAt(s, p, false, i) == Fail);
      assert HasAt(cls, s, a);
      forall i | from <= i < a ensures !Has(cls, s[i]) { assert ResultAt(s, p, false, i) == Fail; }
    }
  }

  lemma LitFinds(c: char, s: string, from: nat, find: bool, r: Found)
    requires Literal(c) && from <= |s|
    requires if find && NoSpecials([c]) then LeftmostPlain(s, [c], from, r) else Leftmost(s, [c], from, find, r)
    ensures FirstOfClass(Lit(c), s, from, find, r)
  {
    assert NoSpecials([c]) by { assert [c][1..] == []; }
    assert SingleText(Lit(c)) == [c];
    if find {
      forall i: nat ensures OccursAt(s, [c], i) <==> i < |s| && s[i] == c {
        if i < |s| { assert s[i..i + 1] == [s[i]]; }
      }
    } else {
      ClassLeftmost(Lit(c), s, from, find, r);
    }
  }

  /** With `^` only the start itself is tried. */
  lemma AnchorFinds(cls: Single, s: string, init: int, find: bool, r: Found)
    requires PrintableSingle(cls) && Finds(s, "^" + SingleText(cls), init, false, find, r)
    ensures var a := From(init, |s|);
      r == if HasAt(cls, s, a) then FoundAt(a, a + 1, if find then [] else [Text(s[a..a + 1])]) else NotFound
  {
    var p, a := "^" + SingleText(cls), From(init, |s|);
    FromIs(init, |s|);
    assert p[0] in SPECIALS && At(p, 0) == '^';
    assert p[1..] == SingleText(cls) == PatternText([One(cls)]);
    ItemsOfText(p, 1, [One(cls)]);
    OneSearch(cls, [], s, a, []);
    assert [One(cls)] + [] == [One(cls)];
    assert ResultAt(s, p, true, a) == if HasAt(cls, s, a) then Hit(a + 1, []) else Fail;
  }

  /** `$` at the end of a pattern holds at the end of the subject only. */
  lemma EndResult(cls: Single, s: string, i: nat)
    requires PrintableSingle(cls) && i <= |s|
    ensures ResultAt(s, SingleText(cls) + "$", false, i) == if HasAt(cls, s, i) && i + 1 == |s| then Hit(|s|, []) else Fail
  {
    var items := [One(cls), AtEnd];
    assert items[1..] == [AtEnd] && PatternText([AtEnd]) == "$" && PatternText(items) == SingleText(cls) + "$";
    ResultOf(s, items, i);
    OneSearch(cls, [AtEnd], s, i, []);
    assert items == [One(cls)] + [AtEnd];
  }

  // ---------------------------------------------------------------------
  // Repetition

  /** From `i` to `e` there are only characters of `cls`, as many as the mode
      allows, and one of `d` follows. */
  ghost predicate Repeated(cls: Single, mode: Mode, d: Single, s: string, i: nat, e: nat) {
    && i <= e && (mode == Optional ==> e <= i + 1) && (mode == Plus ==> i < e)
    && (forall k :: i <= k < e ==> HasAt(cls, s, k))
    && HasAt(d, s, e)
  }

  /** A repeated class and another class behind it: the least such place for
      `-`, the greatest for the other suffixes. */
  lemma RepResult(cls: Single, mode: Mode, d: Single, s: string, i: nat)
    requires PrintableSingle(cls) && PrintableSingle(d) && i <= |s|
    ensures var r := ResultAt(s, SingleText(cls) + ModeText(mode) + SingleText(d), false, i);
      if r == Fail then forall e: nat :: !Repeated(cls, mode, d, s, i, e)
      else
        && r.Hit? && r.caps == [] && r.e > 0 && Repeated(cls, mode, d, s, i, r.e - 1)
        && (forall e: nat :: Repeated(cls, mode, d, s, i, e) ==> if mode == Lazy then r.e - 1 <= e else e <= r.e - 1)
  {
    var items := [Rep(cls, mode), One(d)];
    assert items[1..] == [One(d)] && PatternText([One(d)]) == SingleText(d);
    assert PatternText(items) == SingleText(cls) + ModeText(mode) + SingleText(d);
    ResultOf(s, items, i);
    hide PatternText, SingleText, ModeText, Search, Repeated, IsFirst, First, Nothing, ResultAt, Run, Preferred;
    var r := Search(items, s, i, []);
    var counts := SearchIsFirst(items, s, i, []);
    if r == Fail {
      forall e: nat ensures !Repeated(cls, mode, d, s, i, e) {
        if i <= e {
          NothingElim(items, s, i, [e - i]);
          RunOne(cls, mode, d, s, i, [e - i]);
        } else {
          NotBefore(cls, mode, d, s, i, e);
        }
      }
    } else {
      FirstElim(items, s, i, counts, r);
      RunOne(cls, mode, d, s, i, counts);
      forall e: nat | Repeated(cls, mode, d, s, i, e) ensures if mode == Lazy then r.e - 1 <= e else e <= r.e - 1 {
        RunOne(cls, mode, d, s, i, [e - i]);
        PreferredOne(cls, mode, d, e - i, counts[0]);
      }
    }
  }

  lemma NotBefore(cls: Single, mode: Mode, d: Single, s: string, i: nat, e: nat)
    requires e < i
    ensures !Repeated(cls, mode, d, s, i, e)
  {}

  lemma NothingElim(items: seq<Item>, s: string, i: nat, counts: seq<nat>)
    requires i <= |s| && IsFirst(items, s, i, [], [], Fail)
    ensures Run(items, s, i, [], counts) == Fail
  {}

  lemma FirstElim(items: seq<Item>, s: string, i: nat, counts: seq<nat>, r: Res)
    requires i <= |s| && IsFirst(items, s, i, [], counts, r) && r != Fail
    ensures Run(items, s, i, [], counts) == r
    ensures forall other :: Preferred(items, other, counts) ==> Run(items, s, i, [], other) == Fail
  {}

  lemma PreferredOne(cls: Single, mode: Mode, d: Single, a: nat, b: nat)
    ensures Preferred([Rep(cls, mode), One(d)], [a], [b]) == (a != b && if mode == Lazy then a < b else a > b)
  {
    assert [Rep(cls, mode), One(d)][1..] == [One(d)] && [One(d)][1..] == [];
    assert [a][1..] == [] && [b][1..] == [];
    assert !Preferred([One(d)], [], []);
  }

  lemma RunOne(cls: Single, mode: Mode, d: Single, s: string, i: nat, counts: seq<nat>)
    requires i <= |s|
    ensures Run([Rep(cls, mode), One(d)], s, i, [], counts) ==
              if |counts| == 1 && Repeated(cls, mode, d, s, i, i + counts[0]) then Hit(i + counts[0] + 1, []) else Fail
  {
    hide Fits, Has;
    var items := [Rep(cls, mode), One(d)];
    assert items[1..] == [One(d)] && [One(d)][1..] == [];
    if counts != [] {
      var n := counts[0];
      forall k ensures Fits(cls, s, k) <==> HasAt(cls, s, k) { HasAtIs(cls, s, k); }
      HasAtIs(d, s, i + n);
      assert i + n <= |s| && Repeats(cls, mode, s, i, n) && HasAt(d, s, i + n) <==> Repeated(cls, mode, d, s, i, i + n);
      RunLast(d, s, i + n, counts[1..]);
    }
  }

  lemma RunLast(d: Single, s: string, i: nat, counts: seq<nat>)
    ensures i <= |s| ==> Run([One(d)], s, i, [], counts) == if counts == [] && HasAt(d, s, i) then Hit(i + 1, []) else Fail
  {
    HasAtIs(d, s, i);
    assert [One(d)][1..] == [];
  }

  // ---------------------------------------------------------------------
  // Captures

  /** Parentheses capture what the class between them matched. */
  lemma CaptureResult(cls: Single, s: string, i: nat)
    requires PrintableSingle(cls) && i <= |s|
    ensures ResultAt(s, "(" + SingleText(cls) + ")", false, i) == if HasAt(cls, s, i) then Hit(i + 1, [Cap(i, 1)]) else Fail
  {
    var items := [Open, One(cls), Close];
    assert items[1..] == [One(cls), Close] && items[1..][1..] == [Close];
    assert PatternText([Close]) == ")" && PatternText(items[1..]) == SingleText(cls) + ")";
    assert PatternText(items) == "(" + SingleText(cls) + ")" by { assert "(" + (SingleText(cls) + ")") == "(" + SingleText(cls) + ")"; }
    ResultOf(s, items, i);
    hide PatternText, SingleText, ResultAt;
    var open := [Cap(i, UNFINISHED)];
    assert [] + open == open;
    assert Search(items, s, i, []) == Search(items[1..], s, i, open);
    assert items[1..] == [One(cls)] + [Close];
    OneSearch(cls, [Close], s, i, open);
    CloseOne(s, i, i + 1);
  }

  /** What is found with a capture: its text, whichever of the two functions
      was called. */
  lemma CaptureFinds(cls: Single, s: string, init: int, find: bool, r: Found)
    requires PrintableSingle(cls) && Finds(s, "(" + SingleText(cls) + ")", init, false, find, r)
    ensures FirstOfClass(cls, s, From(init, |s|), false, r)
  {
    var p, from := "(" + SingleText(cls) + ")", From(init, |s|);
    FromIs(init, |s|);
    assert p[0] == '(' && p[0] in SPECIALS && !NoSpecials(p);
    var anchor := At(p, 0) == '^';
    assert !anchor && Leftmost(s, p, from, find, r);
    hide ResultAt, Has, SingleText, PrintableSingle, NoSpecials, CapsOK, CaptureValues, CaptureValue, OutcomeAt;
    forall i | from <= i <= |s|
      ensures ResultAt(s, p, anchor, i) == if HasAt(cls, s, i) then Hit(i + 1, [Cap(i, 1)]) else Fail
    {
      CaptureResult(cls, s, i);
    }
    if r == NotFound {
      forall i | from <= i < |s| ensures !Has(cls, s[i]) { assert ResultAt(s, p, anchor, i) == Fail && !HasAt(cls, s, i); }
    } else {
      var a :| from <= a <= |s| && OutcomeAt(s, p, anchor, find, a, r)
        && (forall i :: from <= i < a ==> ResultAt(s, p, anchor, i) == Fail);
      CapturedAt(s, p, find, a, r);
      assert HasAt(cls, s, a);
      forall i | from <= i < a ensures !Has(cls, s[i]) { assert ResultAt(s, p, anchor, i) == Fail && !HasAt(cls, s, i); }
    }
  }

  lemma CapturedAt(s: string, p: string, find: bool, a: nat, r: Found)
    requires a <= |s| && OutcomeAt(s, p, false, find, a, r) && r != NotFound
    requires ResultAt(s, p, false, a) == if a < |s| && ResultAt(s, p, false, a).Hit? then Hit(a + 1, [Cap(a, 1)]) else Fail
    ensures a < |s| && r == FoundAt(a, a + 1, [Text(s[a..a + 1])]) && ResultAt(s, p, false, a) != Fail
  {
    hide ResultAt;
    if a < |s| { assert CaptureValue(s, Cap(a, 1)) == Some(Text(s[a..a + 1])); }
  }

  lemma PositionFinds(s: string, init: int, find: bool, r: Found)
    requires Finds(s, "()", init, false, find, r)
    ensures var a := From(init, |s|); r == FoundAt(a, a, [Position(a + 1)])
  {
    var p, from := "()", From(init, |s|);
    FromIs(init, |s|);
    assert p[0] == '(' && p[0] in SPECIALS && !NoSpecials(p);
    var anchor := At(p, 0) == '^';
    assert !anchor && Leftmost(s, p, from, find, r);
    hide ResultAt, NoSpecials;
    PositionResult(s, from);
    FirstPlace(s, p, from, find, r);
    assert CaptureValue(s, Cap(from, POSITION)) == Some(Position(from + 1));
  }

  lemma FirstPlace(s: string, p: string, from: nat, find: bool, r: Found)
    requires from <= |s| && Leftmost(s, p, from, find, r) && ResultAt(s, p, At(p, 0) == '^', from) != Fail
    ensures OutcomeAt(s, p, At(p, 0) == '^', find, from, r)
  {
    hide ResultAt;
  }

  lemma CloseOne(s: string, i: nat, j: nat)
    requires i <= j
    ensures j <= |s| ==> Search([Close], s, j, [Cap(i, UNFINISHED)]) == Hit(j, [Cap(i, j - i)])
  {
    if j <= |s| {
      var open := [Cap(i, UNFINISHED)];
      assert LastOpen(open) == 0;
      assert open[0 := Cap(i, j - i)] == [Cap(i, j - i)];
      assert [Close][1..] == [];
    }
  }

  /** `()` captures the place. */
  lemma PositionResult(s: string, i: nat)
    requires i <= |s|
    ensures ResultAt(s, "()", false, i) == Hit(i, [Cap(i, POSITION)])
  {
    var items := [OpenPosition];
    assert items[1..] == [] && PatternText(items) == "()";
    ResultOf(s, items, i);
    assert [] + [Cap(i, POSITION)] == [Cap(i, POSITION)];
  }

  /** `%1` matches what the first capture has. */
  lemma BackRefResult(s: string, i: nat)
    requires i <= |s|
    ensures ResultAt(s, "(.)%1", false, i) == if i + 1 < |s| && s[i] == s[i + 1] then Hit(i + 2, [Cap(i, 1)]) else Fail
  {
    var items := [Open, One(Any), Close, BackRef('1')];
    BackRefText();
    ResultOf(s, items, i);
    hide PatternText, ResultAt;
    var open := [Cap(i, UNFINISHED)];
    assert [] + open == open && items[1..] == [One(Any)] + [Close, BackRef('1')];
    assert Search(items, s, i, []) == Search(items[1..], s, i, open);
    OneSearch(Any, [Close, BackRef('1')], s, i, open);
    if i < |s| {
      assert LastOpen(open) == 0 && open[0 := Cap(i, 1)] == [Cap(i, 1)];
      assert [Close, BackRef('1')][1..] == [BackRef('1')] && [BackRef('1')][1..] == [];
      assert Search([Close, BackRef('1')], s, i + 1, open) == Search([BackRef('1')], s, i + 1, [Cap(i, 1)]);
      if i + 1 < |s| { assert s[i..i + 1] == [s[i]] && s[i + 1..i + 2] == [s[i + 1]]; }
    }
  }

  lemma BackRefText()
    ensures var items := [Open, One(Any), Close, BackRef('1')]; Printable(items) && PatternText(items) == "(.)%1"
  {
    var items := [Open, One(Any), Close, BackRef('1')];
    assert items[1..] == [One(Any), Close, BackRef('1')];
    assert items[1..][1..] == [Close, BackRef('1')];
    assert items[1..][1..][1..] == [BackRef('1')];
    assert [BackRef('1')][1..] == [];
    assert PatternText([BackRef('1')]) == "%1";
    assert PatternText([Close, BackRef('1')]) == ")%1";
    assert PatternText([One(Any), Close, BackRef('1')]) == ".)%1";
  }

  function Positions(n: nat): (items: seq<Item>) { seq(n, k => OpenPosition) }

  /** There is room for 32 captures. */
  lemma {:induction false} CaptureLimit(n: nat, s: string, i: nat, caps: seq<Cap>)
    requires i <= |s| && |caps| <= 32
    ensures Printable(Positions(n))
    ensures Search(Positions(n), s, i, caps) == Err <==> |caps| + n > 32
    ensures Search(Positions(n), s, i, caps) != Fail
    decreases n
  {
    if n > 0 {
      var items := Positions(n);
      assert items[0] == OpenPosition && items[1..] == Positions(n - 1);
      CaptureLimit(n - 1, s, i, if |caps| < 32 then caps + [Cap(i, POSITION)] else caps);
    }
  }

  // ---------------------------------------------------------------------
  // %b and %f

  /** As many closing characters as opening ones, and not so anywhere before. */
  ghost predicate Balanced(b: char, e: char, s: string, i: nat, j: nat) {
    && i < j <= |s| && s[i] == b
    && multiset(s[i..j])[b] == multiset(s[i..j])[e]
    && forall k :: i < k < j ==> multiset(s[i..k])[b] != multiset(s[i..k])[e]
  }

  /** The first `b` and the next one. */
  ghost predicate Paired(b: char, s: string, i: nat, j: nat) {
    i + 1 < j <= |s| && s[i] == b && s[j - 1] == b && forall k :: i < k < j - 1 ==> s[k] != b
  }

  lemma {:induction false} NestingCounts(s: string, i: nat, k: nat, b: char, e: char)
    requires i < k <= |s| && s[i] == b && b != e
    ensures Nesting(s, i, k, b, e) + multiset(s[i..k])[e] == multiset(s[i..k])[b]
    decreases k
  {
    if k == i + 1 {
      assert s[i..k] == [b];
    } else {
      NestingCounts(s, i, k - 1, b, e);
      assert s[i..k] == s[i..k - 1] + [s[k - 1]];
    }
  }

  lemma {:induction false} NestingSame(s: string, i: nat, k: nat, b: char)
    requires i < k <= |s| && forall j :: i < j < k - 1 ==> s[j] != b
    ensures Nesting(s, i, k, b, b) == if k > i + 1 && s[k - 1] == b then 0 else 1
    decreases k
  {
    if k > i + 1 { NestingSame(s, i, k - 1, b); }
  }

  lemma BalanceResult(b: char, e: char, s: string, i: nat)
    requires b != NUL && e != NUL && i <= |s|
    ensures var r := ResultAt(s, ['%', 'b', b, e], false, i);
      && (r == Fail || (r.Hit? && r.caps == []))
      && forall j :: r == Hit(j, []) <==> if b != e then Balanced(b, e, s, i, j) else Paired(b, s, i, j)
  {
    var items := [Balance(b, e)];
    assert items[1..] == [] && PatternText(items) == ['%', 'b', b, e];
    ResultOf(s, items, i);
    hide ResultAt, PatternText;
    if i < |s| && s[i] == b {
      if b != e {
        forall k | i < k <= |s| ensures Nesting(s, i, k, b, e) + multiset(s[i..k])[e] == multiset(s[i..k])[b] {
          NestingCounts(s, i, k, b, e);
        }
      } else {
        var j := BalanceFrom(s, i, i + 1, b, b);
        NestingSame(s, i, i + 1, b);
        PairedEnd(s, i, b);
      }
    }
  }

  lemma PairedEnd(s: string, i: nat, b: char)
    requires i < |s| && s[i] == b
    ensures forall j: nat :: BalanceFrom(s, i, i + 1, b, b) == Some(j) <==> Paired(b, s, i, j)
  {
    var r := BalanceFrom(s, i, i + 1, b, b);
    var last := if r.Some? then r.value - 1 else |s|;
    forall k | i < k < last ensures s[k] != b { PairedBefore(s, i, k, b, last); }
    if r.Some? { NestingSame(s, i, r.value, b); }
  }

  lemma {:induction false} PairedBefore(s: string, i: nat, k: nat, b: char, last: nat)
    requires i < k < last <= |s| && forall j :: i < j <= last ==> Nesting(s, i, j, b, b) != 0
    ensures s[k] != b
    decreases k
  {
    forall j | i < j < k ensures s[j] != b { PairedBefore(s, i, j, b, last); }
    NestingSame(s, i, k + 1, b);
  }

  /** %f: between a character outside of the set and one inside; beyond the
      ends of the subject there are NULs. */
  lemma FrontierResult(cls: Single, s: string, i: nat)
    requires PrintableSet(cls) && i <= |s|
    ensures ResultAt(s, "%f" + SingleText(cls), false, i) ==
              if !Has(cls, if i == 0 then '\0' else s[i - 1]) && Has(cls, if i == |s| then '\0' else s[i]) then Hit(i, [])
              else Fail
  {
    var items := [Frontier(cls)];
    assert items[1..] == [] && PatternText(items) == "%f" + SingleText(cls);
    ResultOf(s, items, i);
    HasIs(cls, if i == 0 then NUL else s[i - 1]);
    HasIs(cls, At(s, i));
  }

  // ---------------------------------------------------------------------
  // Malformed patterns

  /** `%` at the end, a set that is not closed, %b without its two characters,
      %f without a set, a capture that is closed but not open, and a reference to
      no capture or to an open one are errors, whatever the subject. */
  lemma MalformedResult(s: string, i: nat, c: char)
    requires i <= |s| && c != NUL
    ensures ResultAt(s, "%", false, i) == Err
    ensures c != ']' && c != '%' && c != '^' ==> ResultAt(s, ['[', c], false, i) == Err
    ensures ResultAt(s, "%b", false, i) == Err && ResultAt(s, ['%', 'b', c], false, i) == Err
    ensures c != '[' ==> ResultAt(s, ['%', 'f', c], false, i) == Err
    ensures ResultAt(s, ")", false, i) == Err && ResultAt(s, "%1", false, i) == Err && ResultAt(s, "(%1", false, i) == Err
  {
    assert ItemAt("%", 0).0.Bad?;
    if c != ']' && c != '%' && c != '^' {
      assert SetEnd(['[', c], 2) == None;
      assert SetEnd(['[', c], 1) == None;
      assert ItemAt(['[', c], 0).0.Bad?;
    }
    assert ItemAt("%b", 0).0.Bad? && ItemAt(['%', 'b', c], 0).0.Bad?;
    if c != '[' { assert ItemAt(['%', 'f', c], 0).0.Bad?; }
    assert ItemAt(")", 0) == (Close, 1) && LastOpen([]) == -1;
    assert ItemAt("%1", 0) == (BackRef('1'), 2);
    OpenReference(s, i);
  }

  lemma OpenReference(s: string, i: nat)
    requires i <= |s|
    ensures ResultAt(s, "(%1", false, i) == Err
  {
    var p, open := "(%1", [Cap(i, UNFINISHED)];
    assert [] + open == open;
    ItemsCons(p, 0, s, i, []);
    ItemsCons(p, 1, s, i, open);
    assert ItemAt(p, 0) == (Open, 1) && ItemAt(p, 1) == (BackRef('1'), 3);
  }

  /** A capture that is not closed is an error once the pattern has matched. */
  lemma UnfinishedFinds(s: string, init: int, find: bool, r: Found)
    requires Finds(s, "(", init, false, find, r)
    ensures r == FindError
  {
    var p, from := "(", From(init, |s|);
    FromIs(init, |s|);
    assert p[0] == '(' && p[0] in SPECIALS && !NoSpecials(p);
    ItemsCons(p, 0, s, from, []);
    ItemsCons(p, 1, s, from, [Cap(from, UNFINISHED)]);
    assert [] + [Cap(from, UNFINISHED)] == [Cap(from, UNFINISHED)];
    var anchor := At(p, 0) == '^';
    assert !anchor && ResultAt(s, p, anchor, from) == Hit(from, [Cap(from, UNFINISHED)]);
    FirstPlace(s, p, from, find, r);
    assert CaptureValue(s, Cap(from, UNFINISHED)) == None;
    assert [Cap(from, UNFINISHED)][0] == Cap(from, UNFINISHED);
  }

  // ---------------------------------------------------------------------
  // Patterns without special characters

  ghost predicate NulBefore(p: string, k: nat) { exists j :: 0 <= j < k && j < |p| && p[j] == '\0' }

  lemma {:induction false} NoSpecialsIs(p: string)
    ensures NoSpecials(p) <==> forall k :: 0 <= k < |p| && Special(p[k]) ==> NulBefore(p, k)
  {
    if p != [] {
      assert Special(p[0]) <==> p[0] in SPECIALS;
      if p[0] == '\0' {
        forall k | 0 < k < |p| ensures NulBefore(p, k) { assert p[0] == '\0'; }
      } else {
        var q := p[1..];
        NoSpecialsIs(q);
        forall k | 0 <= k < |q| ensures NulBefore(q, k) <==> NulBefore(p, k + 1) { NulShift(p, k); }
        assert forall k :: 0 <= k < |q| ==> q[k] == p[k + 1];
        if NoSpecials(q) && p[0] !in SPECIALS {
          forall k | 0 <= k < |p| && Special(p[k]) ensures NulBefore(p, k) { assert NulBefore(q, k - 1); }
        }
      }
    }
  }

  lemma NulShift(p: string, k: nat)
    requires p != [] && p[0] != '\0' && k < |p[1..]|
    ensures NulBefore(p[1..], k) <==> NulBefore(p, k + 1)
  {
    if NulBefore(p, k + 1) {
      var j :| 0 <= j < k + 1 && j < |p| && p[j] == '\0';
      assert p[1..][j - 1] == '\0';
    }
    if NulBefore(p[1..], k) {
      var j :| 0 <= j < k && j < |p[1..]| && p[1..][j] == '\0';
      assert p[j + 1] == '\0';
    }
  }

  // --- the shortcut of string.find

  function Lits(t: string): (items: seq<Item>) { seq(|t|, k requires 0 <= k < |t| => One(Lit(t[k]))) }

  /** Up to `k`, a pattern of literals is read as they are. */
  lemma {:induction false} LitItems(p: string, i: nat, k: nat)
    requires i <= k <= |p| && forall j :: i <= j < k ==> Literal(p[j])
    requires !Suffix(At(p, k))
    ensures Items(p, i) == Lits(p[i..k]) + Items(p, k)
    decreases k - i
  {
    hide Items;
    if i < k {
      LitItems(p, i + 1, k);
      assert Literal(p[i]) && (i + 1 < k ==> Literal(p[i + 1]));
      LitItem(p, i);
      LitsCons(p[i..k]);
      assert p[i..k][1..] == p[i + 1..k];
    } else {
      assert Lits(p[i..k]) == [];
    }
  }

  lemma LitsCons(t: string)
    requires t != []
    ensures Lits(t) == [One(Lit(t[0]))] + Lits(t[1..])
  {}

  lemma LitItem(p: string, i: nat)
    requires i < |p| && Literal(p[i]) && !Suffix(At(p, i + 1))
    ensures Items(p, i) == [One(Lit(p[i]))] + Items(p, i + 1)
  {
    assert ItemAt(p, i) == (One(Lit(p[i])), i + 1);
  }

  lemma {:induction false} LitsSearch(t: string, rest: seq<Item>, s: string, i: nat)
    requires i <= |s|
    ensures Search(Lits(t) + rest, s, i, []) == if OccursAt(s, t, i) then Search(rest, s, i + |t|, []) else Fail
    decreases |t|
  {
    if t == [] {
      assert Lits(t) + rest == rest && s[i..i] == [];
    } else {
      LitsCons(t);
      assert Lits(t) + rest == [One(Lit(t[0]))] + (Lits(t[1..]) + rest);
      OneSearch(Lit(t[0]), Lits(t[1..]) + rest, s, i, []);
      if i < |s| {
        LitsSearch(t[1..], rest, s, i + 1);
        if s[i] == t[0] && i + |t| <= |s| { FirstAndRest(s, t, i); } else { FirstChar(s, t, i); }
      }
    }
  }

  predicate Clear(p: string) { forall k :: 0 <= k < |p| ==> p[k] != ')' && p[k] != '\0' }

  ghost predicate Agrees(p: string) {
    forall s: string, from: nat, r: Found ::
      from <= |s| ==> (LeftmostPlain(s, p, from, r) <==> Leftmost(s, p, from, true, r))
  }

  /** The plain search that string.find makes of a pattern without special
      characters has the outcome of the pattern on every subject exactly if the
      pattern has no `)` and no NUL. */
  lemma PlainAgrees(p: string)
    requires NoSpecials(p)
    ensures Agrees(p) <==> Clear(p)
  {
    if Clear(p) {
      forall s: string, from: nat, r: Found | from <= |s| ensures LeftmostPlain(s, p, from, r) <==> Leftmost(s, p, from, true, r) {
        PlainSame(s, p, from, r);
      }
    } else {
      var k := FirstOdd(p);
      PlainDiffers(p, k);
    }
  }

  lemma AllLiteral(p: string, k: nat)
    requires NoSpecials(p) && k <= |p| && forall j :: 0 <= j < k ==> p[j] != ')' && p[j] != '\0'
    ensures forall j :: 0 <= j < k ==> Literal(p[j])
    ensures k < |p| ==> !Special(p[k])
  {
    NoSpecialsIs(p);
  }

  lemma PlainSame(s: string, p: string, from: nat, r: Found)
    requires from <= |s| && NoSpecials(p) && Clear(p)
    ensures LeftmostPlain(s, p, from, r) <==> Leftmost(s, p, from, true, r)
  {
    AllLiteral(p, |p|);
    LitItems(p, 0, |p|);
    assert p[0..|p|] == p && Items(p, |p|) == [] && Lits(p) + [] == Lits(p);
    assert At(p, 0) != '^' by { if p != [] { assert Literal(p[0]); } }
    forall i | from <= i <= |s| ensures ResultAt(s, p, false, i) == if OccursAt(s, p, i) then Hit(i + |p|, []) else Fail {
      LitsSearch(p, [], s, i);
    }
    hide ResultAt, Items, Search, NoSpecials;
    PlainOutcome(s, p, from, r);
  }

  lemma PlainOutcome(s: string, p: string, from: nat, r: Found)
    requires from <= |s| && At(p, 0) != '^'
    requires forall i :: from <= i <= |s| ==> ResultAt(s, p, false, i) == if OccursAt(s, p, i) then Hit(i + |p|, []) else Fail
    ensures LeftmostPlain(s, p, from, r) <==> Leftmost(s, p, from, true, r)
  {
    hide ResultAt;
    var anchor := At(p, 0) == '^';
    assert !anchor;
    if LeftmostPlain(s, p, from, r) {
      if r.FoundAt? { assert OutcomeAt(s, p, anchor, true, r.start, r); }
    }
    if Leftmost(s, p, from, true, r) {
      if r == NotFound {
        forall i: nat | i >= from ensures !OccursAt(s, p, i) {
          if i <= |s| { assert ResultAt(s, p, anchor, i) == Fail; }
        }
      } else {
        var a :| from <= a <= |s| && OutcomeAt(s, p, anchor, true, a, r)
          && (forall i :: from <= i < a ==> ResultAt(s, p, anchor, i) == Fail);
        assert ResultAt(s, p, anchor, a) != Fail;
        forall i: nat | from <= i < a ensures !OccursAt(s, p, i) { assert ResultAt(s, p, anchor, i) == Fail; }
      }
    }
  }

  /** The subject is what stands before the first `)` or NUL. */
  lemma PlainDiffers(p: string, k: nat)
    requires NoSpecials(p) && k < |p| && (p[k] == ')' || p[k] == '\0') && Clear(p[..k])
    ensures !Agrees(p)
  {
    var s := p[..k];
    forall j | 0 <= j < k ensures p[j] != ')' && p[j] != '\0' { assert s[j] == p[j]; }
    AllLiteral(p, k);
    LitItems(p, 0, k);
    assert p[0..k] == s && s[0..|s|] == s;
    LitsSearch(s, Items(p, k), s, 0);
    assert At(p, 0) != '^' by { NoSpecialsIs(p); }
    assert ResultAt(s, p, false, 0) != Fail;
    assert forall i: nat :: !OccursAt(s, p, i);
    assert LeftmostPlain(s, p, 0, NotFound) && !Leftmost(s, p, 0, true, NotFound);
  }

  lemma FirstOdd(p: string) returns (k: nat)
    requires !Clear(p)
    ensures k < |p| && (p[k] == ')' || p[k] == '\0') && Clear(p[..k])
  {
    k := 0;
    while p[k] != ')' && p[k] != '\0'
      invariant k < |p| && Clear(p[..k])
      decreases |p| - k
    {
      assert p == p[..k] + [p[k]] + p[k + 1..];
      k := k + 1;
    }
  }
}
