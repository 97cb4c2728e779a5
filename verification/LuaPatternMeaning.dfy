/** What a pattern matches, said without a search: a repetition count for each
    repeated item that is met, and which counts are preferred. */
module LuaPatternMeaning {
  import opened Options
  import opened LuaPattern

  /** `n` repetitions of the class are allowed by the mode, and match. */
  predicate Repeats(cls: Single, mode: Mode, src: string, i: nat, n: nat) {
    && (mode == Optional ==> n <= 1) && (mode == Plus ==> n >= 1)
    && i + n <= |src| && forall k :: i <= k < i + n ==> Fits(cls, src, k)
  }

  /** The pattern with given repetition counts, one for each repeated item that
      is met: Fail unless it matches so, or comes to an error. */
  function Run(items: seq<Item>, src: string, i: nat, caps: seq<Cap>, counts: seq<nat>): (r: Res)
    requires i <= |src|
    ensures r.Hit? ==> i <= r.e <= |src|
    decreases |items|
  {
    if items == [] then (if counts == [] then Hit(i, caps) else Fail)
    else
      var rest := items[1..];
      match items[0]
      case Rep(cls, mode) =>
        if counts != [] && Repeats(cls, mode, src, i, counts[0]) then Run(rest, src, i + counts[0], caps, counts[1..])
        else Fail
      case item =>
        (match Step(item, src, i, caps)
         case Stop(r) => if counts == [] then r else Fail
         case Go(j, c) => Run(rest, src, j, c, counts))
  }

  /** Greedy items prefer more repetitions, lazy ones fewer; an earlier item
      decides before a later one. */
  predicate Preferred(items: seq<Item>, a: seq<nat>, b: seq<nat>)
    decreases |items|
  {
    if items == [] then false
    else if !items[0].Rep? then Preferred(items[1..], a, b)
    else if a == [] || b == [] then false
    else if a[0] == b[0] then Preferred(items[1..], a[1..], b[1..])
    else if items[0].mode == Lazy then a[0] < b[0]
    else a[0] > b[0]
  }

  /** These counts give `r`, and all that would be preferred to them fail. */
  ghost predicate First(items: seq<Item>, src: string, i: nat, caps: seq<Cap>, counts: seq<nat>, r: Res)
    requires i <= |src|
  {
    && Run(items, src, i, caps, counts) == r
    && forall other :: Preferred(items, other, counts) ==> Run(items, src, i, caps, other) == Fail
  }

  /** No counts give anything. */
  ghost predicate Nothing(items: seq<Item>, src: string, i: nat, caps: seq<Cap>)
    requires i <= |src|
  {
    forall counts :: Run(items, src, i, caps, counts) == Fail
  }

  /** What holds of the result of a search, the counts being those it found. */
  ghost predicate IsFirst(items: seq<Item>, src: string, i: nat, caps: seq<Cap>, counts: seq<nat>, r: Res)
    requires i <= |src|
  {
    if r == Fail then Nothing(items, src, i, caps) else First(items, src, i, caps, counts, r)
  }

  /** For the result of a search there are counts that give it and are
      preferred to all others that give anything. */
  lemma {:induction false} SearchIsFirst(items: seq<Item>, src: string, i: nat, caps: seq<Cap>) returns (counts: seq<nat>)
    requires i <= |src|
    ensures IsFirst(items, src, i, caps, counts, Search(items, src, i, caps))
    decreases |items|, 1, 0
  {
    counts := [];
    if items == [] {
    } else if items[0].Rep? {
      counts := RepIsFirst(items, src, i, caps);
    } else {
      var n := Step(items[0], src, i, caps);
      if n.Go? {
        counts := SearchIsFirst(items[1..], src, n.i, n.caps);
        assert forall c :: Run(items, src, i, caps, c) == Run(items[1..], src, n.i, n.caps, c);
        assert forall c :: Preferred(items, c, counts) == Preferred(items[1..], c, counts);
      } else {
        forall c ensures !Preferred(items, c, []) { NonePreferred(items, c); }
      }
    }
  }

  lemma {:induction false} NonePreferred(items: seq<Item>, c: seq<nat>)
    ensures !Preferred(items, c, [])
    decreases |items|
  {
    if items != [] && !items[0].Rep? { NonePreferred(items[1..], c); }
  }

  /** A repeated item: the modes differ in the order in which counts are tried. */
  lemma {:induction false} RepIsFirst(items: seq<Item>, src: string, i: nat, caps: seq<Cap>) returns (counts: seq<nat>)
    requires i <= |src| && items != [] && items[0].Rep?
    ensures IsFirst(items, src, i, caps, counts, Search(items, src, i, caps))
    decreases |items|, 0, 0
  {
    var cls := items[0].cls;
    match items[0].mode
    case Optional =>
      var n := if Fits(cls, src, i) then 1 else 0;
      counts := DownFrom(items, src, i, n, 0, n, caps);
      OptionalForm(items, src, i, n, caps);
    case Star =>
      var n := Longest(cls, src, i);
      DownIsMax(items, src, i, n, 0, caps);
      hide IsFirst, Down, MaxFrom;
      counts := DownFrom(items, src, i, n, 0, n, caps);
    case Plus =>
      counts := [];
      if Fits(cls, src, i) {
        var n := 1 + Longest(cls, src, i + 1);
        DownIsMax(items, src, i, n, 1, caps);
        hide IsFirst, Down, MaxFrom;
        counts := DownFrom(items, src, i, n, 1, n, caps);
      }
    case Lazy => counts := UpFrom(items, src, i, 0, caps);
  }

  /** The result of trying `n` repetitions, then fewer, down to `lo`. */
  function Down(items: seq<Item>, src: string, i: nat, n: nat, lo: nat, caps: seq<Cap>): Res
    requires items != [] && i + n <= |src| && lo <= n
    decreases n
  {
    var r := Search(items[1..], src, i + n, caps);
    if r != Fail || n == lo then r else Down(items, src, i, n - 1, lo, caps)
  }

  lemma {:induction false} DownIsMax(items: seq<Item>, src: string, i: nat, n: nat, lo: nat, caps: seq<Cap>)
    requires items != [] && i + n <= |src| && lo <= n && items[0].Rep?
    ensures Down(items, src, i, n, lo, caps) == MaxFrom(items, items[0].cls, src, i + lo, n - lo, caps)
    decreases n
  {
    if n > lo { DownIsMax(items, src, i, n - 1, lo, caps); }
  }

  lemma OptionalForm(items: seq<Item>, src: string, i: nat, n: nat, caps: seq<Cap>)
    requires items != [] && items[0].Rep? && items[0].mode == Optional && i <= |src|
    requires n == if Fits(items[0].cls, src, i) then 1 else 0
    ensures Search(items, src, i, caps) == Down(items, src, i, n, 0, caps)
  {}

  /** Counts above `n` have failed; `top` is the most that the mode allows. */
  lemma {:induction false} DownFrom(items: seq<Item>, src: string, i: nat, n: nat, lo: nat, top: nat, caps: seq<Cap>)
    returns (counts: seq<nat>)
    requires items != [] && i + n <= |src| && lo <= n <= top && items[0].Rep? && items[0].mode != Lazy
    requires forall k: nat :: Repeats(items[0].cls, items[0].mode, src, i, k) <==> lo <= k <= top
    requires forall c :: c != [] && c[0] > n ==> Run(items, src, i, caps, c) == Fail
    ensures IsFirst(items, src, i, caps, counts, Down(items, src, i, n, lo, caps))
    decreases |items| - 1, 2, n
  {
    var tail := SearchIsFirst(items[1..], src, i + n, caps);
    counts := [n] + tail;
    if Search(items[1..], src, i + n, caps) != Fail {
      AtCount(items, src, i, n, caps, tail);
    } else {
      NothingAt(items, src, i, n, caps);
      if n > lo { counts := DownFrom(items, src, i, n - 1, lo, top, caps); }
    }
  }

  /** The first result after `n` repetitions is the first one of all, if those
      that are preferred to `n` have failed. */
  lemma AtCount(items: seq<Item>, src: string, i: nat, n: nat, caps: seq<Cap>, tail: seq<nat>)
    requires items != [] && items[0].Rep? && i + n <= |src| && Repeats(items[0].cls, items[0].mode, src, i, n)
    requires var r := Search(items[1..], src, i + n, caps);
      r != Fail && First(items[1..], src, i + n, caps, tail, r)
    requires forall c :: c != [] && (if items[0].mode == Lazy then c[0] < n else c[0] > n) ==> Run(items, src, i, caps, c) == Fail
    ensures First(items, src, i, caps, [n] + tail, Search(items[1..], src, i + n, caps))
  {
    var counts := [n] + tail;
    assert counts[0] == n && counts[1..] == tail;
    forall other | Preferred(items, other, counts) ensures Run(items, src, i, caps, other) == Fail {
      if other[0] == n {
        assert Preferred(items[1..], other[1..], tail);
      }
    }
  }

  lemma NothingAt(items: seq<Item>, src: string, i: nat, n: nat, caps: seq<Cap>)
    requires items != [] && items[0].Rep? && i + n <= |src| && Nothing(items[1..], src, i + n, caps)
    ensures forall c :: c != [] && c[0] == n ==> Run(items, src, i, caps, c) == Fail
  {}

  /** Lazy: counts below `n` have failed. */
  lemma {:induction false} UpFrom(items: seq<Item>, src: string, i: nat, n: nat, caps: seq<Cap>) returns (counts: seq<nat>)
    requires items != [] && i + n <= |src| && items[0].Rep? && items[0].mode == Lazy
    requires Repeats(items[0].cls, Lazy, src, i, n)
    requires forall c :: c != [] && c[0] < n ==> Run(items, src, i, caps, c) == Fail
    ensures IsFirst(items, src, i, caps, counts, MinFrom(items, items[0].cls, src, i + n, caps))
    decreases |items| - 1, 2, |src| - i - n
  {
    var tail := SearchIsFirst(items[1..], src, i + n, caps);
    counts := [n] + tail;
    if Search(items[1..], src, i + n, caps) != Fail {
      AtCount(items, src, i, n, caps, tail);
    } else {
      NothingAt(items, src, i, n, caps);
      if Fits(items[0].cls, src, i + n) {
        counts := UpFrom(items, src, i, n + 1, caps);
      } else {
        forall c | c != [] && c[0] > n ensures Run(items, src, i, caps, c) == Fail {
          assert !Fits(items[0].cls, src, i + n);
        }
      }
    }
  }

  /** Of two different ways to come to a result, one is preferred: so there is
      only one first result. */
  lemma {:induction false} PreferredTotal(items: seq<Item>, src: string, i: nat, caps: seq<Cap>, a: seq<nat>, b: seq<nat>)
    requires i <= |src| && Run(items, src, i, caps, a) != Fail && Run(items, src, i, caps, b) != Fail
    ensures a == b || Preferred(items, a, b) || Preferred(items, b, a)
    decreases |items|
  {
    if items == [] {
    } else if items[0].Rep? {
      if a[0] == b[0] {
        PreferredTotal(items[1..], src, i + a[0], caps, a[1..], b[1..]);
        assert a == [a[0]] + a[1..] && b == [b[0]] + b[1..];
      }
    } else {
      var n := Step(items[0], src, i, caps);
      if n.Go? { PreferredTotal(items[1..], src, n.i, n.caps, a, b); }
    }
  }

  /** The search finds a match exactly if there are counts that make one, or
      would first come to an error. */
  lemma SearchDecides(items: seq<Item>, src: string, i: nat, caps: seq<Cap>)
    requires i <= |src|
    ensures Search(items, src, i, caps) == Fail <==> Nothing(items, src, i, caps)
    ensures forall counts, r :: r != Fail && First(items, src, i, caps, counts, r) ==> Search(items, src, i, caps) == r
  {
    var found := SearchIsFirst(items, src, i, caps);
    forall counts, r | r != Fail && First(items, src, i, caps, counts, r) ensures Search(items, src, i, caps) == r {
      PreferredTotal(items, src, i, caps, counts, found);
    }
  }
}
