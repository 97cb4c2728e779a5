/** How patterns are written: a pattern printed from its items is read back as
    just those items. */
module LuaPatternText {
  import opened Options
  import opened LuaPattern

  // ---------------------------------------------------------------------
  // Printing

  predicate Special(c: char) {
    c == '^' || c == '$' || c == '*' || c == '+' || c == '?' || c == '.' || c == '(' || c == '[' || c == '%' || c == '-'
  }

  /** A character that a pattern takes literally, wherever it stands. */
  predicate Literal(c: char) { !Special(c) && c != ')' && c != '\0' }

  predicate AlphaNumeric(c: char) { '0' <= c <= '9' || 'A' <= c <= 'Z' || 'a' <= c <= 'z' }

  function ElemText(e: Elem): (t: string) {
    match e
    case Char(c) => [c]
    case Range(lo, hi) => [lo, '-', hi]
    case Class(cl) => ['%', cl]
  }

  function ElemsText(l: seq<Elem>): (t: string) { if l == [] then "" else ElemText(l[0]) + ElemsText(l[1..]) }

  function SingleText(cls: Single): (t: string) {
    match cls
    case Any => "."
    case Lit(c) => [c]
    case OfClass(cl) => ['%', cl]
    case Set(negated, elems) => (if negated then "[^" else "[") + ElemsText(elems) + "]"
  }

  function ModeText(m: Mode): (t: string) {
    match m case Optional => "?" case Star => "*" case Plus => "+" case Lazy => "-"
  }

  function ItemText(item: Item): (t: string) {
    match item
    case One(cls) => SingleText(cls)
    case Rep(cls, mode) => SingleText(cls) + ModeText(mode)
    case Open => "("
    case OpenPosition => "()"
    case Close => ")"
    case Balance(b, e) => ['%', 'b', b, e]
    case Frontier(cls) => "%f" + SingleText(cls)
    case BackRef(d) => ['%', d]
    case AtEnd => "$"
    case Bad => ""
  }

  function PatternText(items: seq<Item>): (t: string) {
    if items == [] then "" else ItemText(items[0]) + PatternText(items[1..])
  }

  predicate PrintableElem(e: Elem) {
    match e
    case Char(c) => AlphaNumeric(c)
    case Range(lo, hi) => AlphaNumeric(lo) && AlphaNumeric(hi)
    case Class(cl) => cl != NUL
  }

  predicate AllPrintable(l: seq<Elem>) { forall k :: 0 <= k < |l| ==> PrintableElem(l[k]) }

  predicate PrintableSet(cls: Single) { cls.Set? && cls.elems != [] && AllPrintable(cls.elems) }

  /** Other characters are written as the class of that character. */
  predicate PrintableSingle(cls: Single) {
    match cls
    case Any => true
    case Lit(c) => Literal(c)
    case OfClass(cl) => cl != NUL && cl != 'b' && cl != 'f' && !('0' <= cl <= '9')
    case Set(_, _) => PrintableSet(cls)
  }

  predicate PrintableItem(item: Item) {
    match item
    case One(cls) => PrintableSingle(cls)
    case Rep(cls, _) => PrintableSingle(cls)
    case Balance(b, e) => b != NUL && e != NUL
    case Frontier(cls) => PrintableSet(cls)
    case BackRef(d) => '0' <= d <= '9'
    case Bad => false
    case _ => true
  }

  /** An empty capture is a position capture, and `$` ends a pattern. */
  predicate Printable(items: seq<Item>) {
    items == [] ||
    (&& PrintableItem(items[0])
     && (items[0].AtEnd? ==> |items| == 1)
     && (items[0].Open? && |items| > 1 ==> !items[1].Close?)
     && Printable(items[1..]))
  }

  // ---------------------------------------------------------------------
  // Reading it back

  /** The text of the members `l` stands at `j`, before something else. */
  ghost predicate ElemsHere(p: string, j: nat, l: seq<Elem>) {
    AllPrintable(l) && j + |ElemsText(l)| < |p| && p[j..j + |ElemsText(l)|] == ElemsText(l)
  }

  lemma ElemsParts(p: string, j: nat, l: seq<Elem>)
    requires ElemsHere(p, j, l) && l != []
    ensures var t, rest := ElemText(l[0]), l[1..];
      && PrintableElem(l[0]) && ElemsHere(p, j + |t|, rest)
      && |ElemsText(l)| == |t| + |ElemsText(rest)|
      && (forall k :: 0 <= k < |t| ==> p[j + k] == t[k])
      && (rest == [] ==> |ElemsText(rest)| == 0)
      && (rest != [] ==> p[j + |t|] != ']' && p[j + |t|] != '-')
  {
    hide *;
    var t, rest := ElemText(l[0]), l[1..];
    ElemsCons(p, j, l);
    Slices(p, j, t, ElemsText(rest));
    HereElems(p, j + |t|, rest);
    if rest != [] { FirstPrintable(rest); RestHead(p, j + |t|, rest); } else { NoText(); }
  }

  lemma ElemsCons(p: string, j: nat, l: seq<Elem>)
    requires ElemsHere(p, j, l) && l != []
    ensures ElemsText(l) == ElemText(l[0]) + ElemsText(l[1..])
    ensures PrintableElem(l[0]) && AllPrintable(l[1..])
    ensures j + |ElemsText(l)| < |p| && p[j..j + |ElemsText(l)|] == ElemsText(l)
  {
    assert forall k :: 0 <= k < |l[1..]| ==> l[1..][k] == l[k + 1];
  }

  lemma FirstPrintable(l: seq<Elem>)
    requires AllPrintable(l) && l != []
    ensures PrintableElem(l[0])
  {}

  lemma {:induction false} SetEndText(p: string, j: nat, l: seq<Elem>)
    requires l != [] && ElemsHere(p, j, l) && p[j + |ElemsText(l)|] == ']'
    ensures SetEnd(p, j) == Some(j + |ElemsText(l)| + 1)
    decreases |l|
  {
    hide *;
    var k := j + |ElemText(l[0])|;
    ElemsParts(p, j, l);
    HereBound(p, k, l[1..]);
    if l[1..] != [] { SetEndText(p, k, l[1..]); }
    ElemEnd(p, j, l[0]);
  }

  lemma HereBound(p: string, j: nat, l: seq<Elem>)
    requires ElemsHere(p, j, l)
    ensures j + |ElemsText(l)| < |p|
  {}

  lemma NoText()
    ensures ElemsText([]) == ""
  {}

  lemma Slices(p: string, j: nat, a: string, b: string)
    requires j + |a + b| <= |p| && p[j..j + |a + b|] == a + b
    ensures p[j..j + |a|] == a && p[j + |a|..j + |a| + |b|] == b
    ensures forall k :: 0 <= k < |a| ==> p[j + k] == a[k]
  {
    assert p[j..j + |a + b|][..|a|] == p[j..j + |a|];
    assert p[j..j + |a + b|][|a|..] == p[j + |a|..j + |a| + |b|];
    forall k | 0 <= k < |a| ensures p[j + k] == a[k] { assert p[j..j + |a|][k] == p[j + k]; }
  }

  /** No member begins with a bracket. */
  lemma RestHead(p: string, k: nat, rest: seq<Elem>)
    requires rest != [] && PrintableElem(rest[0])
    requires k + |ElemsText(rest)| < |p| && p[k..k + |ElemsText(rest)|] == ElemsText(rest)
    ensures p[k] != ']' && p[k] != '-' && p[k] != NUL && p[k] == ElemText(rest[0])[0]
  {
    assert ElemsText(rest)[0] == ElemText(rest[0])[0];
    assert p[k..k + |ElemsText(rest)|][0] == p[k];
  }

  lemma ElemEnd(p: string, j: nat, e: Elem)
    requires PrintableElem(e) && j + |ElemText(e)| < |p|
    requires forall k :: 0 <= k < |ElemText(e)| ==> p[j + k] == ElemText(e)[k]
    ensures SetEnd(p, j) == if p[j + |ElemText(e)|] == ']' then Some(j + |ElemText(e)| + 1) else SetEnd(p, j + |ElemText(e)|)
  {
    assert p[j] == ElemText(e)[0];
    if e.Range? {
      assert p[j + 1] == ElemText(e)[1] == '-' && p[j + 2] == ElemText(e)[2] == e.hi;
      assert SetEnd(p, j) == SetEnd(p, j + 1) && SetEnd(p, j + 1) == SetEnd(p, j + 2);
    } else if e.Class? {
      assert p[j + 1] == ElemText(e)[1] == e.cl;
    }
  }

  lemma {:induction false} ElemsOfText(p: string, j: nat, l: seq<Elem>)
    requires ElemsHere(p, j, l)
    ensures Elems(p, j, j + |ElemsText(l)|) == l
    decreases |l|
  {
    hide *;
    if l == [] {
      NoElems(p, j);
    } else {
      var k, rest := j + |ElemText(l[0])|, l[1..];
      HereBound(p, j, l);
      ElemsParts(p, j, l);
      ElemsOfText(p, k, rest);
      OneElem(p, j, j + |ElemsText(l)|, l[0]);
      assert l == [l[0]] + rest;
    }
  }

  lemma NoElems(p: string, j: nat)
    ensures Elems(p, j, j + |ElemsText([])|) == []
  {}

  lemma OneElem(p: string, j: nat, ec: nat, e: Elem)
    requires PrintableElem(e) && j + |ElemText(e)| <= ec < |p|
    requires forall k :: 0 <= k < |ElemText(e)| ==> p[j + k] == ElemText(e)[k]
    requires j + |ElemText(e)| < ec ==> p[j + |ElemText(e)|] != '-'
    ensures Elems(p, j, ec) == [e] + Elems(p, j + |ElemText(e)|, ec)
  {
    assert p[j] == ElemText(e)[0];
    if e.Range? { assert p[j + 1] == ElemText(e)[1] == '-' && p[j + 2] == ElemText(e)[2] == e.hi; }
    if e.Class? { assert p[j + 1] == ElemText(e)[1] == e.cl; }
  }

  lemma SingleRead(p: string, i: nat, cls: Single)
    requires PrintableSingle(cls) || PrintableSet(cls)
    requires i + |SingleText(cls)| <= |p| && p[i..i + |SingleText(cls)|] == SingleText(cls)
    ensures ClassEnd(p, i) == Some(i + |SingleText(cls)|)
    ensures cls.Set? ==> SetOf(p, i, i + |SingleText(cls)| - 1) == cls
    ensures SingleOf(p, i, i + |SingleText(cls)|) == cls
    ensures p[i] == SingleText(cls)[0]
  {
    var t := SingleText(cls);
    assert p[i] == p[i..i + |t|][0];
    if cls.Set? {
      SetRead(p, i, cls);
    } else if cls.OfClass? {
      assert p[i + 1] == p[i..i + |t|][1];
    }
  }

  lemma SetRead(p: string, i: nat, cls: Single)
    requires PrintableSet(cls)
    requires i + |SingleText(cls)| <= |p| && p[i..i + |SingleText(cls)|] == SingleText(cls)
    ensures p[i] == '[' && ClassEnd(p, i) == Some(i + |SingleText(cls)|)
    ensures SetOf(p, i, i + |SingleText(cls)| - 1) == cls
  {
    hide ElemsHere, PrintableElem, Elems, SetEnd;
    var l := cls.elems;
    var j := i + if cls.negated then 2 else 1;
    SetParts(p, i, cls);
    RestHead(p, j, l);
    SetEndText(p, j, l);
    ElemsOfText(p, j, l);
  }

  lemma SetParts(p: string, i: nat, cls: Single)
    requires PrintableSet(cls)
    requires i + |SingleText(cls)| <= |p| && p[i..i + |SingleText(cls)|] == SingleText(cls)
    ensures var j := i + if cls.negated then 2 else 1;
      && j + |ElemsText(cls.elems)| + 1 == i + |SingleText(cls)| && i + 1 < |p|
      && p[i] == '[' && (cls.negated <==> p[i + 1] == '^')
      && ElemsHere(p, j, cls.elems) && p[j + |ElemsText(cls.elems)|] == ']'
      && p[j..j + |ElemsText(cls.elems)|] == ElemsText(cls.elems)
      && PrintableElem(cls.elems[0])
  {
    hide *;
    SetText(cls);
    var l := cls.elems;
    var head := if cls.negated then "[^" else "[";
    var body, j := ElemsText(l), i + |head|;
    Slices(p, i, head, body + "]");
    Slices(p, j, body, "]");
    Chars(p, i, head);
    Chars(p, j + |body|, "]");
    HereElems(p, j, l);
    RestHead(p, j, l);
  }

  lemma SetText(cls: Single)
    requires PrintableSet(cls)
    ensures SingleText(cls) == (if cls.negated then "[^" else "[") + (ElemsText(cls.elems) + "]")
    ensures cls.Set? && cls.elems != [] && AllPrintable(cls.elems) && PrintableElem(cls.elems[0])
    ensures ElemText(cls.elems[0]) != "" && ElemText(cls.elems[0])[0] != '^'
  {
    hide ElemsText;
    var body := ElemsText(cls.elems);
    if cls.negated {
      assert SingleText(cls) == "[^" + (body + "]");
    } else {
      assert SingleText(cls) == "[" + (body + "]");
    }
  }

  lemma HereElems(p: string, j: nat, l: seq<Elem>)
    requires AllPrintable(l) && j + |ElemsText(l)| < |p| && p[j..j + |ElemsText(l)|] == ElemsText(l)
    ensures ElemsHere(p, j, l)
  {}

  predicate Suffix(c: char) { c == '?' || c == '*' || c == '+' || c == '-' }

  /** What follows an item in a printed pattern is not a suffix. */
  lemma TextHead(items: seq<Item>)
    requires Printable(items)
    ensures PatternText(items) == "" <==> items == []
    ensures items != [] ==> !Suffix(PatternText(items)[0]) && PatternText(items)[0] != NUL
    ensures items != [] && !items[0].Close? ==> PatternText(items)[0] != ')'
    ensures !Suffix(NUL) && NUL != ')'
  {
    if items != [] {
      var t := ItemText(items[0]);
      assert t != "" && PatternText(items)[0] == t[0];
      match items[0] {
        case One(cls) => SingleHead(cls);
        case Rep(cls, mode) => SingleHead(cls);
        case _ =>
      }
    }
  }

  lemma SingleHead(cls: Single)
    requires PrintableSingle(cls)
    ensures SingleText(cls) != "" && !Suffix(SingleText(cls)[0]) && SingleText(cls)[0] != ')' && SingleText(cls)[0] != NUL
    ensures SingleText(cls)[0] != '(' && SingleText(cls)[0] != '$'
    ensures SingleText(cls)[0] == '%' ==>
              |SingleText(cls)| == 2 && SingleText(cls)[1] != 'b' && SingleText(cls)[1] != 'f' && !IsDigit(SingleText(cls)[1])
  {}

  lemma Chars(p: string, i: nat, t: string)
    requires i + |t| <= |p| && p[i..i + |t|] == t
    ensures |t| > 0 ==> p[i] == t[0]
    ensures |t| > 1 ==> p[i + 1] == t[1]
    ensures |t| > 2 ==> p[i + 2] == t[2]
    ensures |t| > 3 ==> p[i + 3] == t[3]
  {
    var u := p[i..i + |t|];
    assert |t| > 0 ==> u[0] == p[i];
    assert |t| > 1 ==> u[1] == p[i + 1];
    assert |t| > 2 ==> u[2] == p[i + 2];
    assert |t| > 3 ==> u[3] == p[i + 3];
  }

  /** The text of an item at a place of the pattern, and what may follow it. */
  ghost predicate ItemHere(p: string, i: nat, item: Item) {
    && PrintableItem(item)
    && i + |ItemText(item)| <= |p| && p[i..i + |ItemText(item)|] == ItemText(item)
    && var c := At(p, i + |ItemText(item)|);
       !Suffix(c) && (item.Open? ==> c != ')') && (item.AtEnd? ==> c == NUL)
  }

  /** One item of a printed pattern. */
  lemma ItemRead(p: string, i: nat, item: Item)
    requires ItemHere(p, i, item)
    ensures i < |p| && p[i] != NUL && ItemAt(p, i) == (item, i + |ItemText(item)|)
  {
    hide ItemHere, ItemAt, ItemText;
    match item {
      case One(cls) => OneRead(p, i, cls);
      case Rep(cls, mode) => RepRead(p, i, cls, mode);
      case Frontier(cls) => FrontierRead(p, i, cls);
      case _ => SymbolRead(p, i, item);
    }
  }

  lemma OneRead(p: string, i: nat, cls: Single)
    requires ItemHere(p, i, One(cls))
    ensures i < |p| && p[i] != NUL && ItemAt(p, i) == (One(cls), i + |ItemText(One(cls))|)
  {
    hide SimpleItem, ItemAt, SingleText;
    SimpleRead(p, i, cls);
    OneSuffix(p, i, cls);
  }

  lemma OneSuffix(p: string, i: nat, cls: Single)
    requires i < |p| && ClassEnd(p, i).Some? && SingleOf(p, i, ClassEnd(p, i).value) == cls
    requires !Suffix(At(p, ClassEnd(p, i).value))
    ensures SimpleItem(p, i) == (One(cls), ClassEnd(p, i).value)
  {
    hide ClassEnd, SingleOf;
  }

  lemma RepSuffix(p: string, i: nat, cls: Single, mode: Mode)
    requires i < |p| && ClassEnd(p, i).Some? && SingleOf(p, i, ClassEnd(p, i).value) == cls
    requires [At(p, ClassEnd(p, i).value)] == ModeText(mode)
    ensures SimpleItem(p, i) == (Rep(cls, mode), ClassEnd(p, i).value + 1)
  {
    hide ClassEnd, SingleOf;
    assert ModeText(mode)[0] == At(p, ClassEnd(p, i).value);
  }

  lemma RepRead(p: string, i: nat, cls: Single, mode: Mode)
    requires ItemHere(p, i, Rep(cls, mode))
    ensures i < |p| && p[i] != NUL && ItemAt(p, i) == (Rep(cls, mode), i + |ItemText(Rep(cls, mode))|)
  {
    hide SimpleItem, ItemAt, SingleText;
    Slices(p, i, SingleText(cls), ModeText(mode));
    SimpleRead(p, i, cls);
    assert [At(p, i + |SingleText(cls)|)] == ModeText(mode) by {
      assert |ModeText(mode)| == 1;
      Chars(p, i + |SingleText(cls)|, ModeText(mode));
    }
    RepSuffix(p, i, cls, mode);
  }

  lemma FrontierRead(p: string, i: nat, cls: Single)
    requires ItemHere(p, i, Frontier(cls))
    ensures i < |p| && p[i] != NUL && ItemAt(p, i) == (Frontier(cls), i + |ItemText(Frontier(cls))|)
  {
    assert PrintableSet(cls) && p[i..i + |"%f" + SingleText(cls)|] == "%f" + SingleText(cls);
    Slices(p, i, "%f", SingleText(cls));
    hide ClassEnd, SetOf, SingleText, ItemHere;
    Chars(p, i, "%f");
    SetRead(p, i + 2, cls);
    assert ItemText(Frontier(cls)) == "%f" + SingleText(cls);
  }

  lemma SymbolRead(p: string, i: nat, item: Item)
    requires ItemHere(p, i, item) && !item.One? && !item.Rep? && !item.Frontier?
    ensures i < |p| && p[i] != NUL && ItemAt(p, i) == (item, i + |ItemText(item)|)
  {
    hide SimpleItem, ClassEnd, SetOf;
    Chars(p, i, ItemText(item));
  }

  lemma SimpleRead(p: string, i: nat, cls: Single)
    requires PrintableSingle(cls)
    requires i + |SingleText(cls)| <= |p| && p[i..i + |SingleText(cls)|] == SingleText(cls)
    ensures i < |p| && p[i] != NUL && ItemAt(p, i) == SimpleItem(p, i)
    ensures ClassEnd(p, i) == Some(i + |SingleText(cls)|) && SingleOf(p, i, i + |SingleText(cls)|) == cls
  {
    var t := SingleText(cls);
    SingleHead(cls);
    SingleRead(p, i, cls);
    if t[0] == '%' { assert p[i + 1] == p[i..i + |t|][1]; }
  }

  lemma {:induction false} ItemsOfText(p: string, i: nat, items: seq<Item>)
    requires Printable(items) && i <= |p| && p[i..] == PatternText(items)
    ensures Items(p, i) == items
    decreases |items|
  {
    hide *;
    TextHead(items);
    if items == [] {
      NoItems(p, i);
    } else {
      var k := i + |ItemText(items[0])|;
      HeadHere(p, i, items);
      ItemRead(p, i, items[0]);
      ItemsOfText(p, k, items[1..]);
      ConsItems(p, i, items[0], k);
      assert items == [items[0]] + items[1..];
    }
  }

  lemma NoItems(p: string, i: nat)
    requires i <= |p| && p[i..] == ""
    ensures Items(p, i) == []
  {}

  lemma ConsItems(p: string, i: nat, item: Item, k: nat)
    requires i < |p| && p[i] != NUL && ItemAt(p, i) == (item, k) && k <= |p| && !item.Bad?
    ensures Items(p, i) == [item] + Items(p, k)
  {
    hide ItemAt;
  }

  lemma HeadHere(p: string, i: nat, items: seq<Item>)
    requires Printable(items) && items != [] && i <= |p| && p[i..] == PatternText(items)
    ensures ItemHere(p, i, items[0]) && !items[0].Bad? && Printable(items[1..])
    ensures i + |ItemText(items[0])| <= |p| && p[i + |ItemText(items[0])|..] == PatternText(items[1..])
  {
    hide *;
    var t, rest := ItemText(items[0]), items[1..];
    var k := i + |t|;
    HeadParts(items);
    TextParts(p, i, t, PatternText(rest));
    TextHead(rest);
    AtRest(p, k, PatternText(rest));
    HereIntro(p, i, items[0], if rest == [] then NUL else PatternText(rest)[0]);
  }

  lemma HeadParts(items: seq<Item>)
    requires Printable(items) && items != []
    ensures var item, rest := items[0], items[1..];
      && PatternText(items) == ItemText(item) + PatternText(rest)
      && PrintableItem(item) && !item.Bad? && Printable(rest)
      && (item.AtEnd? ==> rest == [])
      && (item.Open? && rest != [] ==> !rest[0].Close?)
  {}

  lemma TextParts(p: string, i: nat, a: string, b: string)
    requires i <= |p| && p[i..] == a + b
    ensures i + |a| <= |p| && p[i..i + |a|] == a && p[i + |a|..] == b
  {
    assert p[i..] == p[i..|p|];
    Slices(p, i, a, b);
  }

  lemma AtRest(p: string, k: nat, t: string)
    requires k <= |p| && p[k..] == t
    ensures At(p, k) == if t == "" then NUL else t[0]
  {}

  lemma HereIntro(p: string, i: nat, item: Item, c: char)
    requires PrintableItem(item) && i + |ItemText(item)| <= |p| && p[i..i + |ItemText(item)|] == ItemText(item)
    requires c == At(p, i + |ItemText(item)|) && !Suffix(c) && (item.Open? ==> c != ')') && (item.AtEnd? ==> c == NUL)
    ensures ItemHere(p, i, item)
  {}

  /** A printed pattern is read back as its items. */
  lemma PatternRoundTrip(items: seq<Item>)
    requires Printable(items)
    ensures Items(PatternText(items), 0) == items
  {
    ItemsOfText(PatternText(items), 0, items);
  }
}
