/** The expression parser of lparser.c: precedence climbing over the tokens of
    the lexer.  The tree it returns stands for the expdesc that the source
    fills while it parses. */
module LuaParser {
  import opened Options

  datatype UnOp = Not | Minus | Len

  datatype BinOp = Add | Sub | Mul | Div | Mod | Pow | Concat | Ne | Eq | Lt | Le | Gt | Ge | And | Or

  /** `Suffix` is one of `.` `[` `:`, `Start` is `function` or `...`, and
      `Other` any token that can neither start nor continue an expression. */
  datatype Token =
    | Literal(id: int)
    | Text(id: int)
    | Name(id: int)
    | LPar | RPar
    | TPlus | TMinus | TStar | TSlash | TPercent | TCaret | TConcat
    | TNe | TEq | TLt | TLe | TGt | TGe | TAnd | TOr | TNot | THash
    | Brace
    | Suffix(id: int)
    | Start(id: int)
    | Other(id: int)

  const EOS: Token := Other(0)

  datatype Expr = EAtom(t: Token) | EParen(e: Expr) | EUn(uop: UnOp, e: Expr) | EBin(bop: BinOp, a: Expr, b: Expr)

  datatype Error = TooDeep | Unexpected | Unmatched | Outside

  datatype Parsed = Ok(e: Expr, next: nat) | Err(error: Error)

  const LUAI_MAXCCALLS: nat := 200
  const UNARY_PRIORITY: nat := 8

  function GetUnOpr(t: Token): Option<UnOp> {
    match t
    case TNot => Some(Not)
    case TMinus => Some(Minus)
    case THash => Some(Len)
    case _ => None
  }

  function GetBinOpr(t: Token): Option<BinOp> {
    match t
    case TPlus => Some(Add)
    case TMinus => Some(Sub)
    case TStar => Some(Mul)
    case TSlash => Some(Div)
    case TPercent => Some(Mod)
    case TCaret => Some(Pow)
    case TConcat => Some(Concat)
    case TNe => Some(Ne)
    case TEq => Some(Eq)
    case TLt => Some(Lt)
    case TLe => Some(Le)
    case TGt => Some(Gt)
    case TGe => Some(Ge)
    case TAnd => Some(And)
    case TOr => Some(Or)
    case _ => None
  }

  // --- the operators by their texts

  /** luaX_token2str, as far as tokens have one text. */
  function TokenText(t: Token): string {
    match t
    case LPar => "(" case RPar => ")" case Brace => "{"
    case TPlus => "+" case TMinus => "-" case TStar => "*" case TSlash => "/" case TPercent => "%" case TCaret => "^"
    case THash => "#" case TConcat => ".."
    case TNe => "~=" case TEq => "==" case TLt => "<" case TLe => "<=" case TGt => ">" case TGe => ">="
    case TAnd => "and" case TOr => "or" case TNot => "not"
    case _ => ""
  }

  /** Sections 2.5.1 to 2.5.5 of the Lua 5.1 reference manual. */
  function OperatorText(op: BinOp): string {
    match op
    case Or => "or" case And => "and"
    case Lt => "<" case Gt => ">" case Le => "<=" case Ge => ">=" case Ne => "~=" case Eq => "=="
    case Concat => ".." case Add => "+" case Sub => "-" case Mul => "*" case Div => "/" case Mod => "%" case Pow => "^"
  }

  function UnaryText(op: UnOp): string {
    match op case Not => "not" case Len => "#" case Minus => "-"
  }

  /** A token is taken for an operator by its text. */
  lemma Operators(t: Token)
    ensures forall op :: GetBinOpr(t) == Some(op) <==> TokenText(t) == OperatorText(op)
    ensures forall op :: GetUnOpr(t) == Some(op) <==> TokenText(t) == UnaryText(op)
  {}

  function Left(op: BinOp): nat {
    match op
    case Add => 6 case Sub => 6
    case Mul => 7 case Div => 7 case Mod => 7
    case Pow => 10 case Concat => 5
    case And => 2 case Or => 1
    case _ => 3
  }

  function Right(op: BinOp): nat {
    match op
    case Pow => 9 case Concat => 4
    case _ => Left(op)
  }

  predicate IsAtom(t: Token) { t.Literal? || t.Text? || t.Name? }

  /** What makes primaryexp go on after a name or a closing parenthesis. */
  predicate IsSuffix(t: Token) { t.Suffix? || t.LPar? || t.Text? || t.Brace? }

  function At(ts: seq<Token>, p: nat): Token { if p < |ts| then ts[p] else EOS }

  // ---------------------------------------------------------------------
  // The parser as a function; `level` is nCcalls

  function Subexpr(ts: seq<Token>, p: nat, limit: nat, level: int): (r: Parsed)
    requires p <= |ts|
    ensures r.Ok? ==> p < r.next <= |ts|
    decreases |ts| - p, 2
  {
    if level + 1 > LUAI_MAXCCALLS then Err(TooDeep)
    else
      var v := Operand(ts, p, level + 1);
      if v.Err? then v else Climb(ts, v.next, v.e, limit, level + 1)
  }

  function Operand(ts: seq<Token>, p: nat, level: int): (r: Parsed)
    requires p <= |ts|
    ensures r.Ok? ==> p < r.next <= |ts|
    decreases |ts| - p, 1
  {
    match GetUnOpr(At(ts, p))
    case Some(op) =>
      var v := Subexpr(ts, p + 1, UNARY_PRIORITY, level);
      if v.Err? then v else Ok(EUn(op, v.e), v.next)
    case None => Simpleexp(ts, p, level)
  }

  /** Constructors, functions and `...` are not part of this model. */
  function Simpleexp(ts: seq<Token>, p: nat, level: int): (r: Parsed)
    requires p <= |ts|
    ensures r.Ok? ==> p < r.next <= |ts|
    decreases |ts| - p, 0, 2
  {
    match At(ts, p)
    case Literal(_) => Ok(EAtom(ts[p]), p + 1)
    case Text(_) => Ok(EAtom(ts[p]), p + 1)
    case Brace => Err(Outside)
    case Start(_) => Err(Outside)
    case _ => Primaryexp(ts, p, level)
  }

  /** Fields, indices and calls are not part of this model. */
  function Primaryexp(ts: seq<Token>, p: nat, level: int): (r: Parsed)
    requires p <= |ts|
    ensures r.Ok? ==> p < r.next <= |ts|
    decreases |ts| - p, 0, 1
  {
    var v := Prefixexp(ts, p, level);
    if v.Ok? && IsSuffix(At(ts, v.next)) then Err(Outside) else v
  }

  function Prefixexp(ts: seq<Token>, p: nat, level: int): (r: Parsed)
    requires p <= |ts|
    ensures r.Ok? ==> p < r.next <= |ts|
    decreases |ts| - p, 0, 0
  {
    match At(ts, p)
    case Name(_) => Ok(EAtom(ts[p]), p + 1)
    case LPar =>
      var v := Subexpr(ts, p + 1, 0, level);
      if v.Err? then v
      else if At(ts, v.next) != RPar then Err(Unmatched)
      else Ok(EParen(v.e), v.next + 1)
    case _ => Err(Unexpected)
  }

  /** The loop of subexpr. */
  function Climb(ts: seq<Token>, p: nat, left: Expr, limit: nat, level: int): (r: Parsed)
    requires p <= |ts|
    ensures r.Ok? ==> p <= r.next <= |ts|
    decreases |ts| - p, 3
  {
    match GetBinOpr(At(ts, p))
    case None => Ok(left, p)
    case Some(op) =>
      if Left(op) <= limit then Ok(left, p)
      else
        var v := Subexpr(ts, p + 1, Right(op), level);
        if v.Err? then v else Climb(ts, v.next, EBin(op, left, v.e), limit, level)
  }

  // ---------------------------------------------------------------------
  // What a tree reads as, and which trees the grammar allows

  function UnToken(op: UnOp): (t: Token)
    ensures GetUnOpr(t) == Some(op)
  {
    match op case Not => TNot case Minus => TMinus case Len => THash
  }

  function BinToken(op: BinOp): (t: Token)
    ensures GetBinOpr(t) == Some(op)
  {
    match op
    case Add => TPlus case Sub => TMinus case Mul => TStar case Div => TSlash case Mod => TPercent
    case Pow => TCaret case Concat => TConcat case Ne => TNe case Eq => TEq case Lt => TLt
    case Le => TLe case Gt => TGt case Ge => TGe case And => TAnd case Or => TOr
  }

  function Yield(e: Expr): (ts: seq<Token>)
    ensures |ts| > 0
  {
    match e
    case EAtom(t) => [t]
    case EParen(x) => [LPar] + Yield(x) + [RPar]
    case EUn(op, x) => [UnToken(op)] + Yield(x)
    case EBin(op, a, b) => Yield(a) + [BinToken(op)] + Yield(b)
  }

  /** How many calls of subexpr are nested to read a tree. */
  function Depth(e: Expr): nat {
    match e
    case EAtom(_) => 1
    case EParen(x) => 1 + Depth(x)
    case EUn(_, x) => 1 + Depth(x)
    case EBin(_, a, b) => if Depth(a) > 1 + Depth(b) then Depth(a) else 1 + Depth(b)
  }

  predicate AtomsOK(e: Expr) {
    match e
    case EAtom(t) => IsAtom(t)
    case EParen(x) => AtomsOK(x)
    case EUn(_, x) => AtomsOK(x)
    case EBin(_, a, b) => AtomsOK(a) && AtomsOK(b)
  }

  /** Section 2.5.6 of the Lua 5.1 reference manual, lowest first; the unary
      operators stand between `*` and `^`. */
  function Precedence(op: BinOp): nat {
    match op
    case Or => 1
    case And => 2
    case Lt => 3 case Gt => 3 case Le => 3 case Ge => 3 case Ne => 3 case Eq => 3
    case Concat => 4
    case Add => 5 case Sub => 5
    case Mul => 6 case Div => 6 case Mod => 6
    case Pow => 8
  }

  const UNARY_PRECEDENCE: nat := 7

  predicate RightAssociative(op: BinOp) { op == Concat || op == Pow }

  /** Which operand may stand, without parentheses, on each side of an operator. */
  predicate LeftOperand(op: BinOp, a: Expr) {
    match a
    case EBin(o, _, _) => Precedence(o) > Precedence(op) || (Precedence(o) == Precedence(op) && !RightAssociative(op))
    case EUn(_, _) => UNARY_PRECEDENCE > Precedence(op)
    case _ => true
  }

  predicate RightOperand(op: BinOp, b: Expr) {
    b.EBin? ==> Precedence(b.bop) > Precedence(op) || (Precedence(b.bop) == Precedence(op) && RightAssociative(op))
  }

  predicate UnaryOperand(x: Expr) { x.EBin? ==> Precedence(x.bop) > UNARY_PRECEDENCE }

  /** The manual's rule: a tree whose shape its own tokens imply. */
  predicate Manual(e: Expr) {
    match e
    case EAtom(t) => IsAtom(t)
    case EParen(x) => Manual(x)
    case EUn(_, x) => Manual(x) && UnaryOperand(x)
    case EBin(op, a, b) => Manual(a) && Manual(b) && LeftOperand(op, a) && RightOperand(op, b)
  }

  // ---------------------------------------------------------------------
  // The same in terms of the parser's limits

  /** No call that is still reading at the end of `e`, below the outermost,
      would go on with an operator of left priority `l`. */
  predicate Stops(e: Expr, l: nat) {
    match e
    case EUn(_, x) => l <= UNARY_PRIORITY && Stops(x, l)
    case EBin(op, _, b) => l <= Right(op) && Stops(b, l)
    case _ => true
  }

  /** A tree that a call with this limit may build. */
  predicate Fits(e: Expr, limit: nat) {
    match e
    case EAtom(t) => IsAtom(t)
    case EParen(x) => Fits(x, 0)
    case EUn(_, x) => Fits(x, UNARY_PRIORITY)
    case EBin(op, a, b) => Left(op) > limit && Fits(a, limit) && Fits(b, Right(op)) && Stops(a, Left(op))
  }

  /** Whether primaryexp read the end of `e`, and so looks for a suffix. */
  predicate TakesSuffix(e: Expr) {
    match e
    case EAtom(t) => t.Name?
    case EParen(_) => true
    case EUn(_, x) => TakesSuffix(x)
    case EBin(_, _, b) => TakesSuffix(b)
  }

  /** The token after an expression: no suffix of it, and no operator that an
      open call would take. */
  predicate Ends(e: Expr, t: Token) {
    (TakesSuffix(e) ==> !IsSuffix(t)) && (GetBinOpr(t).Some? ==> Stops(e, Left(GetBinOpr(t).value)))
  }

  /** Where a call with this limit stops. */
  predicate Below(limit: nat, t: Token) { GetBinOpr(t).Some? ==> Left(GetBinOpr(t).value) <= limit }

  lemma {:induction false} FitsManual(e: Expr, limit: nat)
    requires Fits(e, limit)
    ensures Manual(e)
    ensures e.EBin? ==> Left(e.bop) > limit
  {
    match e
    case EAtom(_) =>
    case EParen(x) => FitsManual(x, 0);
    case EUn(_, x) => FitsManual(x, UNARY_PRIORITY);
    case EBin(op, a, b) =>
      FitsManual(a, limit);
      FitsManual(b, Right(op));
  }

  lemma {:induction false} ManualStops(e: Expr, o: BinOp)
    requires Manual(e) && (e.EUn? ==> o != Pow) && (e.EBin? ==> Left(o) <= Right(e.bop))
    ensures Stops(e, Left(o))
  {
    match e
    case EUn(_, x) => ManualStops(x, o);
    case EBin(op, _, b) => ManualStops(b, o);
    case _ =>
  }

  lemma {:induction false} ManualFits(e: Expr, limit: nat)
    requires Manual(e) && (e.EBin? ==> Left(e.bop) > limit)
    ensures Fits(e, limit)
  {
    match e
    case EAtom(_) =>
    case EParen(x) => ManualFits(x, 0);
    case EUn(_, x) => ManualFits(x, UNARY_PRIORITY);
    case EBin(op, a, b) =>
      ManualFits(a, limit);
      ManualFits(b, Right(op));
      ManualStops(a, op);
  }

  /** The limits in the priority table are the manual's precedences. */
  lemma PrioritiesAreManual(e: Expr)
    ensures Fits(e, 0) <==> Manual(e)
  {
    if Fits(e, 0) { FitsManual(e, 0); }
    if Manual(e) { ManualFits(e, 0); }
  }

  // ---------------------------------------------------------------------
  // What the parser returns is such a tree, read from the tokens it took

  /** A successful result of a call at `p`. */
  predicate Sound(ts: seq<Token>, p: nat, limit: nat, level: int, r: Parsed) {
    r.Ok? ==>
      && p < r.next <= |ts|
      && Yield(r.e) == ts[p..r.next]
      && Fits(r.e, limit)
      && Ends(r.e, At(ts, r.next))
      && level + Depth(r.e) <= LUAI_MAXCCALLS
  }

  lemma {:induction false} SubexprSound(ts: seq<Token>, p: nat, limit: nat, level: int)
    requires p <= |ts|
    ensures Sound(ts, p, limit, level, Subexpr(ts, p, limit, level))
    ensures var r := Subexpr(ts, p, limit, level); r.Ok? ==> Below(limit, At(ts, r.next))
    decreases |ts| - p, 2
  {
    if level + 1 <= LUAI_MAXCCALLS {
      var v := Operand(ts, p, level + 1);
      OperandSound(ts, p, limit, level);
      if v.Ok? { ClimbSound(ts, p, v.next, v.e, limit, level); }
    }
  }

  lemma {:induction false} OperandSound(ts: seq<Token>, p: nat, limit: nat, level: int)
    requires p <= |ts| && level + 1 <= LUAI_MAXCCALLS
    ensures Sound(ts, p, limit, level, Operand(ts, p, level + 1))
    decreases |ts| - p, 1
  {
    var t := At(ts, p);
    if GetUnOpr(t).Some? {
      SubexprSound(ts, p + 1, UNARY_PRIORITY, level + 1);
      var v := Subexpr(ts, p + 1, UNARY_PRIORITY, level + 1);
      if v.Ok? { assert ts[p..v.next] == [t] + ts[p + 1..v.next]; }
    } else {
      assert Operand(ts, p, level + 1) == Simpleexp(ts, p, level + 1);
      if !t.Literal? && !t.Text? && !t.Brace? && !t.Start? {
        assert Simpleexp(ts, p, level + 1) == Primaryexp(ts, p, level + 1);
        PrimarySound(ts, p, limit, level);
      }
    }
  }

  lemma {:induction false} PrimarySound(ts: seq<Token>, p: nat, limit: nat, level: int)
    requires p <= |ts| && level + 1 <= LUAI_MAXCCALLS
    ensures Sound(ts, p, limit, level, Primaryexp(ts, p, level + 1))
    decreases |ts| - p, 0
  {
    var r := Prefixexp(ts, p, level + 1);
    if At(ts, p).LPar? {
      SubexprSound(ts, p + 1, 0, level + 1);
      var v := Subexpr(ts, p + 1, 0, level + 1);
      if v.Ok? && At(ts, v.next) == RPar {
        assert r == Ok(EParen(v.e), v.next + 1);
        assert ts[p..v.next + 1] == [LPar] + ts[p + 1..v.next] + [RPar];
      }
    }
  }

  lemma Joined(ts: seq<Token>, p: nat, m: nat, q: nat, e: Expr, b: Expr, limit: nat, level: int)
    requires p < m < |ts| && GetBinOpr(ts[m]).Some? && Left(GetBinOpr(ts[m]).value) > limit
    requires Sound(ts, p, limit, level, Ok(e, m))
    requires var l := Right(GetBinOpr(ts[m]).value);
      Sound(ts, m + 1, l, level + 1, Ok(b, q)) && Below(l, At(ts, q))
    ensures Sound(ts, p, limit, level, Ok(EBin(GetBinOpr(ts[m]).value, e, b), q))
  {
    assert ts[p..q] == ts[p..m] + [ts[m]] + ts[m + 1..q];
  }

  lemma {:induction false} ClimbSound(ts: seq<Token>, p: nat, m: nat, e: Expr, limit: nat, level: int)
    requires p < m <= |ts| && level + 1 <= LUAI_MAXCCALLS
    requires Sound(ts, p, limit, level, Ok(e, m))
    ensures Sound(ts, p, limit, level, Climb(ts, m, e, limit, level + 1))
    ensures var r := Climb(ts, m, e, limit, level + 1); r.Ok? ==> Below(limit, At(ts, r.next))
    decreases |ts| - m, 3
  {
    hide Yield, Fits, Ends, Depth;
    var t := At(ts, m);
    if GetBinOpr(t).Some? && Left(GetBinOpr(t).value) > limit {
      var op := GetBinOpr(t).value;
      SubexprSound(ts, m + 1, Right(op), level + 1);
      var v := Subexpr(ts, m + 1, Right(op), level + 1);
      if v.Ok? {
        Joined(ts, p, m, v.next, e, v.e, limit, level);
        ClimbSound(ts, p, v.next, EBin(op, e, v.e), limit, level);
      }
    }
  }

  // ---------------------------------------------------------------------
  // And every such tree is what the parser returns

  lemma Parts(ts: seq<Token>, p: nat, q: nat, x: seq<Token>, y: seq<Token>, z: seq<Token>)
    requires p <= q <= |ts| && ts[p..q] == x + y + z
    ensures q == p + |x| + |y| + |z|
    ensures ts[p..p + |x|] == x && ts[p + |x|..p + |x| + |y|] == y && ts[p + |x| + |y|..q] == z
  {
    var w := ts[p..q];
    assert |w| == |x| + |y| + |z|;
    assert ts[p..p + |x|] == w[..|x|] == x;
    var m, n := p + |x|, p + |x| + |y|;
    forall k | 0 <= k < |y| ensures ts[m..n][k] == y[k] { assert ts[m + k] == w[|x| + k] == (x + y + z)[|x| + k]; }
    assert ts[m..n] == y;
    assert ts[p + |x| + |y|..q] == w[|x| + |y|..] == z;
  }

  /** The call reads `e` up to `q`, and is then in its loop there. */
  predicate Reads(ts: seq<Token>, p: nat, q: nat, e: Expr, limit: nat, level: int)
    requires p <= |ts| && q <= |ts|
  {
    Subexpr(ts, p, limit, level) ==
    if level + Depth(e) <= LUAI_MAXCCALLS then Climb(ts, q, e, limit, level + 1) else Err(TooDeep)
  }

  lemma {:induction false} ReadsTree(ts: seq<Token>, p: nat, q: nat, e: Expr, limit: nat, level: int)
    requires p < q <= |ts| && ts[p..q] == Yield(e) && Fits(e, limit) && Ends(e, At(ts, q))
    ensures Reads(ts, p, q, e, limit, level)
    decreases e
  {
    hide Reads, IsAtom, IsSuffix, GetBinOpr, Left, Right;
    match e
    case EAtom(t) =>
      assert ts[p] == ts[p..q][0] == t && q == p + 1;
      ReadsAtom(ts, p, limit, level);
    case EParen(x) =>
      Parts(ts, p, q, [LPar], Yield(x), [RPar]);
      assert ts[p] == ts[p..p + 1][0] && ts[q - 1] == ts[q - 1..q][0];
      NoOperator();
      ReadsTree(ts, p + 1, q - 1, x, 0, level + 1);
      ReadsParen(ts, p, q, x, limit, level);
    case EUn(op, x) =>
      Parts(ts, p, q, [UnToken(op)], Yield(x), []);
      assert ts[p] == ts[p..p + 1][0];
      ReadsTree(ts, p + 1, q, x, UNARY_PRIORITY, level + 1);
      ReadsUnary(ts, p, q, op, x, limit, level);
    case EBin(op, a, b) =>
      var m := p + |Yield(a)|;
      Parts(ts, p, q, Yield(a), [BinToken(op)], Yield(b));
      assert ts[m] == ts[m..m + 1][0];
      NoSuffix(op);
      ReadsTree(ts, p, m, a, limit, level);
      ReadsTree(ts, m + 1, q, b, Right(op), level + 1);
      ReadsBin(ts, p, m, q, op, a, b, limit, level);
  }

  lemma NoOperator()
    ensures !IsSuffix(RPar) && GetBinOpr(RPar) == None
  {
  }

  lemma NoSuffix(op: BinOp)
    ensures !IsSuffix(BinToken(op))
  {
  }

  lemma ReadsBin(ts: seq<Token>, p: nat, m: nat, q: nat, op: BinOp, a: Expr, b: Expr, limit: nat, level: int)
    requires p < m < q <= |ts| && ts[m] == BinToken(op) && Left(op) > limit
    requires GetBinOpr(At(ts, q)).Some? ==> Left(GetBinOpr(At(ts, q)).value) <= Right(op)
    requires Reads(ts, p, m, a, limit, level) && Reads(ts, m + 1, q, b, Right(op), level + 1)
    ensures Reads(ts, p, q, EBin(op, a, b), limit, level)
  {
  }

  lemma ReadsUnary(ts: seq<Token>, p: nat, q: nat, op: UnOp, x: Expr, limit: nat, level: int)
    requires p + 1 < q <= |ts| && ts[p] == UnToken(op) && Below(UNARY_PRIORITY, At(ts, q))
    requires Reads(ts, p + 1, q, x, UNARY_PRIORITY, level + 1)
    ensures Reads(ts, p, q, EUn(op, x), limit, level)
  {
    assert Operand(ts, p, level + 1) ==
           if level + 1 + Depth(x) <= LUAI_MAXCCALLS then Ok(EUn(op, x), q) else Err(TooDeep);
  }

  lemma ReadsAtom(ts: seq<Token>, p: nat, limit: nat, level: int)
    requires p < |ts| && IsAtom(ts[p]) && (ts[p].Name? ==> !IsSuffix(At(ts, p + 1)))
    ensures Reads(ts, p, p + 1, EAtom(ts[p]), limit, level)
  {
    assert Operand(ts, p, level + 1) == Simpleexp(ts, p, level + 1);
    if ts[p].Name? {
      assert Simpleexp(ts, p, level + 1) == Primaryexp(ts, p, level + 1);
      assert Prefixexp(ts, p, level + 1) == Ok(EAtom(ts[p]), p + 1);
    }
  }

  lemma ReadsParen(ts: seq<Token>, p: nat, q: nat, x: Expr, limit: nat, level: int)
    requires p + 1 < q <= |ts| && ts[p] == LPar && ts[q - 1] == RPar && !IsSuffix(At(ts, q))
    requires Reads(ts, p + 1, q - 1, x, 0, level + 1)
    ensures Reads(ts, p, q, EParen(x), limit, level)
  {
    var v := Subexpr(ts, p + 1, 0, level + 1);
    assert Operand(ts, p, level + 1) == Simpleexp(ts, p, level + 1) == Primaryexp(ts, p, level + 1);
    assert v == if level + 1 + Depth(x) <= LUAI_MAXCCALLS then Ok(x, q - 1) else Err(TooDeep);
    assert Prefixexp(ts, p, level + 1) == if v.Err? then v else Ok(EParen(x), q);
  }

  /** Precedence climbing: a call with a limit returns `e` and stops at `q` just
      when the tokens up to `q` are those of `e`, `e` is the manual's tree for
      them with no operator as weak as the limit outside parentheses, nesting is
      within bounds, and the next token is no suffix and no operator above the
      limit.  So the tree is unique, and each call stops at the first operator
      whose left priority is not above its limit. */
  lemma SubexprExact(ts: seq<Token>, p: nat, q: nat, e: Expr, limit: nat, level: int)
    requires p <= |ts|
    ensures Subexpr(ts, p, limit, level) == Ok(e, q) <==>
            (p < q <= |ts| && ts[p..q] == Yield(e) && Fits(e, limit) && Ends(e, At(ts, q))
             && Below(limit, At(ts, q)) && level + Depth(e) <= LUAI_MAXCCALLS)
  {
    SubexprSound(ts, p, limit, level);
    if p < q <= |ts| && ts[p..q] == Yield(e) && Fits(e, limit) && Ends(e, At(ts, q)) {
      ReadsTree(ts, p, q, e, limit, level);
    }
  }

  /** A whole text: parsed to `e` just when `e` is the manual's tree for it. */
  lemma ParseExact(ts: seq<Token>, e: Expr, level: int)
    ensures Subexpr(ts, 0, 0, level) == Ok(e, |ts|) <==>
            (Yield(e) == ts && Manual(e) && level + Depth(e) <= 200)
  {
    assert ts[0..|ts|] == ts;
    PrioritiesAreManual(e);
    SubexprExact(ts, 0, |ts|, e, 0, level);
  }

  /** After an opening parenthesis and an expression there must be a closing one. */
  lemma Unclosed(e: Expr, t: Token, rest: seq<Token>, level: int)
    requires Manual(e) && level + 1 + Depth(e) <= 200
    requires t != RPar && GetBinOpr(t) == None && (TakesSuffix(e) ==> !IsSuffix(t))
    ensures Subexpr([LPar] + Yield(e) + [t] + rest, 0, 0, level) == Err(Unmatched)
  {
    var ts, q := [LPar] + Yield(e) + [t] + rest, 1 + |Yield(e)|;
    assert ts[0] == LPar && ts[1..q] == Yield(e) && ts[q] == t;
    PrioritiesAreManual(e);
    ReadsTree(ts, 1, q, e, 0, level + 1);
    assert Subexpr(ts, 1, 0, level + 1) == Ok(e, q);
    assert Prefixexp(ts, 0, level + 1) == Err(Unmatched);
    PrefixFails(ts, level);
  }

  /** An error of prefixexp is that of the whole call. */
  lemma PrefixFails(ts: seq<Token>, level: int)
    requires level < 200 && Prefixexp(ts, 0, level + 1).Err?
    requires var t := At(ts, 0); GetUnOpr(t) == None && !t.Literal? && !t.Text? && !t.Brace? && !t.Start?
    ensures Subexpr(ts, 0, 0, level) == Prefixexp(ts, 0, level + 1)
  {
    hide Prefixexp;
    assert Primaryexp(ts, 0, level + 1) == Prefixexp(ts, 0, level + 1);
    assert Simpleexp(ts, 0, level + 1) == Primaryexp(ts, 0, level + 1);
    assert Operand(ts, 0, level + 1) == Simpleexp(ts, 0, level + 1);
  }

  /** No expression starts with a binary operator other than `-`, a closing
      parenthesis, or the end of the text. */
  lemma NoOperand(ts: seq<Token>, level: int)
    requires level < 200 && At(ts, 0) != TMinus
    requires GetBinOpr(At(ts, 0)).Some? || At(ts, 0) == RPar || At(ts, 0).Other? || At(ts, 0).Suffix?
    ensures Subexpr(ts, 0, 0, level) == Err(Unexpected)
  {
    assert Prefixexp(ts, 0, level + 1) == Err(Unexpected);
    PrefixFails(ts, level);
  }

  /** A name with an index, a field, a method or the arguments of a call behind
      it is where the model ends. */
  lemma SuffixOutside(ts: seq<Token>, level: int)
    requires level < 200 && At(ts, 0).Name?
    requires var t := At(ts, 1); t.Suffix? || t.LPar? || t.Text? || t.Brace?
    ensures Subexpr(ts, 0, 0, level) == Err(Outside)
  {
    assert Prefixexp(ts, 0, level + 1) == Ok(EAtom(ts[0]), 1);
    assert Primaryexp(ts, 0, level + 1) == Err(Outside);
    assert Simpleexp(ts, 0, level + 1) == Primaryexp(ts, 0, level + 1);
    assert Operand(ts, 0, level + 1) == Simpleexp(ts, 0, level + 1);
  }

  /** No text has two trees. */
  lemma Unambiguous(x: Expr, y: Expr)
    requires Manual(x) && Manual(y) && Yield(x) == Yield(y)
    ensures x == y
  {
    var ts := Yield(x);
    var level := 0 - Depth(x) - Depth(y);
    ParseExact(ts, x, level);
    ParseExact(ts, y, level);
  }

  // ---------------------------------------------------------------------
  // Trees and their prints

  /** A tree without its parentheses. */
  function Strip(e: Expr): (t: Expr) {
    match e
    case EAtom(_) => e
    case EParen(x) => Strip(x)
    case EUn(op, x) => EUn(op, Strip(x))
    case EBin(op, a, b) => EBin(op, Strip(a), Strip(b))
  }

  function Wrap(e: Expr, bare: bool): Expr { if bare then e else EParen(e) }

  /** A tree with parentheses around every operand that needs them, and no
      others. */
  function Bracket(e: Expr): Expr {
    match e
    case EAtom(_) => e
    case EParen(x) => Bracket(x)
    case EUn(op, x) => var y := Bracket(x); EUn(op, Wrap(y, UnaryOperand(y)))
    case EBin(op, a, b) =>
      var c, d := Bracket(a), Bracket(b);
      EBin(op, Wrap(c, LeftOperand(op, c)), Wrap(d, RightOperand(op, d)))
  }

  /** A tree with parentheses around every operand. */
  function Full(e: Expr): Expr {
    match e
    case EAtom(_) => e
    case EParen(x) => Full(x)
    case EUn(op, x) => EUn(op, EParen(Full(x)))
    case EBin(op, a, b) => EBin(op, EParen(Full(a)), EParen(Full(b)))
  }

  lemma {:induction false} BracketManual(e: Expr)
    requires AtomsOK(e)
    ensures Manual(Bracket(e)) && Strip(Bracket(e)) == Strip(e)
  {
    match e
    case EAtom(_) =>
    case EParen(x) => BracketManual(x);
    case EUn(_, x) => BracketManual(x);
    case EBin(_, a, b) =>
      BracketManual(a);
      BracketManual(b);
  }

  lemma {:induction false} FullManual(e: Expr)
    requires AtomsOK(e)
    ensures Manual(Full(e)) && Strip(Full(e)) == Strip(e)
  {
    match e
    case EAtom(_) =>
    case EParen(x) => FullManual(x);
    case EUn(_, x) => FullManual(x);
    case EBin(_, a, b) =>
      FullManual(a);
      FullManual(b);
  }

  /** Parsing a print gives the tree back, whether it has every parenthesis or
      only those it needs, up to the nesting limit. */
  lemma PrintRoundTrip(e: Expr, level: int)
    requires AtomsOK(e)
    ensures var r := Subexpr(Yield(Full(e)), 0, 0, level);
      if level + Depth(Full(e)) <= LUAI_MAXCCALLS then r == Ok(Full(e), |Yield(Full(e))|) && Strip(r.e) == Strip(e)
      else r == Err(TooDeep)
    ensures var r := Subexpr(Yield(Bracket(e)), 0, 0, level);
      if level + Depth(Bracket(e)) <= LUAI_MAXCCALLS
      then r == Ok(Bracket(e), |Yield(Bracket(e))|) && Strip(r.e) == Strip(e)
      else r == Err(TooDeep)
  {
    FullManual(e);
    BracketManual(e);
    WholeText(Full(e), level);
    WholeText(Bracket(e), level);
  }

  lemma WholeText(e: Expr, level: int)
    requires Manual(e)
    ensures Subexpr(Yield(e), 0, 0, level) ==
            if level + Depth(e) <= LUAI_MAXCCALLS then Ok(e, |Yield(e)|) else Err(TooDeep)
  {
    var ts := Yield(e);
    assert ts[0..|ts|] == ts;
    PrioritiesAreManual(e);
    ReadsTree(ts, 0, |ts|, e, 0, level);
  }

  // ---------------------------------------------------------------------
  // The parser in place

  datatype Result<T> = Done(value: T) | Failed(error: Error)

  class LexState {
    const ts: seq<Token>
    var pos: nat
    var nCcalls: int

    constructor (ts: seq<Token>, nCcalls: int)
      ensures this.ts == ts && pos == 0 && this.nCcalls == nCcalls
    {
      this.ts := ts;
      pos := 0;
      this.nCcalls := nCcalls;
    }

    ghost predicate Valid()
      reads `pos
    {
      pos <= |ts|
    }

    function Token(): Token
      reads `pos
    {
      At(ts, pos)
    }

    /** luaX_next */
    method Next()
      requires pos < |ts|
      modifies `pos
      ensures pos == old(pos) + 1
    {
      pos := pos + 1;
    }

    /** What a run of the parser from `p` at `level` leaves behind. */
    ghost predicate Meets(r: Result<Expr>, spec: Parsed, level: int)
      reads this
    {
      match spec
      case Ok(e, q) => r == Done(e) && pos == q && nCcalls == level && Valid()
      case Err(error) => r == Failed(error)
    }

    /** Returns the expression, and the first operator left untreated. */
    method SubExpr(limit: nat) returns (r: Result<Expr>, next: Option<BinOp>)
      requires Valid()
      modifies `pos, `nCcalls
      ensures Meets(r, Subexpr(ts, old(pos), limit, old(nCcalls)), old(nCcalls))
      ensures r.Done? ==> next == GetBinOpr(Token())
      decreases |ts| - pos, 2
    {
      next := None;
      ghost var spec := Subexpr(ts, pos, limit, nCcalls);
      nCcalls := nCcalls + 1;
      if nCcalls > LUAI_MAXCCALLS { return Failed(TooDeep), None; }
      var uop := GetUnOpr(Token());
      if uop.Some? {
        Next();
        r, next := SubExpr(UNARY_PRIORITY);
        if r.Failed? { return; }
        r := Done(EUn(uop.value, r.value));
      } else {
        r := SimpleExpr();
        if r.Failed? { return; }
      }
      var op := GetBinOpr(Token());
      while op.Some? && Left(op.value) > limit
        invariant Valid() && pos > old(pos) && nCcalls == old(nCcalls) + 1
        invariant r.Done? && op == GetBinOpr(Token())
        invariant spec == Climb(ts, pos, r.value, limit, nCcalls)
        decreases |ts| - pos
      {
        Next();
        var v2, nextop := SubExpr(Right(op.value));
        if v2.Failed? { return v2, None; }
        r := Done(EBin(op.value, r.value, v2.value));
        op := nextop;
      }
      nCcalls := nCcalls - 1;
      next := op;
    }

    method SimpleExpr() returns (r: Result<Expr>)
      requires Valid()
      modifies `pos, `nCcalls
      ensures Meets(r, Simpleexp(ts, old(pos), old(nCcalls)), old(nCcalls))
      decreases |ts| - pos, 0, 2
    {
      var t := Token();
      match t {
        case Literal(_) =>
          Next();
          r := Done(EAtom(t));
        case Text(_) =>
          Next();
          r := Done(EAtom(t));
        case Brace => r := Failed(Outside);
        case Start(_) => r := Failed(Outside);
        case _ => r := PrimaryExpr();
      }
    }

    method PrimaryExpr() returns (r: Result<Expr>)
      requires Valid()
      modifies `pos, `nCcalls
      ensures Meets(r, Primaryexp(ts, old(pos), old(nCcalls)), old(nCcalls))
      decreases |ts| - pos, 0, 1
    {
      r := PrefixExpr();
      if r.Done? && IsSuffix(Token()) { r := Failed(Outside); }
    }

    method PrefixExpr() returns (r: Result<Expr>)
      requires Valid()
      modifies `pos, `nCcalls
      ensures Meets(r, Prefixexp(ts, old(pos), old(nCcalls)), old(nCcalls))
      decreases |ts| - pos, 0, 0
    {
      var t := Token();
      match t {
        case Name(_) =>
          Next();
          r := Done(EAtom(t));
        case LPar =>
          Next();
          var next;
          r, next := SubExpr(0);
          if r.Done? {
            if Token() != RPar { return Failed(Unmatched); }
            Next();
            r := Done(EParen(r.value));
          }
        case _ => r := Failed(Unexpected);
      }
    }
  }
}
