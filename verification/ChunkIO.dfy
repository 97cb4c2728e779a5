/** The chunk writer and reader of ldump.c and lundump.c, and the buffered
    stream of lzio.c that the reader works on. */
module ChunkIO {
  import opened Options
  import opened Chunk

  const EOZ: int := -1

  /** What the reader function has still to deliver: an empty piece, like no
      piece at all, ends the stream. */
  function Available(pieces: seq<bytes>): bytes {
    if pieces == [] || pieces[0] == [] then [] else pieces[0] + Available(pieces[1..])
  }

  /** A buffered stream. */
  class ZIO {
    var pieces: seq<bytes>
    var cur: bytes
    var p: nat

    ghost predicate Valid()
      reads this
    {
      p <= |cur|
    }

    /** All that can still be read. */
    function Rest(): bytes
      reads this
      requires Valid()
    {
      cur[p..] + Available(pieces)
    }

    constructor (data: seq<bytes>)
      ensures Valid() && Rest() == Available(data)
    {
      pieces, cur, p := data, [], 0;
    }

    /** luaZ_fill: the next piece, and its first byte. */
    method Fill() returns (c: int)
      requires Valid() && p == |cur|
      modifies this
      ensures Valid()
      ensures c == EOZ <==> old(Rest()) == []
      ensures c != EOZ ==> p == 1 && cur[0] as int == c && old(Rest()) == [cur[0]] + Rest() && cur != []
    {
      if pieces == [] { return EOZ; }
      var buff := pieces[0];
      pieces := pieces[1..];
      if buff == [] { return EOZ; }
      assert buff == [buff[0]] + buff[1..];
      cur, p := buff, 1;
      c := buff[0] as int;
    }

    /** zgetc */
    method Zgetc() returns (c: int)
      requires Valid()
      modifies this
      ensures Valid()
      ensures c == EOZ <==> old(Rest()) == []
      ensures c != EOZ ==> old(Rest()) != [] && c == old(Rest())[0] && Rest() == old(Rest())[1..]
    {
      if p < |cur| {
        c := cur[p];
        assert cur[p..] == [cur[p]] + cur[p + 1..];
        p := p + 1;
      } else {
        c := Fill();
      }
    }

    /** luaZ_lookahead. */
    method Lookahead() returns (c: int)
      requires Valid()
      modifies this
      ensures Valid()
      ensures c == EOZ <==> old(Rest()) == []
      ensures c != EOZ ==> Rest() == old(Rest()) && p < |cur| && c == cur[p] as int
    {
      if p == |cur| {
        c := Fill();
        if c == EOZ { return; }
        p := p - 1;
        assert cur[0..] == [cur[0]] + cur[1..];
      } else {
        c := cur[p] as int;
      }
    }

    /** luaZ_read: `n` bytes, or how many are missing. */
    method Read(n0: nat) returns (b: bytes, missing: nat)
      requires Valid()
      modifies this
      ensures Valid()
      ensures missing == 0 <==> |old(Rest())| >= n0
      ensures missing == 0 ==> b == old(Rest())[..n0] && Rest() == old(Rest())[n0..]
      ensures missing > 0 ==> missing == n0 - |old(Rest())|
    {
      hide *;
      var n: nat := n0;
      b := [];
      ghost var all := Rest();
      assert b + Rest() == all;
      while n > 0
        invariant Valid() && n <= n0 && |b| == n0 - n && b + Rest() == all
      {
        var c := Lookahead();
        if c == EOZ { return b, n; }
        var piece := Take(n);
        assert b + (piece + Rest()) == (b + piece) + Rest();
        b := b + piece;
        n := n - |piece|;
      }
      assert all[..n0] == b && all[n0..] == Rest();
      missing := 0;
    }

    /** What is left of the piece at hand, but not more than `n` bytes. */
    method Take(n: nat) returns (piece: bytes)
      requires Valid() && n > 0 && p < |cur|
      modifies `p
      ensures Valid() && 0 < |piece| <= n && old(Rest()) == piece + Rest()
    {
      var m := if n <= |cur| - p then n else |cur| - p;
      piece := cur[p..p + m];
      assert cur[p..] == piece + cur[p + m..];
      p := p + m;
    }
  }

  // ---------------------------------------------------------------------
  // Loading

  datatype Loaded<+T> = Got(value: T) | Failed(error: Error)

  /** A loading method has come to what the decoder of the bytes comes to. */
  ghost predicate Agrees<T>(r: Loaded<T>, d: Dec<T>, rest: bytes) {
    match d case Ok(v, rest1) => r == Got(v) && rest == rest1 case Bad(e) => r == Failed(e)
  }

  /** The little-endian words in a block. */
  function Words(k: nat, b: bytes): seq<nat>
    requires k > 0
  {
    if |b| < k then [] else [FromLe(b[..k])] + Words(k, b[k..])
  }

  lemma {:induction false} ManyWords(n: nat, b: bytes)
    ensures DecMany(n, DecInstruction, b) ==
      if |b| < 4 * n then Bad(UnexpectedEnd) else Ok(Words(4, b[..4 * n]), b[4 * n..])
    decreases n
  {
    if n == 0 {
      assert b[0..] == b;
    } else if |b| >= 4 {
      ManyWords(n - 1, b[4..]);
      if |b| >= 4 * n {
        assert b[..4 * n][4..] == b[4..][..4 * (n - 1)];
        assert b[..4 * n][..4] == b[..4];
        assert b[4..][4 * (n - 1)..] == b[4 * n..];
      }
    }
  }

  /** A vector of integers that is read in one piece. */
  lemma {:induction false} ManyRaw(n: nat, b: bytes)
    ensures DecMany(n, DecRaw, b) ==
      if |b| < 4 * n then Bad(UnexpectedEnd) else Ok(SignedAll(Words(4, b[..4 * n])), b[4 * n..])
    decreases n
  {
    if n == 0 {
      assert b[0..] == b;
    } else if |b| >= 4 {
      ManyRaw(n - 1, b[4..]);
      if |b| >= 4 * n {
        assert b[..4 * n][4..] == b[4..][..4 * (n - 1)];
        assert b[..4 * n][..4] == b[..4];
        assert b[4..][4 * (n - 1)..] == b[4 * n..];
        var w := Words(4, b[4..][..4 * (n - 1)]);
        assert ([FromLe(b[..4])] + w)[1..] == w;
      }
    }
  }

  function SignedAll(ws: seq<nat>): seq<int> { if ws == [] then [] else [Signed(ws[0])] + SignedAll(ws[1..]) }

  /** What has been decoded, and what decoding the rest comes to. */
  ghost predicate Progress<T>(all: Dec<seq<T>>, done: seq<T>, left: Dec<seq<T>>) {
    match left
    case Ok(xs, rest) => all == Ok(done + xs, rest)
    case Bad(e) => all == Bad(e)
  }

  lemma ProgressEnds<T>(all: Dec<seq<T>>, done: seq<T>, d: bytes -> Dec<T>, b: bytes)
    ensures Progress(all, [], all)
    ensures Progress(all, done, DecMany(0, d, b)) ==> all == Ok(done, b)
  {
    if all.Ok? { assert [] + all.value == all.value; }
    assert done + [] == done;
  }

  lemma ProgressStep<T>(all: Dec<seq<T>>, done: seq<T>, n: nat, d: bytes -> Dec<T>, b: bytes)
    requires Progress(all, done, DecMany(n, d, b)) && n > 0
    ensures d(b).Bad? ==> all == Bad(d(b).error)
    ensures d(b).Ok? ==> Progress(all, done + [d(b).value], DecMany(n - 1, d, d(b).rest))
  {
    if d(b).Ok? {
      var left := DecMany(n - 1, d, d(b).rest);
      if left.Ok? { assert done + ([d(b).value] + left.value) == done + [d(b).value] + left.value; }
    }
  }

  class LoadState {
    const z: ZIO
    const check: Proto -> bool
    var nCcalls: nat

    constructor (stream: ZIO, c: Proto -> bool, calls: nat)
      ensures z == stream && check == c && nCcalls == calls
    {
      z, check, nCcalls := stream, c, calls;
    }

    method LoadBlock(n: nat) returns (r: Loaded<bytes>)
      requires z.Valid()
      modifies z
      ensures z.Valid() && Agrees(r, DecBlock(n, old(z.Rest())), z.Rest())
    {
      var b, missing := z.Read(n);
      r := if missing != 0 then Failed(UnexpectedEnd) else Got(b);
    }

    method LoadWord(k: nat) returns (r: Loaded<nat>)
      requires z.Valid()
      modifies z
      ensures z.Valid() && Agrees(r, DecWord(k, old(z.Rest())), z.Rest())
    {
      var b := LoadBlock(k);
      r := if b.Failed? then Failed(b.error) else Got(FromLe(b.value));
    }

    method LoadChar() returns (r: Loaded<int>)
      requires z.Valid()
      modifies z
      ensures z.Valid() && Agrees(r, DecByte(old(z.Rest())), z.Rest())
    {
      var b := LoadBlock(1);
      r := if b.Failed? then Failed(b.error) else Got(b.value[0] as int);
    }

    method LoadInt() returns (r: Loaded<int>)
      requires z.Valid()
      modifies z
      ensures z.Valid() && Agrees(r, DecInt(old(z.Rest())), z.Rest())
    {
      var w := LoadWord(SIZE_INT);
      if w.Failed? { return Failed(w.error); }
      var x := Signed(w.value);
      r := if x < 0 then Failed(BadInteger) else Got(x);
    }

    method LoadString() returns (r: Loaded<Option<bytes>>)
      requires z.Valid()
      modifies z
      ensures z.Valid() && Agrees(r, DecString(old(z.Rest())), z.Rest())
    {
      var size := LoadWord(SIZE_SIZET);
      if size.Failed? { return Failed(size.error); }
      if size.value == 0 { return Got(None); }
      var s := LoadBlock(size.value);
      r := if s.Failed? then Failed(s.error) else Got(Some(s.value[..size.value - 1]));
    }

    method LoadCode() returns (r: Loaded<seq<nat>>)
      requires z.Valid()
      modifies z
      ensures z.Valid() && Agrees(r, DecVector(DecInstruction, old(z.Rest())), z.Rest())
    {
      var n := LoadInt();
      if n.Failed? { return Failed(n.error); }
      ManyWords(n.value, z.Rest());
      var b := LoadBlock(n.value * SIZE_INSTRUCTION);
      r := if b.Failed? then Failed(b.error) else Got(Words(SIZE_INSTRUCTION, b.value));
    }

    method LoadConstant() returns (r: Loaded<Const>)
      requires z.Valid()
      modifies z
      ensures z.Valid() && Agrees(r, DecConst(old(z.Rest())), z.Rest())
    {
      var t := LoadChar();
      if t.Failed? { return Failed(t.error); }
      if t.value == 0 {
        r := Got(KNil);
      } else if t.value == 1 {
        var b := LoadChar();
        r := if b.Failed? then Failed(b.error) else Got(KBool(b.value != 0));
      } else if t.value == 3 {
        var n := LoadWord(SIZE_NUMBER);
        r := if n.Failed? then Failed(n.error) else Got(KNum(n.value));
      } else if t.value == 4 {
        var s := LoadString();
        r := if s.Failed? then Failed(s.error) else Got(if s.value.None? then KNullStr else KStr(s.value.value));
      } else {
        r := Failed(BadConstant);
      }
    }

    /** The constants of LoadConstants. */
    method LoadConstants() returns (r: Loaded<seq<Const>>)
      requires z.Valid()
      modifies z
      ensures z.Valid() && Agrees(r, DecVector(DecConst, old(z.Rest())), z.Rest())
    {
      hide DecConst, DecInt;
      var n := LoadInt();
      if n.Failed? { return Failed(n.error); }
      r := LoadConstantList(n.value);
    }

    method LoadConstantList(n: nat) returns (r: Loaded<seq<Const>>)
      requires z.Valid()
      modifies z
      ensures z.Valid() && Agrees(r, DecMany(n, DecConst, old(z.Rest())), z.Rest())
    {
      hide DecConst, DecMany;
      ghost var all := DecMany(n, DecConst, z.Rest());
      ProgressEnds(all, [], DecConst, z.Rest());
      var k: seq<Const> := [];
      var i := 0;
      while i < n
        invariant 0 <= i <= n && z.Valid() && Progress(all, k, DecMany(n - i, DecConst, z.Rest()))
      {
        ProgressStep(all, k, n - i, DecConst, z.Rest());
        hide Progress;
        var o := LoadConstant();
        if o.Failed? { return Failed(o.error); }
        k := k + [o.value];
        i := i + 1;
      }
      ProgressEnds(all, k, DecConst, z.Rest());
      r := Got(k);
    }

    method LoadLocVar() returns (r: Loaded<LocVar>)
      requires z.Valid()
      modifies z
      ensures z.Valid() && Agrees(r, DecLocVar(old(z.Rest())), z.Rest())
    {
      var name := LoadString();
      if name.Failed? { return Failed(name.error); }
      var startpc := LoadInt();
      if startpc.Failed? { return Failed(startpc.error); }
      var endpc := LoadInt();
      r := if endpc.Failed? then Failed(endpc.error) else Got(LocVar(name.value, startpc.value, endpc.value));
    }

    method LoadLineInfo() returns (r: Loaded<seq<int>>)
      requires z.Valid()
      modifies z
      ensures z.Valid() && Agrees(r, DecVector(DecRaw, old(z.Rest())), z.Rest())
    {
      var n := LoadInt();
      if n.Failed? { return Failed(n.error); }
      ManyRaw(n.value, z.Rest());
      var b := LoadBlock(n.value * SIZE_INT);
      r := if b.Failed? then Failed(b.error) else Got(SignedAll(Words(SIZE_INT, b.value)));
    }

    method LoadLocVars() returns (r: Loaded<seq<LocVar>>)
      requires z.Valid()
      modifies z
      ensures z.Valid() && Agrees(r, DecVector(DecLocVar, old(z.Rest())), z.Rest())
    {
      hide DecLocVar, DecInt;
      var n := LoadInt();
      if n.Failed? { return Failed(n.error); }
      r := LoadLocVarList(n.value);
    }

    method LoadLocVarList(n: nat) returns (r: Loaded<seq<LocVar>>)
      requires z.Valid()
      modifies z
      ensures z.Valid() && Agrees(r, DecMany(n, DecLocVar, old(z.Rest())), z.Rest())
    {
      hide DecLocVar, DecMany;
      ghost var all := DecMany(n, DecLocVar, z.Rest());
      ProgressEnds(all, [], DecLocVar, z.Rest());
      var v: seq<LocVar> := [];
      var i := 0;
      while i < n
        invariant 0 <= i <= n && z.Valid() && Progress(all, v, DecMany(n - i, DecLocVar, z.Rest()))
      {
        ProgressStep(all, v, n - i, DecLocVar, z.Rest());
        hide Progress;
        var o := LoadLocVar();
        if o.Failed? { return Failed(o.error); }
        v := v + [o.value];
        i := i + 1;
      }
      ProgressEnds(all, v, DecLocVar, z.Rest());
      r := Got(v);
    }

    method LoadUpvalueNames() returns (r: Loaded<seq<Option<bytes>>>)
      requires z.Valid()
      modifies z
      ensures z.Valid() && Agrees(r, DecVector(DecString, old(z.Rest())), z.Rest())
    {
      hide DecString, DecInt;
      var n := LoadInt();
      if n.Failed? { return Failed(n.error); }
      r := LoadNameList(n.value);
    }

    method LoadNameList(n: nat) returns (r: Loaded<seq<Option<bytes>>>)
      requires z.Valid()
      modifies z
      ensures z.Valid() && Agrees(r, DecMany(n, DecString, old(z.Rest())), z.Rest())
    {
      hide DecString, DecMany;
      ghost var all := DecMany(n, DecString, z.Rest());
      ProgressEnds(all, [], DecString, z.Rest());
      var v: seq<Option<bytes>> := [];
      var i := 0;
      while i < n
        invariant 0 <= i <= n && z.Valid() && Progress(all, v, DecMany(n - i, DecString, z.Rest()))
      {
        ProgressStep(all, v, n - i, DecString, z.Rest());
        hide Progress;
        var o := LoadString();
        if o.Failed? { return Failed(o.error); }
        v := v + [o.value];
        i := i + 1;
      }
      ProgressEnds(all, v, DecString, z.Rest());
      r := Got(v);
    }

    method LoadDebug() returns (r: Loaded<Debug>)
      requires z.Valid()
      modifies z
      ensures z.Valid() && Agrees(r, DecDebug(old(z.Rest())), z.Rest())
    {
      hide DecVector;
      var lines := LoadLineInfo();
      if lines.Failed? { return Failed(lines.error); }
      var locs := LoadLocVars();
      if locs.Failed? { return Failed(locs.error); }
      var ups := LoadUpvalueNames();
      r := if ups.Failed? then Failed(ups.error) else Got(Debug(lines.value, locs.value, ups.value));
    }

    method LoadHeading() returns (r: Loaded<Heading>)
      requires z.Valid()
      modifies z
      ensures z.Valid() && Agrees(r, DecHeading(old(z.Rest())), z.Rest())
    {
      hide DecInt, DecByte;
      var x := LoadInt();
      if x.Failed? { return Failed(x.error); }
      var y := LoadInt();
      if y.Failed? { return Failed(y.error); }
      ghost var all := DecMany(4, DecByte, z.Rest());
      ProgressEnds(all, [], DecByte, z.Rest());
      ProgressStep(all, [], 4, DecByte, z.Rest());
      var a := LoadChar();
      if a.Failed? { return Failed(a.error); }
      assert [] + [a.value] == [a.value];
      ProgressStep(all, [a.value], 3, DecByte, z.Rest());
      var b := LoadChar();
      if b.Failed? { return Failed(b.error); }
      assert [a.value] + [b.value] == [a.value, b.value];
      ProgressStep(all, [a.value, b.value], 2, DecByte, z.Rest());
      var c := LoadChar();
      if c.Failed? { return Failed(c.error); }
      assert [a.value, b.value] + [c.value] == [a.value, b.value, c.value];
      ProgressStep(all, [a.value, b.value, c.value], 1, DecByte, z.Rest());
      var d := LoadChar();
      if d.Failed? { return Failed(d.error); }
      var cs := [a.value, b.value, c.value, d.value];
      assert [a.value, b.value, c.value] + [d.value] == cs;
      ProgressEnds(all, cs, DecByte, z.Rest());
      r := Got(Heading(x.value, y.value, a.value, b.value, c.value, d.value));
    }

    method LoadFront(p: Option<bytes>) returns (r: Loaded<Front>)
      requires z.Valid()
      modifies z
      ensures z.Valid() && Agrees(r, DecFront(p, old(z.Rest())), z.Rest())
    {
      hide DecVector, DecString, DecHeading;
      var s := LoadString();
      if s.Failed? { return Failed(s.error); }
      var h := LoadHeading();
      if h.Failed? { return Failed(h.error); }
      var code := LoadCode();
      if code.Failed? { return Failed(code.error); }
      var k := LoadConstants();
      if k.Failed? { return Failed(k.error); }
      r := Got(Front(if s.value.None? then p else s.value, h.value.linedefined, h.value.lastlinedefined, h.value.nups,
                     h.value.numparams, h.value.isVararg, h.value.maxstacksize, code.value, k.value));
    }

    /** LoadFunction. */
    method LoadFunction(p: Option<bytes>) returns (r: Loaded<Proto>)
      requires z.Valid()
      modifies z, `nCcalls
      ensures z.Valid() && Agrees(r, DecFunction(check, p, old(nCcalls), old(z.Rest())), z.Rest())
      ensures r.Got? ==> nCcalls == old(nCcalls)
      decreases MAXCCALLS - nCcalls, 1
    {
      hide DecFunction, DecParts, Available;
      FunctionForm(check, p, nCcalls, z.Rest());
      nCcalls := nCcalls + 1;
      if nCcalls > MAXCCALLS { return Failed(TooDeep); }
      r := LoadParts(p);
      if r.Failed? { return; }
      nCcalls := nCcalls - 1;
    }

    method LoadParts(p: Option<bytes>) returns (r: Loaded<Proto>)
      requires z.Valid() && nCcalls <= MAXCCALLS
      modifies z, `nCcalls
      ensures z.Valid() && Agrees(r, DecParts(check, p, old(nCcalls), old(z.Rest())), z.Rest())
      ensures r.Got? ==> nCcalls == old(nCcalls)
      decreases MAXCCALLS - nCcalls, 5
    {
      hide DecFront, DecRest, Available;
      var h := LoadFront(p);
      if h.Failed? { return Failed(h.error); }
      r := LoadRest(h.value);
    }

    /** LoadFunction, after the constants. */
    method LoadRest(h: Front) returns (r: Loaded<Proto>)
      requires z.Valid() && nCcalls <= MAXCCALLS
      modifies z, `nCcalls
      ensures z.Valid() && Agrees(r, DecRest(check, h, old(nCcalls), old(z.Rest())), z.Rest())
      ensures r.Got? ==> nCcalls == old(nCcalls)
      decreases MAXCCALLS - nCcalls, 4
    {
      hide DecInt, DecDebug, DecFunctions, DecFunction, Assemble, Available;
      var n := LoadInt();
      if n.Failed? { return Failed(n.error); }
      var ps := LoadFunctions(n.value, h.source);
      if ps.Failed? { return Failed(ps.error); }
      var d := LoadDebug();
      if d.Failed? { return Failed(d.error); }
      var f := Assemble(h, ps.value, d.value);
      if !check(f) { return Failed(BadCode); }
      r := Got(f);
    }

    /** The nested functions of LoadConstants. */
    method LoadFunctions(n: nat, p: Option<bytes>) returns (r: Loaded<seq<Proto>>)
      requires z.Valid()
      modifies z, `nCcalls
      ensures z.Valid() && Agrees(r, DecFunctions(check, n, p, old(nCcalls), old(z.Rest())), z.Rest())
      ensures r.Got? ==> nCcalls == old(nCcalls)
      decreases MAXCCALLS - nCcalls, 3
    {
      hide *;
      ghost var calls := nCcalls;
      ghost var all := DecFunctions(check, n, p, calls, z.Rest());
      FunctionsEnds(all, [], check, p, calls, z.Rest());
      var fs: seq<Proto> := [];
      var i := 0;
      while i < n
        invariant 0 <= i <= n && z.Valid() && nCcalls == calls
        invariant Progress(all, fs, DecFunctions(check, n - i, p, calls, z.Rest()))
      {
        var next := LoadNext(all, fs, n - i, p);
        if next.Failed? { return Failed(next.error); }
        fs := next.value;
        i := i + 1;
      }
      FunctionsEnds(all, fs, check, p, calls, z.Rest());
      r := Got(fs);
    }

    /** One nested function, after `fs`; `n` are left. */
    method LoadNext(ghost all: Dec<seq<Proto>>, fs: seq<Proto>, ghost n: nat, p: Option<bytes>) returns (r: Loaded<seq<Proto>>)
      requires z.Valid() && n > 0 && Progress(all, fs, DecFunctions(check, n, p, nCcalls, z.Rest()))
      modifies z, `nCcalls
      ensures z.Valid()
      ensures r.Failed? ==> Agrees(r, all, z.Rest())
      ensures r.Got? ==> nCcalls == old(nCcalls) && Progress(all, r.value, DecFunctions(check, n - 1, p, nCcalls, z.Rest()))
      decreases MAXCCALLS - nCcalls, 2
    {
      hide *;
      ghost var b, calls := z.Rest(), nCcalls;
      var f := LoadFunction(p);
      FunctionsStep(all, fs, check, n, p, calls, b, f, z.Rest());
      r := if f.Failed? then Failed(f.error) else Got(fs + [f.value]);
    }

    /** luaU_undump. */
    method Undump() returns (r: Loaded<Proto>)
      requires z.Valid()
      modifies z, `nCcalls
      ensures z.Valid() && Agrees(r, DecChunk(check, old(nCcalls), old(z.Rest())), z.Rest())
    {
      hide DecFunction;
      var h := LoadBlock(|HEADER|);
      if h.Failed? { return Failed(h.error); }
      if h.value != HEADER { return Failed(BadHeader); }
      r := LoadFunction(Some(UNKNOWN));
    }
  }

  function DecRest(check: Proto -> bool, h: Front, calls: nat, b: bytes): Dec<Proto> {
    match DecInt(b)
    case Bad(e) => Bad(e)
    case Ok(n, b2) =>
      (match DecFunctions(check, n, h.source, calls, b2)
       case Bad(e) => Bad(e)
       case Ok(ps, b3) =>
         (match DecDebug(b3)
          case Bad(e) => Bad(e)
          case Ok(d, b4) => if check(Assemble(h, ps, d)) then Ok(Assemble(h, ps, d), b4) else Bad(BadCode)))
  }

  function DecParts(check: Proto -> bool, p: Option<bytes>, calls: nat, b: bytes): Dec<Proto> {
    match DecFront(p, b)
    case Bad(e) => Bad(e)
    case Ok(h, b1) => DecRest(check, h, calls, b1)
  }

  lemma FunctionForm(check: Proto -> bool, p: Option<bytes>, calls: nat, b: bytes)
    ensures DecFunction(check, p, calls, b) ==
            if calls + 1 > MAXCCALLS then Bad(TooDeep) else DecParts(check, p, calls + 1, b)
  {
    hide DecFront, DecInt, DecDebug, DecFunctions, Assemble;
  }

  lemma FunctionsEnds(all: Dec<seq<Proto>>, done: seq<Proto>, check: Proto -> bool, p: Option<bytes>, calls: nat, b: bytes)
    ensures Progress(all, [], all)
    ensures Progress(all, done, DecFunctions(check, 0, p, calls, b)) ==> Agrees(Got(done), all, b)
  {
    if all.Ok? { assert [] + all.value == all.value; }
    assert done + [] == done;
  }

  lemma FunctionsStep(all: Dec<seq<Proto>>, done: seq<Proto>, check: Proto -> bool, n: nat, p: Option<bytes>, calls: nat,
                      b: bytes, r: Loaded<Proto>, rest: bytes)
    requires Progress(all, done, DecFunctions(check, n, p, calls, b)) && n > 0
    requires Agrees(r, DecFunction(check, p, calls, b), rest)
    ensures r.Failed? ==> Agrees(Failed(r.error), all, rest)
    ensures r.Got? ==> Progress(all, done + [r.value], DecFunctions(check, n - 1, p, calls, rest))
  {
    hide DecFunction;
    if r.Got? {
      var left := DecFunctions(check, n - 1, p, calls, rest);
      if left.Ok? { assert done + ([r.value] + left.value) == done + [r.value] + left.value; }
    }
  }

  // ---------------------------------------------------------------------
  // Dumping

  /** DumpState.  The writer is an unknown function of the caller: `status` of
      its call number `n` is `fails(n)`, zero for success. */
  class DumpState {
    const strip: bool
    const fails: nat -> int
    var status: int
    var calls: nat
    var out: bytes

    constructor (s: bool, w: nat -> int)
      ensures strip == s && fails == w && status == 0 && out == [] && calls == 0
    {
      strip, fails, status, calls, out := s, w, 0, 0, [];
    }

    /** `b` has been written, unless the writer has failed: then it is not
        called again, and its status stays. */
    twostate predicate Wrote(b: bytes)
      reads this
    {
      && (status == 0 ==> old(status) == 0 && out == old(out) + b)
      && (old(status) != 0 ==> status == old(status) && out == old(out) && calls == old(calls))
    }

    method DumpBlock(b: bytes)
      modifies this
      ensures Wrote(b)
    {
      if status == 0 {
        status := fails(calls);
        calls := calls + 1;
        if status == 0 { out := out + b; }
      }
    }

    method DumpChar(y: int)
      modifies this
      ensures Wrote(EncByte(y))
    {
      DumpBlock(EncByte(y));
    }

    method DumpInt(x: int)
      modifies this
      ensures Wrote(EncInt(x))
    {
      DumpBlock(EncInt(x));
    }

    /** DumpVector, for the instructions. */
    method DumpCode(code: seq<nat>)
      modifies this
      ensures Wrote(EncVector(EncInstruction, code))
    {
      DumpInt(|code|);
      DumpBlock(EncMany(EncInstruction, code));
    }

    method DumpLineInfo(lines: seq<int>)
      modifies this
      ensures Wrote(EncVector(EncInt, lines))
    {
      DumpInt(|lines|);
      DumpBlock(EncMany(EncInt, lines));
    }

    method DumpString(s: Option<bytes>)
      modifies this
      ensures Wrote(EncString(s))
    {
      if s.None? {
        DumpBlock(Le(0, SIZE_SIZET));
      } else {
        DumpBlock(Le(|s.value| + 1, SIZE_SIZET));
        DumpBlock(s.value + [0]);
        assert EncString(s) == Le(|s.value| + 1, SIZE_SIZET) + (s.value + [0]);
      }
    }

    method DumpConstant(c: Const)
      modifies this
      ensures Wrote(EncConst(c))
    {
      hide EncString, Le;
      match c {
        case KNil => DumpChar(0);
        case KBool(b) =>
          DumpChar(1);
          DumpChar(if b then 1 else 0);
        case KNum(n) =>
          DumpChar(3);
          DumpBlock(Le(n, SIZE_NUMBER));
        case KStr(s) =>
          DumpChar(4);
          DumpString(Some(s));
        case KNullStr =>
          DumpChar(4);
          DumpString(None);
      }
    }

    /** The constants of DumpConstants. */
    method DumpConstants(xs: seq<Const>)
      modifies this
      ensures Wrote(EncVector(EncConst, xs))
    {
      hide EncConst, EncMany, EncInt;
      DumpInt(|xs|);
      DumpConstantList(xs);
    }

    method DumpConstantList(xs: seq<Const>)
      modifies this
      ensures Wrote(EncMany(EncConst, xs))
    {
      hide EncConst, EncMany;
      ghost var done := EncMany(EncConst, xs[..0]);
      NoneDone(EncConst, xs);
      var i := 0;
      while i < |xs|
        invariant 0 <= i <= |xs| && Wrote(done) && done == EncMany(EncConst, xs[..i])
      {
        ManySnoc(EncConst, xs, i);
        DumpConstant(xs[i]);
        done := done + EncConst(xs[i]);
        i := i + 1;
      }
      assert xs[..i] == xs;
    }

    method DumpLocVar(v: LocVar)
      modifies this
      ensures Wrote(EncLocVar(v))
    {
      hide EncString, EncInt;
      DumpString(v.varname);
      DumpInt(v.startpc);
      DumpInt(v.endpc);
    }

    method DumpLocVars(xs: seq<LocVar>)
      modifies this
      ensures Wrote(EncVector(EncLocVar, xs))
    {
      hide EncLocVar, EncMany, EncInt;
      DumpInt(|xs|);
      DumpLocVarList(xs);
    }

    method DumpLocVarList(xs: seq<LocVar>)
      modifies this
      ensures Wrote(EncMany(EncLocVar, xs))
    {
      hide EncLocVar, EncMany;
      ghost var done := EncMany(EncLocVar, xs[..0]);
      NoneDone(EncLocVar, xs);
      var i := 0;
      while i < |xs|
        invariant 0 <= i <= |xs| && Wrote(done) && done == EncMany(EncLocVar, xs[..i])
      {
        ManySnoc(EncLocVar, xs, i);
        DumpLocVar(xs[i]);
        done := done + EncLocVar(xs[i]);
        i := i + 1;
      }
      assert xs[..i] == xs;
    }

    method DumpNames(xs: seq<Option<bytes>>)
      modifies this
      ensures Wrote(EncVector(EncString, xs))
    {
      hide EncString, EncMany, EncInt;
      DumpInt(|xs|);
      DumpNameList(xs);
    }

    method DumpNameList(xs: seq<Option<bytes>>)
      modifies this
      ensures Wrote(EncMany(EncString, xs))
    {
      hide EncString, EncMany;
      ghost var done := EncMany(EncString, xs[..0]);
      NoneDone(EncString, xs);
      var i := 0;
      while i < |xs|
        invariant 0 <= i <= |xs| && Wrote(done) && done == EncMany(EncString, xs[..i])
      {
        ManySnoc(EncString, xs, i);
        DumpString(xs[i]);
        done := done + EncString(xs[i]);
        i := i + 1;
      }
      assert xs[..i] == xs;
    }

    method DumpDebug(f: Proto)
      modifies this
      ensures Wrote(EncDebug(f, strip))
    {
      hide EncVector;
      DumpLineInfo(if strip then [] else f.lineinfo);
      DumpLocVars(if strip then [] else f.locvars);
      DumpNames(if strip then [] else f.upvalues);
    }

    method DumpHeading(f: Proto)
      modifies this
      ensures Wrote(EncHeading(f))
    {
      hide EncInt, EncByte, EncMany;
      DumpInt(f.linedefined);
      DumpInt(f.lastlinedefined);
      DumpFour(f.nups, f.numparams, f.isVararg, f.maxstacksize);
    }

    method DumpFour(a: int, b: int, c: int, d: int)
      modifies this
      ensures Wrote(EncMany(EncByte, [a, b, c, d]))
    {
      FourBytes(a, b, c, d);
      hide EncByte, EncMany;
      DumpChar(a);
      DumpChar(b);
      DumpChar(c);
      DumpChar(d);
    }

    method DumpFront(f: Proto, p: Option<bytes>)
      modifies this
      ensures Wrote(EncFront(f, p, strip))
    {
      hide EncString, EncHeading, EncVector;
      DumpString(if f.source == p || strip then None else f.source);
      DumpHeading(f);
      DumpCode(f.code);
      DumpConstants(f.k);
    }

    /** DumpFunction. */
    method DumpFunction(f: Proto, p: Option<bytes>)
      modifies this
      ensures Wrote(EncFunction(f, p, strip))
      decreases f, 1
    {
      hide EncFront, EncInt, EncDebug, EncFunctions;
      DumpFront(f, p);
      DumpInt(|f.p|);
      DumpFunctions(f);
      DumpDebug(f);
    }

    /** The nested functions of DumpConstants. */
    method DumpFunctions(f: Proto)
      modifies this
      ensures Wrote(EncFunctions(f, 0, strip))
      decreases f, 0
    {
      hide EncFunction;
      ghost var all := EncFunctions(f, 0, strip);
      ghost var done: bytes := [];
      var i := 0;
      while i < |f.p|
        invariant 0 <= i <= |f.p| && Wrote(done) && all == done + EncFunctions(f, i, strip)
      {
        DumpFunction(f.p[i], f.source);
        ghost var e := EncFunction(f.p[i], f.source, strip);
        assert done + (e + EncFunctions(f, i + 1, strip)) == done + e + EncFunctions(f, i + 1, strip);
        done := done + e;
        i := i + 1;
      }
      assert all == done;
    }

    /** luaU_dump: with status 0 the whole chunk has been written. */
    method Dump(f: Proto) returns (result: int)
      requires status == 0 && out == []
      modifies this
      ensures result == status
      ensures result == 0 ==> out == EncChunk(f, strip)
    {
      hide EncFunction;
      DumpBlock(HEADER);
      DumpFunction(f, None);
      result := status;
    }
  }

  // ---------------------------------------------------------------------
  // Writing a chunk and reading it back

  function Joined(pieces: seq<bytes>): bytes { if pieces == [] then [] else pieces[0] + Joined(pieces[1..]) }

  /** A reader that delivers no empty piece delivers everything. */
  lemma {:induction false} AllAvailable(pieces: seq<bytes>)
    requires [] !in pieces
    ensures Available(pieces) == Joined(pieces)
  {
    if pieces != [] {
      assert pieces[0] in pieces && forall b :: b in pieces[1..] ==> b in pieces;
      AllAvailable(pieces[1..]);
    }
  }

  /** A chunk that was dumped without an error, followed by any bytes and cut in
      any way into pieces that are not empty, is loaded: the tree comes back,
      and just the bytes of the chunk are consumed, exactly if all functions
      have a source. */
  method DumpAndUndump(f: Proto, check: Proto -> bool, calls: nat, w: nat -> int, tail: bytes,
                       cut: bytes -> seq<bytes>)
    returns (status: int, r: Loaded<Proto>, rest: bytes)
    requires calls < 200 && Fits(f, 200 - calls)
    requires Checked(check, Rebuilt(f, None, Some(UNKNOWN), false))
    requires forall b :: [] !in cut(b) && Joined(cut(b)) == b
    ensures status == 0 ==> r.Got? && (r == Got(f) && rest == tail <==> Sourced(f))
  {
    hide EncChunk, DecChunk, Fits, Checked, Rebuilt, Sourced;
    var d := new DumpState(false, w);
    status := d.Dump(f);
    var pieces := cut(d.out + tail);
    AllAvailable(pieces);
    var z := new ZIO(pieces);
    var s := new LoadState(z, check, calls);
    r := s.Undump();
    rest := z.Rest();
    if status == 0 { ChunkRoundTrip(check, f, calls, tail); }
  }

  lemma NoneDone<T>(e: T -> bytes, xs: seq<T>)
    ensures EncMany(e, xs[..0]) == []
  {}

  lemma {:induction false} ManySnoc<T>(e: T -> bytes, xs: seq<T>, i: nat)
    requires i < |xs|
    ensures EncMany(e, xs[..i + 1]) == EncMany(e, xs[..i]) + e(xs[i])
    decreases i
  {
    if i == 0 {
      assert xs[..1] == [xs[0]];
    } else {
      ManySnoc(e, xs[1..], i - 1);
      assert xs[..i + 1][1..] == xs[1..][..i] && xs[..i][1..] == xs[1..][..i - 1];
    }
  }

  lemma FourBytes(a: int, b: int, c: int, d: int)
    ensures EncMany(EncByte, [a, b, c, d]) == EncByte(a) + EncByte(b) + EncByte(c) + EncByte(d)
  {
    assert [a, b, c, d][1..] == [b, c, d] && [b, c, d][1..] == [c, d] && [c, d][1..] == [d] && [d][1..] == [];
    assert EncMany(EncByte, [d]) == EncByte(d);
    assert EncMany(EncByte, [c, d]) == EncByte(c) + EncByte(d);
    assert EncMany(EncByte, [b, c, d]) == EncByte(b) + (EncByte(c) + EncByte(d));
  }
}
