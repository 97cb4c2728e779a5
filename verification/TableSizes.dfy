/** How many integer keys there are, and the size of array part they are worth. */
module TableSizes {
  import opened Options
  import opened LuaVM
  import opened TableLinks

  const MAXBITS: nat := 26

  function Pow2(n: nat): (p: nat)
    ensures p >= 1
  {
    if n == 0 then 1 else 2 * Pow2(n - 1)
  }

  const MAXASIZE: nat := Pow2(MAXBITS)

  lemma {:induction false} Pow2Less(m: nat, n: nat)
    requires m < n
    ensures 2 * Pow2(m) <= Pow2(n)
    decreases n
  {
    if m < n - 1 { Pow2Less(m, n - 1); }
  }

  // ---------------------------------------------------------------------
  // luaO_log2

  /** The table of luaO_log2: the number of bits of a byte. */
  const LOG_2: seq<nat> :=
    [0, 1] + seq(2, _ => 2) + seq(4, _ => 3) + seq(8, _ => 4) + seq(16, _ => 5) + seq(32, _ => 6)
    + seq(64, _ => 7) + seq(128, _ => 8)

  lemma ByteLog(x: nat)
    requires 1 <= x < 256
    ensures |LOG_2| == 256 && LOG_2[x] >= 1 && Pow2(LOG_2[x] - 1) <= x < Pow2(LOG_2[x])
  {
    assert Pow2(1) == 2 && Pow2(2) == 4 && Pow2(3) == 8 && Pow2(4) == 16;
    assert Pow2(5) == 32 && Pow2(6) == 64 && Pow2(7) == 128 && Pow2(8) == 256;
  }

  /** The integer part of the logarithm, or -1 of zero. */
  method Log2(x: nat) returns (l: int)
    ensures x == 0 ==> l == -1
    ensures x > 0 ==> l >= 0 && Pow2(l) <= x < Pow2(l + 1)
  {
    l := -1;
    var y: nat := x;
    assert Pow2(0) == 1;
    hide Pow2;
    while y >= 256
      invariant l >= -1
      invariant Shifted(x, y, Pow2(l + 1)) && (if x > 0 then y > 0 else y == 0 && l == -1)
    {
      Pow2Eight(l + 1);
      ShiftByte(x, y, Pow2(l + 1));
      l := l + 8;
      y := y / 256;
    }
    LogOf(x, y, l);
    l := l + LOG_2[y];
  }

  /** `y` is `x` shifted right, so that each unit of it is worth `s`. */
  predicate Shifted(x: nat, y: nat, s: nat) { y * s <= x < (y + 1) * s }

  lemma Pow2Eight(n: nat)
    ensures Pow2(n + 8) == 256 * Pow2(n)
  {
    assert Pow2(n + 2) == 2 * Pow2(n + 1) == 4 * Pow2(n);
    assert Pow2(n + 4) == 2 * Pow2(n + 3) == 4 * Pow2(n + 2);
    assert Pow2(n + 6) == 2 * Pow2(n + 5) == 4 * Pow2(n + 4);
    assert Pow2(n + 8) == 2 * Pow2(n + 7) == 4 * Pow2(n + 6);
  }

  lemma ShiftByte(x: nat, y: nat, s: nat)
    requires y >= 256 && Shifted(x, y, s)
    ensures y / 256 > 0 && Shifted(x, y / 256, 256 * s)
  {
    var z := y / 256;
    assert 256 * z <= y && y + 1 <= 256 * (z + 1);
    MulLe(256 * z, y, s);
    MulLe(y + 1, 256 * (z + 1), s);
    assert (256 * z) * s == z * (256 * s);
    assert (256 * (z + 1)) * s == (z + 1) * (256 * s);
  }

  lemma MulLe(a: nat, b: nat, s: nat)
    requires a <= b
    ensures a * s <= b * s
  {}

  lemma {:induction false} Pow2Add(m: nat, n: nat)
    ensures Pow2(m + n) == Pow2(m) * Pow2(n)
    decreases m
  {
    if m > 0 {
      Pow2Add(m - 1, n);
      assert Pow2(m + n) == 2 * Pow2(m - 1 + n);
      assert Pow2(m) * Pow2(n) == 2 * (Pow2(m - 1) * Pow2(n));
    }
  }

  lemma LogOf(x: nat, y: nat, l: int)
    requires l >= -1 && Shifted(x, y, Pow2(l + 1)) && y < 256
    requires if x > 0 then y > 0 else y == 0 && l == -1
    ensures |LOG_2| == 256
    ensures if x == 0 then l + LOG_2[y] == l && y == 0 && l == -1
            else l + LOG_2[y] >= 0 && Pow2(l + LOG_2[y]) <= x < Pow2(l + LOG_2[y] + 1)
  {
    assert |LOG_2| == 256;
    if x > 0 {
      ByteLog(y);
      LogScaled(x, y, l, LOG_2[y]);
    }
  }

  lemma LogScaled(x: nat, y: nat, l: int, b: nat)
    requires l >= -1 && Shifted(x, y, Pow2(l + 1)) && b >= 1 && Pow2(b - 1) <= y < Pow2(b)
    ensures Pow2(l + b) <= x < Pow2(l + b + 1)
  {
    Pow2Add(b - 1, l + 1);
    Pow2Add(b, l + 1);
    MulLe(Pow2(b - 1), y, Pow2(l + 1));
    MulLe(y + 1, Pow2(b), Pow2(l + 1));
  }

  /** ceillog2: the least exponent of a power that is not below `x`. */
  method CeilLog2(x: nat) returns (e: nat)
    requires x >= 1
    ensures x <= Pow2(e) && Half(e) < x
  {
    var l := Log2(x - 1);
    e := l + 1;
  }

  /** Half of a power of two, rounded down. */
  function Half(e: nat): (h: nat)
    ensures h == Pow2(e) / 2
  {
    if e == 0 then 0 else Pow2(e - 1)
  }

  // ---------------------------------------------------------------------
  // Counting

  /** The keys of `ks` in 1..n. */
  ghost function UpTo(ks: set<int>, n: int): set<int> { set k | k in ks && 1 <= k <= n }

  /** The keys of `ks` in the slice number `e`. */
  ghost function Slice(ks: set<int>, e: nat): set<int> { set k | k in ks && Half(e) < k <= Pow2(e) }

  lemma {:induction false} UpToBound(ks: set<int>, n: nat)
    ensures |UpTo(ks, n)| <= n
    decreases n
  {
    if n == 0 {
      assert UpTo(ks, n) == {};
    } else {
      UpToBound(ks, n - 1);
      assert UpTo(ks, n) == if n in ks then UpTo(ks, n - 1) + {n} else UpTo(ks, n - 1);
    }
  }

  lemma UpToMono(ks: set<int>, m: int, n: int)
    requires m <= n
    ensures |UpTo(ks, m)| <= |UpTo(ks, n)|
  {
    var a, b := UpTo(ks, m), UpTo(ks, n);
    assert a <= b;
    assert b == a + (b - a);
  }

  lemma UpToSlice(ks: set<int>, e: nat)
    ensures |UpTo(ks, Pow2(e))| == |UpTo(ks, Half(e))| + |Slice(ks, e)|
  {
    assert UpTo(ks, Pow2(e)) == UpTo(ks, Half(e)) + Slice(ks, e);
  }

  /** The counts that numusearray, numusehash and countint leave in `nums`. */
  ghost predicate Counted(nums: seq<nat>, ks: set<int>) {
    |nums| == MAXBITS + 1 && forall e :: 0 <= e <= MAXBITS ==> nums[e] == |Slice(ks, e)|
  }

  // ---------------------------------------------------------------------
  // computesizes

  /** More than half of the slots of an array of 2^e would be in use. */
  ghost predicate Worth(ks: set<int>, e: nat) { |UpTo(ks, Pow2(e))| > Pow2(e) / 2 }

  /** `n` is the largest size worth having, among those with an exponent below
      `lim`; 0 if there is none. */
  ghost predicate Optimal(ks: set<int>, n: nat, lim: nat) {
    && (n == 0 || exists e: nat :: e < lim && n == Pow2(e) && Worth(ks, e))
    && forall e: nat :: e < lim && Worth(ks, e) ==> Pow2(e) <= n
  }

  /** computesizes. */
  method ComputeSizes(nums: array<nat>, total: nat, ghost ks: set<int>) returns (na: nat, n: nat)
    requires Counted(nums[..], ks) && total == |UpTo(ks, MAXASIZE)|
    ensures Optimal(ks, n, MAXBITS + 1) && na == |UpTo(ks, n)| && n <= MAXASIZE
  {
    var i, twotoi, a: nat := 0, 1, 0;
    na, n := 0, 0;
    StartOfSizes(ks);
    hide Pow2, Half, UpTo, Slice, Optimal, Worth;
    while twotoi / 2 < total
      invariant i <= MAXBITS + 1 && twotoi == Pow2(i)
      invariant a == |UpTo(ks, Half(i))|
      invariant Optimal(ks, n, i) && na == |UpTo(ks, n)| && n <= MAXASIZE
      decreases MAXBITS + 1 - i
    {
      assert i <= MAXBITS by { InBounds(ks, i, total); }
      assert nums[i] == nums[..][i];
      NextSlice(ks, i);
      ghost var a0, n0 := a, n;
      if nums[i] > 0 {
        a := a + nums[i];
        if a > twotoi / 2 {
          n := twotoi;
          na := a;
        }
      }
      OptimalNext(ks, n0, n, i, a0, a);
      if a == total {
        AllCounted(ks, n, i + 1, a, total);
        return;
      }
      i, twotoi := i + 1, twotoi * 2;
    }
    NoneLeft(ks, n, i, total);
  }

  lemma StartOfSizes(ks: set<int>)
    ensures Pow2(0) == 1 && |UpTo(ks, Half(0))| == 0 == |UpTo(ks, 0)| && Optimal(ks, 0, 0)
  {
    assert UpTo(ks, 0) == {};
  }

  /** The index stays within `nums`. */
  lemma InBounds(ks: set<int>, i: nat, total: nat)
    requires i <= MAXBITS + 1 && Pow2(i) / 2 < total == |UpTo(ks, MAXASIZE)|
    ensures i <= MAXBITS
  {
    UpToBound(ks, MAXASIZE);
    assert Pow2(MAXBITS + 1) == 2 * MAXASIZE;
  }

  lemma NextSlice(ks: set<int>, i: nat)
    ensures |UpTo(ks, Half(i + 1))| == |UpTo(ks, Pow2(i))| == |UpTo(ks, Half(i))| + |Slice(ks, i)|
    ensures Pow2(i + 1) == 2 * Pow2(i)
    ensures i <= MAXBITS ==> Pow2(i) <= MAXASIZE
  {
    UpToSlice(ks, i);
    if i < MAXBITS { Pow2Less(i, MAXBITS); }
  }

  /** An empty slice never makes a size worth having. */
  lemma OptimalNext(ks: set<int>, n0: nat, n: nat, i: nat, a0: nat, a: nat)
    requires Optimal(ks, n0, i) && a0 == |UpTo(ks, Half(i))| && a == |UpTo(ks, Pow2(i))| == a0 + |Slice(ks, i)|
    requires n == if |Slice(ks, i)| > 0 && a > Pow2(i) / 2 then Pow2(i) else n0
    ensures Optimal(ks, n, i + 1)
  {
    if n != n0 {
      OptimalStep(ks, n0, i);
    } else {
      UpToBound(ks, Half(i));
      if Worth(ks, i) { OptimalStep(ks, n0, i); }
    }
  }

  lemma NoneLeft(ks: set<int>, n: nat, i: nat, total: nat)
    requires i <= MAXBITS + 1 && Pow2(i) / 2 >= total == |UpTo(ks, MAXASIZE)| && Optimal(ks, n, i)
    ensures Optimal(ks, n, MAXBITS + 1)
  {
    forall e: nat | i <= e <= MAXBITS ensures !Worth(ks, e) {
      UpToMono(ks, Pow2(e), MAXASIZE) by { if e < MAXBITS { Pow2Less(e, MAXBITS); } }
      if i < e { Pow2Less(i, e); }
    }
    OptimalMore(ks, n, i, MAXBITS + 1);
  }

  lemma OptimalStep(ks: set<int>, n: nat, i: nat)
    requires Optimal(ks, n, i) && Worth(ks, i)
    ensures Optimal(ks, Pow2(i), i + 1)
  {
    forall e: nat | e < i ensures Pow2(e) <= Pow2(i) { Pow2Less(e, i); }
  }

  lemma OptimalMore(ks: set<int>, n: nat, i: nat, lim: nat)
    requires Optimal(ks, n, i) && i <= lim && forall e: nat :: i <= e < lim ==> !Worth(ks, e)
    ensures Optimal(ks, n, lim)
  {}

  /** Once all keys have been counted, no larger size is worth having. */
  lemma AllCounted(ks: set<int>, n: nat, i: nat, a: nat, total: nat)
    requires 1 <= i <= MAXBITS + 1 && a == |UpTo(ks, Half(i))| == total == |UpTo(ks, MAXASIZE)| && Optimal(ks, n, i)
    ensures Optimal(ks, n, MAXBITS + 1)
  {
    UpToBound(ks, Half(i));
    forall e: nat | i <= e <= MAXBITS ensures !Worth(ks, e) {
      UpToMono(ks, Pow2(e), MAXASIZE) by { if e < MAXBITS { Pow2Less(e, MAXBITS); } }
      if i < e { Pow2Less(i, e); }
    }
    OptimalMore(ks, n, i, MAXBITS + 1);
  }

  // ---------------------------------------------------------------------
  // Counting the keys of a table

  /** The keys with a value in the array part, up to index `n`. */
  ghost function ArrKeys(arr: seq<Value>, n: int): set<int> { set k | 1 <= k <= n && InArray(arr, k) }

  predicate InArray(arr: seq<Value>, k: int) { 1 <= k <= |arr| && arr[k - 1] != Nil }

  /** The integer keys with a value in the nodes from `p` on. */
  ghost function IntKeys(t: seq<Node>, p: int): set<int> {
    set i | 0 <= i < |t| && i >= p && t[i].val != Nil && t[i].key.Num? :: t[i].key.n
  }

  /** The nodes with a value, from `p` on. */
  ghost function Used(t: seq<Node>, p: int): set<int> { set i | 0 <= i < |t| && i >= p && t[i].val != Nil }

  lemma ArrKeysStep(arr: seq<Value>, k: int)
    requires 1 <= k <= |arr|
    ensures |ArrKeys(arr, k)| == |ArrKeys(arr, k - 1)| + if arr[k - 1] != Nil then 1 else 0
  {
    assert ArrKeys(arr, k) == if arr[k - 1] != Nil then ArrKeys(arr, k - 1) + {k} else ArrKeys(arr, k - 1);
  }

  /** The slice `e` of the array part has just been counted. */
  lemma ArrSlice(arr: seq<Value>, e: nat, lo: int, hi: int)
    requires lo == (if Half(e) <= |arr| then Half(e) else |arr|) && hi == (if Pow2(e) <= |arr| then Pow2(e) else |arr|)
    ensures |Slice(ArrKeys(arr, |arr|), e)| == |ArrKeys(arr, hi)| - |ArrKeys(arr, lo)|
  {
    assert lo <= hi;
    assert ArrKeys(arr, hi) == ArrKeys(arr, lo) + Slice(ArrKeys(arr, |arr|), e);
  }

  lemma ArrSliceEmpty(arr: seq<Value>, e: nat)
    requires Half(e) >= |arr|
    ensures Slice(ArrKeys(arr, |arr|), e) == {}
  {}

  /** numusearray. */
  method NumUseArray(arr: seq<Value>, nums: array<nat>) returns (ause: nat)
    requires nums.Length == MAXBITS + 1 && (forall e :: 0 <= e <= MAXBITS ==> nums[e] == 0) && |arr| <= MAXASIZE
    modifies nums
    ensures Counted(nums[..], ArrKeys(arr, |arr|)) && ause == |ArrKeys(arr, |arr|)|
  {
    ghost var all := ArrKeys(arr, |arr|);
    ause := 0;
    var i, lg, ttlg: nat := 1, 0, 1;
    assert ArrKeys(arr, 0) == {};
    PowFacts();
    hide Pow2, Half, ArrKeys, Slice;
    while lg <= MAXBITS
      invariant lg <= MAXBITS + 1 && ttlg == Pow2(lg)
      invariant i - 1 == (if Half(lg) <= |arr| then Half(lg) else |arr|) && ause == |ArrKeys(arr, i - 1)|
      invariant forall e :: 0 <= e < lg ==> nums[e] == |Slice(all, e)|
      invariant forall e :: lg <= e <= MAXBITS ==> nums[e] == 0
    {
      var lc, lim := 0, ttlg;
      PowSteps(lg);
      if lim > |arr| {
        lim := |arr|;
        if i > lim {
          EmptySlices(arr, lg);
          break;
        }
      }
      ghost var start, before := i - 1, nums[..];
      while i <= lim
        invariant nums[..] == before
        invariant start < i <= lim + 1 && lc == |ArrKeys(arr, i - 1)| - |ArrKeys(arr, start)| >= 0
      {
        ArrKeysStep(arr, i);
        if arr[i - 1] != Nil { lc := lc + 1; }
        i := i + 1;
      }
      ArrSlice(arr, lg, start, lim);
      assert forall e :: 0 <= e <= MAXBITS ==> nums[e] == before[e];
      nums[lg] := nums[lg] + lc;
      ause := ause + lc;
      lg, ttlg := lg + 1, ttlg * 2;
    }
    if lg == MAXBITS + 1 { assert i - 1 == |arr|; }
  }

  lemma PowFacts()
    ensures Pow2(0) == 1 && Half(0) == 0 && Half(MAXBITS + 1) == MAXASIZE
  {}

  lemma PowSteps(e: nat)
    ensures Pow2(e + 1) == 2 * Pow2(e) && Half(e + 1) == Pow2(e) && Half(e) < Pow2(e)
  {}

  lemma EmptySlices(arr: seq<Value>, lg: nat)
    requires Half(lg) >= |arr|
    ensures forall e: nat :: e >= lg ==> |Slice(ArrKeys(arr, |arr|), e)| == 0
  {
    forall e: nat | e >= lg ensures |Slice(ArrKeys(arr, |arr|), e)| == 0 {
      HalfMono(lg, e);
      ArrSliceEmpty(arr, e);
    }
  }

  lemma HalfMono(m: nat, n: nat)
    requires m <= n
    ensures Half(m) <= Half(n)
  {
    if m < n { Pow2Less(m, n); }
  }

  /** countint: the slice that an integer key falls into counts one more. */
  method CountInt(key: Value, nums: array<nat>, ghost ks: set<int>) returns (c: nat)
    requires Counted(nums[..], ks) && (key.Num? ==> key.n !in ks)
    modifies nums
    ensures Counted(nums[..], if key.Num? then ks + {key.n} else ks)
    ensures c == if key.Num? && 1 <= key.n <= MAXASIZE then 1 else 0
  {
    if key.Num? && 0 < key.n && key.n <= MAXASIZE {
      var e := CeilLog2(key.n);
      SliceOf(key.n, e);
      ghost var before := nums[..];
      nums[e] := nums[e] + 1;
      forall d | 0 <= d <= MAXBITS ensures nums[d] == |Slice(ks + {key.n}, d)| {
        assert before[d] == |Slice(ks, d)|;
        SliceAdd(ks, key.n, d, e);
      }
      c := 1;
    } else {
      c := 0;
      if key.Num? {
        forall d | 0 <= d <= MAXBITS ensures Slice(ks + {key.n}, d) == Slice(ks, d) {
          if d < MAXBITS { Pow2Less(d, MAXBITS); }
        }
      }
    }
  }

  /** The number of the slice of a key is within bounds, and no other. */
  lemma SliceOf(k: nat, e: nat)
    requires 1 <= k <= MAXASIZE && k <= Pow2(e) && Half(e) < k
    ensures e <= MAXBITS
  {
    if e > MAXBITS { HalfMono(MAXBITS + 1, e); }
  }

  lemma SliceAdd(ks: set<int>, k: nat, d: nat, e: nat)
    requires k !in ks && k <= Pow2(e) && Half(e) < k
    ensures |Slice(ks + {k}, d)| == |Slice(ks, d)| + if d == e then 1 else 0
  {
    if d == e {
      assert Slice(ks + {k}, d) == Slice(ks, d) + {k};
    } else {
      if d < e { HalfMono(d + 1, e); } else { HalfMono(e + 1, d); }
      assert Slice(ks + {k}, d) == Slice(ks, d);
    }
  }

  /** numusehash. */
  method NumUseHash(t: seq<Node>, nums: array<nat>, ghost ks: set<int>) returns (totaluse: nat, ause: nat)
    requires Counted(nums[..], ks) && Distinct(t) && forall k :: k in IntKeys(t, 0) ==> k !in ks
    requires forall i :: 0 <= i < |t| && t[i].key == Nil ==> t[i].val == Nil
    modifies nums
    ensures Counted(nums[..], ks + IntKeys(t, 0))
    ensures totaluse == |Used(t, 0)| && ause == |UpTo(IntKeys(t, 0), MAXASIZE)|
  {
    totaluse, ause := 0, 0;
    var i := |t|;
    assert ks + IntKeys(t, |t|) == ks && Used(t, |t|) == {} && UpTo(IntKeys(t, |t|), MAXASIZE) == {};
    hide UpTo, Counted;
    while i > 0
      invariant 0 <= i <= |t| && Counted(nums[..], ks + IntKeys(t, i))
      invariant totaluse == |Used(t, i)| && ause == |UpTo(IntKeys(t, i), MAXASIZE)|
    {
      i := i - 1;
      UsedStep(t, i, ks);
      if t[i].val != Nil {
        var c := CountInt(t[i].key, nums, ks + IntKeys(t, i + 1));
        ause := ause + c;
        totaluse := totaluse + 1;
      }
    }
  }

  lemma UsedStep(t: seq<Node>, i: nat, ks: set<int>)
    requires i < |t| && Distinct(t) && forall k :: k in IntKeys(t, 0) ==> k !in ks
    requires t[i].val != Nil ==> t[i].key != Nil
    ensures var n, isInt := t[i], t[i].val != Nil && t[i].key.Num?;
      && |Used(t, i)| == |Used(t, i + 1)| + (if n.val != Nil then 1 else 0)
      && IntKeys(t, i) == (if isInt then IntKeys(t, i + 1) + {n.key.n} else IntKeys(t, i + 1))
      && ks + IntKeys(t, i) == (if isInt then ks + IntKeys(t, i + 1) + {n.key.n} else ks + IntKeys(t, i + 1))
      && (isInt ==> n.key.n !in ks + IntKeys(t, i + 1))
      && |UpTo(IntKeys(t, i), MAXASIZE)| ==
         |UpTo(IntKeys(t, i + 1), MAXASIZE)| + (if isInt && 1 <= n.key.n <= MAXASIZE then 1 else 0)
  {
    var n, isInt := t[i], t[i].val != Nil && t[i].key.Num?;
    assert Used(t, i) == if n.val != Nil then Used(t, i + 1) + {i as int} else Used(t, i + 1);
    IntKeysStep(t, i);
    hide Used, IntKeys;
    if isInt { UpToAdd(IntKeys(t, i + 1), n.key.n); }
  }

  lemma IntKeysStep(t: seq<Node>, i: nat)
    requires i < |t| && Distinct(t) && (t[i].val != Nil ==> t[i].key != Nil)
    ensures var isInt := t[i].val != Nil && t[i].key.Num?;
      && IntKeys(t, i) == (if isInt then IntKeys(t, i + 1) + {t[i].key.n} else IntKeys(t, i + 1))
      && (isInt ==> t[i].key.n !in IntKeys(t, i + 1) && t[i].key.n in IntKeys(t, 0))
  {}

  lemma UpToAdd(ks: set<int>, k: int)
    requires k !in ks
    ensures |UpTo(ks + {k}, MAXASIZE)| == |UpTo(ks, MAXASIZE)| + (if 1 <= k <= MAXASIZE then 1 else 0)
  {
    var m := MAXASIZE;
    assert UpTo(ks + {k}, m) == if 1 <= k <= m then UpTo(ks, m) + {k} else UpTo(ks, m);
  }
}
