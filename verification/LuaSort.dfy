/** table.sort of ltablib.c: quicksort in place, recursive only on the smaller
    half.  Positions count from 0 here and from 1 in the source; the middle of
    a range is the same element. */
module LuaSort {
  import TableSizes

  // ---------------------------------------------------------------------
  // Orders

  /** A valid order function: a strict weak order. */
  ghost predicate StrictWeak<T(!new)>(less: (T, T) -> bool) {
    && (forall x, y :: less(x, y) ==> !less(y, x))
    && (forall x, y, z :: less(x, y) ==> less(x, z) || less(z, y))
  }

  ghost predicate Sorted<T(!new)>(less: (T, T) -> bool, s: seq<T>) {
    forall p, q :: 0 <= p < q < |s| ==> !less(s[q], s[p])
  }

  // ---------------------------------------------------------------------
  // Rearranging s[l..r)

  /** `t` is `s` with the elements from `l` on, before `r`, rearranged. */
  ghost predicate Permuted<T(!new)>(s: seq<T>, t: seq<T>, l: int, r: int)
    requires 0 <= l <= r <= |s|
  {
    && |t| == |s|
    && t[..l] == s[..l] && t[r..] == s[r..]
    && multiset(t[l..r]) == multiset(s[l..r])
  }

  lemma PermutedTwice<T(!new)>(s: seq<T>, t: seq<T>, w: seq<T>, l: int, r: int)
    requires 0 <= l <= r <= |s| && Permuted(s, t, l, r) && Permuted(t, w, l, r)
    ensures Permuted(s, w, l, r)
  {
  }

  /** Rearranging a part rearranges the whole. */
  lemma PermutedWider<T(!new)>(s: seq<T>, t: seq<T>, l: int, r: int, m: int, n: int)
    requires 0 <= l <= m <= n <= r <= |s| && Permuted(s, t, m, n)
    ensures Permuted(s, t, l, r)
  {
    assert s[l..r] == s[..m][l..] + s[m..n] + s[n..][..r - n];
    assert t[l..r] == t[..m][l..] + t[m..n] + t[n..][..r - n];
    assert t[..l] == t[..m][..l] && s[..l] == s[..m][..l];
    assert t[r..] == t[n..][r - n..] && s[r..] == s[n..][r - n..];
  }

  lemma EndsSwapped<T(!new)>(x: T, mid: seq<T>, y: T)
    ensures multiset([x] + mid + [y]) == multiset([y] + mid + [x])
  {
  }

  lemma SwapEnds<T(!new)>(s: seq<T>, i: int, j: int)
    requires 0 <= i < j < |s|
    ensures Permuted(s, s[i := s[j]][j := s[i]], i, j + 1)
  {
    var t := s[i := s[j]][j := s[i]];
    assert s[i..j + 1] == [s[i]] + s[i + 1..j] + [s[j]];
    assert t[i..j + 1] == [s[j]] + s[i + 1..j] + [s[i]];
    EndsSwapped(s[i], s[i + 1..j], s[j]);
  }

  lemma SwapPermutes<T(!new)>(s: seq<T>, i: int, j: int, l: int, r: int)
    requires 0 <= l <= i <= j < r <= |s|
    ensures Permuted(s, s[i := s[j]][j := s[i]], l, r)
  {
    var t := s[i := s[j]][j := s[i]];
    if i < j {
      SwapEnds(s, i, j);
      PermutedWider(s, t, l, r, i, j + 1);
    } else {
      assert t == s;
    }
  }

  /** Each element of a rearranged part was in that part. */
  lemma PermutedFrom<T(!new)>(s: seq<T>, t: seq<T>, l: int, r: int, k: int) returns (j: int)
    requires 0 <= l <= k < r <= |s| && Permuted(s, t, l, r)
    ensures l <= j < r && s[j] == t[k]
  {
    assert t[l..r][k - l] in multiset(t[l..r]);
    assert t[k] in s[l..r];
    var i :| 0 <= i < |s[l..r]| && s[l..r][i] == t[k];
    j := l + i;
  }

  // ---------------------------------------------------------------------
  // Parts in order

  /** No element of s[l..r) is above `x`. */
  ghost predicate AtMost<T(!new)>(less: (T, T) -> bool, s: seq<T>, l: int, r: int, x: T)
    requires 0 <= l && r <= |s|
  {
    forall k :: l <= k < r ==> !less(x, s[k])
  }

  /** No element of s[l..r) is below `x`. */
  ghost predicate AtLeast<T(!new)>(less: (T, T) -> bool, s: seq<T>, l: int, r: int, x: T)
    requires 0 <= l && r <= |s|
  {
    forall k :: l <= k < r ==> !less(s[k], x)
  }

  /** In s[lo..hi), the elements outside s[l..r) are in place, and those inside
      lie between them. */
  ghost predicate Around<T(!new)>(less: (T, T) -> bool, s: seq<T>, lo: int, hi: int, l: int, r: int)
    requires 0 <= lo && hi <= |s|
  {
    forall p, q :: lo <= p < q < hi && !(l <= p && q < r) ==> !less(s[q], s[p])
  }

  lemma AroundKept<T(!new)>(less: (T, T) -> bool, s: seq<T>, t: seq<T>, lo: int, hi: int, l: int, r: int)
    requires 0 <= lo <= l <= r <= hi <= |s| && Permuted(s, t, l, r) && Around(less, s, lo, hi, l, r)
    ensures Around(less, t, lo, hi, l, r)
  {
    forall p, q | lo <= p < q < hi && !(l <= p && q < r) ensures !less(t[q], t[p]) {
      var i, j := p, q;
      if l <= p < r { i := PermutedFrom(s, t, l, r, p); } else { Outside(s, t, l, r, p); }
      if l <= q < r { j := PermutedFrom(s, t, l, r, q); } else { Outside(s, t, l, r, q); }
      assert s[i] == t[p] && s[j] == t[q];
    }
  }

  lemma Outside<T(!new)>(s: seq<T>, t: seq<T>, l: int, r: int, k: int)
    requires 0 <= l <= r <= |s| && Permuted(s, t, l, r) && 0 <= k < |s| && !(l <= k < r)
    ensures t[k] == s[k]
  {
    if k < l {
      assert t[..l][k] == s[..l][k];
    } else {
      assert t[r..][k - r] == s[r..][k - r];
    }
  }

  /** The pivot at `i` splits the part. */
  ghost predicate Split<T(!new)>(less: (T, T) -> bool, s: seq<T>, l: int, i: int, r: int)
    requires 0 <= l <= i < r <= |s|
  {
    AtMost(less, s, l, i, s[i]) && AtLeast(less, s, i, r, s[i])
  }

  /** After a split, each side may be sorted by itself. */
  lemma SplitAround<T(!new)>(less: (T, T) -> bool, s: seq<T>, l: int, i: int, r: int)
    requires 0 <= l <= i < r <= |s| && StrictWeak(less) && Split(less, s, l, i, r)
    ensures forall p, q :: l <= p <= i <= q < r && p < q ==> !less(s[q], s[p])
  {
  }

  lemma SortedHalf<T(!new)>(less: (T, T) -> bool, s: seq<T>, lo: int, hi: int, l: int, i: int, r: int, left: bool)
    requires 0 <= lo <= l <= i < r <= hi <= |s| && StrictWeak(less)
    requires Around(less, s, lo, hi, l, r) && Split(less, s, l, i, r)
    requires Sorted(less, if left then s[l..i] else s[i + 1..r])
    ensures if left then Around(less, s, lo, hi, i + 1, r) else Around(less, s, lo, hi, l, i)
  {
    SplitAround(less, s, l, i, r);
    var m, n := if left then l else i + 1, if left then i else r;
    forall p, q | m <= p < q < n ensures !less(s[q], s[p]) {
      assert s[q] == s[m..n][q - m] && s[p] == s[m..n][p - m];
    }
  }

  lemma SplitKept<T(!new)>(less: (T, T) -> bool, s: seq<T>, t: seq<T>, l: int, i: int, r: int, m: int, n: int)
    requires 0 <= l <= i < r <= |s| && Split(less, s, l, i, r)
    requires (m == l && n == i) || (m == i + 1 && n == r)
    requires Permuted(s, t, m, n)
    ensures Split(less, t, l, i, r)
  {
    Outside(s, t, m, n, i);
    forall k | l <= k < r ensures if k < i then !less(t[i], t[k]) else !less(t[k], t[i]) {
      var j := k;
      if m <= k < n { j := PermutedFrom(s, t, m, n, k); } else { Outside(s, t, m, n, k); }
      assert s[j] == t[k];
    }
  }

  // ---------------------------------------------------------------------
  // The methods

  /** set2 on two positions of a part */
  method Swap<T(!new)>(a: array<T>, i: int, j: int, ghost l: int, ghost r: int)
    requires 0 <= l <= i <= j < r <= a.Length
    modifies a
    ensures a[i] == old(a[j]) && a[j] == old(a[i])
    ensures forall k :: 0 <= k < a.Length && k != i && k != j ==> a[k] == old(a[k])
    ensures Permuted(old(a[..]), a[..], l, r)
  {
    ghost var s := a[..];
    a[i], a[j] := a[j], a[i];
    assert a[..] == s[i := s[j]][j := s[i]];
    SwapPermutes(s, i, j, l, r);
  }

  lemma PermutedRefl<T(!new)>(s: seq<T>, l: int, r: int)
    requires 0 <= l <= r <= |s|
    ensures Permuted(s, s, l, r)
  {
  }

  lemma ThreeInOrder<T(!new)>(less: (T, T) -> bool, x: T, y: T, z: T)
    requires StrictWeak(less)
    ensures less(z, x) ==> !less(x, z)
    ensures !less(z, x) && less(y, x) ==> !less(x, y) && !less(z, y)
    ensures !less(z, x) && !less(y, x) && less(z, y) ==> !less(y, z) && !less(y, x)
  {
  }

  /** Puts a[i], which lies between a[l] and a[u], in order with them. */
  method OrderMiddle<T(!new)>(a: array<T>, less: (T, T) -> bool, l: int, i: int, u: int)
    requires 0 <= l < i < u < a.Length && StrictWeak(less) && !less(a[u], a[l])
    modifies a
    ensures Permuted(old(a[..]), a[..], l, u + 1)
    ensures !less(a[i], a[l]) && !less(a[u], a[i]) && !less(a[u], a[l])
  {
    hide *;
    ThreeInOrder(less, a[l], a[i], a[u]);
    if less(a[i], a[l]) {
      Swap(a, l, i, l, u + 1);
    } else if less(a[u], a[i]) {
      Swap(a, i, u, l, u + 1);
    } else {
      PermutedRefl(a[..], l, u + 1);
    }
  }

  /** Sorts a[l], a[(l + u) / 2] and a[u]; only the outer two if there is no
      element between them. */
  method MedianOfThree<T(!new)>(a: array<T>, less: (T, T) -> bool, l: int, u: int)
    requires 0 <= l < u < a.Length && StrictWeak(less)
    modifies a
    ensures Permuted(old(a[..]), a[..], l, u + 1)
    ensures !less(a[u], a[l])
    ensures u - l > 1 ==> !less(a[(l + u) / 2], a[l]) && !less(a[u], a[(l + u) / 2])
  {
    hide *;
    ghost var s := a[..];
    PermutedRefl(s, l, u + 1);
    ThreeInOrder(less, a[l], a[l], a[u]);
    if less(a[u], a[l]) { Swap(a, l, u, l, u + 1); }
    if u - l == 1 { return; }
    ghost var t := a[..];
    OrderMiddle(a, less, l, (l + u) / 2, u);
    PermutedTwice(s, t, a[..], l, u + 1);
  }

  /** The scan to the right: stops at the pivot in a[u - 1] at the latest, so
      that the source's "invalid order function" is never raised. */
  method ScanRight<T(!new)>(a: array<T>, less: (T, T) -> bool, pivot: T, u: int, i0: int) returns (i: int)
    requires 0 <= i0 < u - 1 && u < a.Length && !less(a[u - 1], pivot)
    ensures i0 < i <= u - 1 && !less(a[i], pivot)
    ensures forall k :: i0 < k < i ==> less(a[k], pivot)
  {
    i := i0 + 1;
    while less(a[i], pivot)
      invariant i0 < i <= u - 1
      invariant forall k :: i0 < k < i ==> less(a[k], pivot)
      decreases u - i
    {
      assert i <= u;
      i := i + 1;
    }
  }

  /** The scan to the left: stops at a[l] at the latest. */
  method ScanLeft<T(!new)>(a: array<T>, less: (T, T) -> bool, pivot: T, l: int, j0: int) returns (j: int)
    requires 0 <= l < j0 <= a.Length && !less(pivot, a[l])
    ensures l <= j < j0 && !less(pivot, a[j])
    ensures forall k :: j < k < j0 ==> less(pivot, a[k])
  {
    j := j0 - 1;
    while less(pivot, a[j])
      invariant l <= j < j0
      invariant forall k :: j < k < j0 ==> less(pivot, a[k])
      decreases j
    {
      assert j >= l;
      j := j - 1;
    }
  }

  /** The loop of the partition has come to `i` and `j`. */
  ghost predicate Parting<T(!new)>(less: (T, T) -> bool, s: seq<T>, l: int, u: int, i: int, j: int, pivot: T) {
    && 0 <= l <= i <= j < u < |s| && i < u - 1
    && s[u - 1] == pivot
    && AtMost(less, s, l, i + 1, pivot) && AtLeast(less, s, j, u + 1, pivot)
  }

  /** The two scans, and what they found. */
  method Scan<T(!new)>(a: array<T>, less: (T, T) -> bool, l: int, u: int, i0: int, j0: int, pivot: T)
    returns (i: int, j: int)
    requires u < a.Length && Parting(less, a[..], l, u, i0, j0, pivot) && StrictWeak(less)
    requires l < j0
    ensures i0 < i <= u - 1 && l <= j < j0
    ensures !less(a[i], pivot) && !less(pivot, a[j])
    ensures AtMost(less, a[..], l, i, pivot) && AtLeast(less, a[..], j + 1, u + 1, pivot)
  {
    i := ScanRight(a, less, pivot, u, i0);
    j := ScanLeft(a, less, pivot, l, j0);
  }

  lemma PartStart<T(!new)>(less: (T, T) -> bool, s: seq<T>, t: seq<T>, l: int, u: int, m: int)
    requires 0 <= l < m <= u - 1 < u < |s| == |t| && StrictWeak(less)
    requires !less(s[m], s[l]) && !less(s[u], s[m])
    requires t[u - 1] == s[m] && t[l] == s[l] && t[u] == s[u]
    ensures Parting(less, t, l, u, l, u - 1, s[m])
  {
  }

  lemma PartStep<T(!new)>(less: (T, T) -> bool, s: seq<T>, t: seq<T>, l: int, u: int, i: int, j: int, pivot: T)
    requires 0 <= l < i <= j < u - 1 < |s| - 1 && |s| == |t|
    requires s[u - 1] == pivot && !less(s[i], pivot) && !less(pivot, s[j])
    requires AtMost(less, s, l, i, pivot) && AtLeast(less, s, j + 1, u + 1, pivot)
    requires t[i] == s[j] && t[j] == s[i] && forall k :: 0 <= k < |s| && k != i && k != j ==> t[k] == s[k]
    ensures Parting(less, t, l, u, i, j, pivot)
  {
  }

  lemma PartEnd<T(!new)>(less: (T, T) -> bool, s: seq<T>, t: seq<T>, l: int, u: int, i: int, j: int, pivot: T)
    requires 0 <= l <= j < i <= u - 1 < |s| - 1 && |s| == |t| && StrictWeak(less)
    requires s[u - 1] == pivot && !less(s[i], pivot)
    requires AtMost(less, s, l, i, pivot) && AtLeast(less, s, j + 1, u + 1, pivot)
    requires t[i] == s[u - 1] && t[u - 1] == s[i]
    requires forall k :: 0 <= k < |s| && k != i && k != u - 1 ==> t[k] == s[k]
    ensures Split(less, t, l, i, u + 1)
  {
  }

  lemma PartRead<T(!new)>(less: (T, T) -> bool, s: seq<T>, l: int, u: int, i: int, j: int, pivot: T)
    requires Parting(less, s, l, u, i, j, pivot)
    ensures 0 <= l <= i <= j < u < |s| && i < u - 1 && s[u - 1] == pivot
  {
  }

  /** One round of the partition's loop; it is the last if the scans have met. */
  method PartRound<T(!new)>(a: array<T>, less: (T, T) -> bool, l: int, u: int, i0: int, j0: int, pivot: T)
    returns (i: int, j: int)
    requires u < a.Length && l < j0 && Parting(less, a[..], l, u, i0, j0, pivot) && StrictWeak(less)
    modifies a
    ensures Permuted(old(a[..]), a[..], l, u + 1)
    ensures i0 < i <= u - 1 && l <= j < j0
    ensures if j < i then !less(a[i], pivot) && AtMost(less, a[..], l, i, pivot) && AtLeast(less, a[..], j + 1, u + 1, pivot)
                          && a[u - 1] == pivot
            else l < j && Parting(less, a[..], l, u, i, j, pivot)
  {
    hide *;
    PartRead(less, a[..], l, u, i0, j0, pivot);
    PermutedRefl(a[..], l, u + 1);
    i, j := Scan(a, less, l, u, i0, j0, pivot);
    if i <= j {
      ghost var t := a[..];
      Swap(a, i, j, l, u + 1);
      PartStep(less, t, a[..], l, u, i, j, pivot);
    }
  }

  /** Swaps the pivot with a[i], where the scans have met. */
  method PivotIn<T(!new)>(a: array<T>, less: (T, T) -> bool, l: int, u: int, i: int, ghost j: int, pivot: T)
    requires 0 <= l <= j < i <= u - 1 < a.Length - 1 && StrictWeak(less)
    requires a[u - 1] == pivot && !less(a[i], pivot)
    requires AtMost(less, a[..], l, i, pivot) && AtLeast(less, a[..], j + 1, u + 1, pivot)
    modifies a
    ensures Split(less, a[..], l, i, u + 1) && Permuted(old(a[..]), a[..], l, u + 1)
  {
    hide *;
    ghost var t := a[..];
    Swap(a, i, u - 1, l, u + 1);
    PartEnd(less, t, a[..], l, u, i, j, pivot);
  }

  /** Moves the pivot out of the way, parts the elements around it, and puts it
      in place. */
  method Partition<T(!new)>(a: array<T>, less: (T, T) -> bool, l: int, u: int) returns (i: int)
    requires 0 <= l && l + 2 < u < a.Length && StrictWeak(less)
    requires !less(a[(l + u) / 2], a[l]) && !less(a[u], a[(l + u) / 2])
    modifies a
    ensures l < i < u && Split(less, a[..], l, i, u + 1)
    ensures Permuted(old(a[..]), a[..], l, u + 1)
  {
    hide *;
    ghost var s := a[..];
    var m := (l + u) / 2;
    var pivot := a[m];
    Swap(a, m, u - 1, l, u + 1);
    PartStart(less, s, a[..], l, u, m);
    i := l;
    var j := u - 1;
    while true
      invariant l <= i <= j < u && i < u - 1 && l < j
      invariant Parting(less, a[..], l, u, i, j, pivot)
      invariant Permuted(s, a[..], l, u + 1)
      decreases j - i
    {
      ghost var t := a[..];
      i, j := PartRound(a, less, l, u, i, j, pivot);
      PermutedTwice(s, t, a[..], l, u + 1);
      if j < i { break; }
    }
    ghost var t := a[..];
    PivotIn(a, less, l, u, i, j, pivot);
    PermutedTwice(s, t, a[..], l, u + 1);
  }

  // ---------------------------------------------------------------------
  // The loop of auxsort

  /** `t` is `s` rearranged between `lo` and `hi`, with only t[l..r) left to be
      sorted. */
  ghost predicate Left<T(!new)>(less: (T, T) -> bool, s: seq<T>, t: seq<T>, lo: int, hi: int, l: int, r: int) {
    0 <= lo <= l <= r <= hi <= |s| && Permuted(s, t, lo, hi) && Around(less, t, lo, hi, l, r)
  }

  lemma LeftStart<T(!new)>(less: (T, T) -> bool, s: seq<T>, lo: int, hi: int)
    requires 0 <= lo <= hi <= |s|
    ensures Left(less, s, s, lo, hi, lo, hi)
  {
  }

  lemma LeftKept<T(!new)>(less: (T, T) -> bool, s: seq<T>, t: seq<T>, w: seq<T>, lo: int, hi: int, l: int, r: int)
    requires Left(less, s, t, lo, hi, l, r) && Permuted(t, w, l, r)
    ensures Left(less, s, w, lo, hi, l, r)
  {
    AroundKept(less, t, w, lo, hi, l, r);
    PermutedWider(t, w, lo, hi, l, r);
    PermutedTwice(s, t, w, lo, hi);
  }

  /** One side of the pivot is sorted: what is left is the other. */
  lemma HalfDone<T(!new)>(less: (T, T) -> bool, s: seq<T>, t: seq<T>, w: seq<T>, lo: int, hi: int,
                          l: int, i: int, r: int, left: bool)
    requires Left(less, s, t, lo, hi, l, r) && l <= i < r && StrictWeak(less) && Split(less, t, l, i, r)
    requires var m, n := if left then l else i + 1, if left then i else r;
      Permuted(t, w, m, n) && Sorted(less, w[m..n])
    ensures if left then Left(less, s, w, lo, hi, i + 1, r) else Left(less, s, w, lo, hi, l, i)
  {
    var m, n := if left then l else i + 1, if left then i else r;
    SplitKept(less, t, w, l, i, r, m, n);
    PermutedWider(t, w, l, r, m, n);
    LeftKept(less, s, t, w, lo, hi, l, r);
    SortedHalf(less, w, lo, hi, l, i, r, left);
  }

  /** At most three elements are left, and they are in order. */
  lemma Finished<T(!new)>(less: (T, T) -> bool, s: seq<T>, t: seq<T>, lo: int, hi: int, l: int, r: int)
    requires Left(less, s, t, lo, hi, l, r) && r - l <= 3
    requires forall p, q :: l <= p < q < r ==> !less(t[q], t[p])
    ensures Permuted(s, t, lo, hi) && Sorted(less, t[lo..hi])
  {
  }

  /** How deep calls on `n` elements nest: floor(log2 n) + 1 at most. */
  predicate Shallow(depth: nat, n: int) {
    depth >= 1 && (depth == 1 || TableSizes.Pow2(depth - 1) <= n)
  }

  lemma OneCall(n: int)
    ensures Shallow(1, n)
  {
  }

  lemma DeeperByOne(depth: nat, m: int, n: int)
    requires Shallow(depth, m) && 2 * m + 1 <= n && n > 3
    ensures Shallow(depth + 1, n)
  {
    if depth == 1 { assert TableSizes.Pow2(1) == 2; }
  }

  lemma ShallowMore(depth: nat, m: int, n: int)
    requires Shallow(depth, m) && m <= n
    ensures Shallow(depth, n)
  {
  }

  /** Sorts a[l..u].  `depth` is how many calls were nested. */
  method AuxSort<T(!new)>(a: array<T>, less: (T, T) -> bool, l0: int, u0: int) returns (ghost depth: nat)
    requires 0 <= l0 <= u0 + 1 <= a.Length && StrictWeak(less)
    modifies a
    ensures Permuted(old(a[..]), a[..], l0, u0 + 1)
    ensures Sorted(less, a[l0..u0 + 1])
    ensures Shallow(depth, u0 - l0 + 1)
    decreases u0 - l0 + 1
  {
    hide *;
    var l, u := l0, u0;
    depth := 1;
    ghost var s := a[..];
    LeftStart(less, s, l0, u0 + 1);
    OneCall(u0 - l0 + 1);
    while l < u
      invariant l0 <= l <= u + 1 <= u0 + 1
      invariant Left(less, s, a[..], l0, u0 + 1, l, u + 1)
      invariant Shallow(depth, u0 - l0 + 1)
      decreases u - l
    {
      ghost var t := a[..];
      MedianOfThree(a, less, l, u);
      LeftKept(less, s, t, a[..], l0, u0 + 1, l, u + 1);
      if u - l <= 2 {
        Finished(less, s, a[..], l0, u0 + 1, l, u + 1);
        return;
      }
      t := a[..];
      var i := Partition(a, less, l, u);
      LeftKept(less, s, t, a[..], l0, u0 + 1, l, u + 1);
      t := a[..];
      ghost var d: nat;
      ghost var n := u - l + 1;
      if i - l < u - i {
        d := AuxSort(a, less, l, i - 1);
        HalfDone(less, s, t, a[..], l0, u0 + 1, l, i, u + 1, true);
        DeeperByOne(d, i - l, n);
        l := i + 1;
      } else {
        d := AuxSort(a, less, i + 1, u);
        HalfDone(less, s, t, a[..], l0, u0 + 1, l, i, u + 1, false);
        DeeperByOne(d, u - i, n);
        u := i - 1;
      }
      ShallowMore(d + 1, n, u0 - l0 + 1);
      if d + 1 > depth { depth := d + 1; }
    }
    Finished(less, s, a[..], l0, u0 + 1, l, u + 1);
  }

  /** table.sort: a sorted rearrangement. */
  method Sort<T(!new)>(a: array<T>, less: (T, T) -> bool) returns (ghost depth: nat)
    requires StrictWeak(less)
    modifies a
    ensures multiset(a[..]) == multiset(old(a[..])) && Sorted(less, a[..])
    ensures Shallow(depth, a.Length)
  {
    ghost var s := a[..];
    depth := AuxSort(a, less, 0, a.Length - 1);
    assert s[0..a.Length] == s && a[0..a.Length] == a[..];
  }
}
