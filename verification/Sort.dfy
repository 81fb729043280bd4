/** In-place sorting of a stretch of an array: Hoare's quicksort over selection sort. */
module Sort {

  /** lt is a strict weak order. */
  ghost predicate StrictWeak<T(!new)>(lt: (T, T) -> bool) {
    && (forall x :: !lt(x, x))
    && (forall x, y, z :: lt(x, y) && lt(y, z) ==> lt(x, z))
    && (forall x, y, z :: lt(x, z) ==> lt(x, y) || lt(y, z))
  }

  lemma Asymmetric<T(!new)>(lt: (T, T) -> bool)
    requires StrictWeak(lt)
    ensures forall x, y :: lt(x, y) ==> !lt(y, x)
    ensures forall x :: !lt(x, x)
  {
  }

  ghost predicate Sorted<T>(s: seq<T>, lt: (T, T) -> bool) {
    forall i, j :: 0 <= i < j < |s| ==> !lt(s[j], s[i])
  }

  /** The array outside [lo, hi) is as in s, and [lo, hi) is permuted. */
  ghost predicate Rearranged<T>(s: seq<T>, s': seq<T>, lo: nat, hi: nat) {
    && lo <= hi <= |s| == |s'| && s'[..lo] == s[..lo] && s'[hi..] == s[hi..]
    && multiset(s'[lo..hi]) == multiset(s[lo..hi])
  }

  lemma RearrangedRefl<T>(s: seq<T>, lo: nat, hi: nat)
    requires lo <= hi <= |s|
    ensures Rearranged(s, s, lo, hi)
  {
  }

  lemma RearrangedIsTransitive<T>(s: seq<T>, s': seq<T>, s'': seq<T>, lo: nat, hi: nat)
    requires Rearranged(s, s', lo, hi) && Rearranged(s', s'', lo, hi)
    ensures Rearranged(s, s'', lo, hi)
  {
  }

  lemma SwapRearranges<T>(s: seq<T>, lo: nat, hi: nat, i: nat, j: nat)
    requires lo <= i < hi <= |s| && lo <= j < hi
    ensures Rearranged(s, s[i := s[j]][j := s[i]], lo, hi)
  {
    var s' := s[i := s[j]][j := s[i]];
    var a, b := i - lo, j - lo;
    assert s'[lo..hi] == s[lo..hi][a := s[lo..hi][b]][b := s[lo..hi][a]];
    assert s'[..lo] == s[..lo] && s'[hi..] == s[hi..];
  }

  /** Rearranging a part rearranges the whole. */
  lemma PartRearranges<T>(s: seq<T>, s': seq<T>, lo: nat, m: nat, n: nat, hi: nat)
    requires lo <= m <= n <= hi <= |s| && Rearranged(s, s', m, n)
    ensures Rearranged(s, s', lo, hi)
  {
    assert s[lo..hi] == s[..m][lo..] + s[m..n] + s[n..][..hi - n];
    assert s'[lo..hi] == s'[..m][lo..] + s'[m..n] + s'[n..][..hi - n];
    assert s'[..lo] == s'[..m][..lo] && s[..lo] == s[..m][..lo];
    assert s'[hi..] == s'[n..][hi - n..] && s[hi..] == s[n..][hi - n..];
  }

  /** A property of all elements of a stretch survives rearranging the stretch. */
  lemma RearrangedKeepsAll<T>(s: seq<T>, s': seq<T>, lo: nat, hi: nat, p: T -> bool)
    requires Rearranged(s, s', lo, hi) && forall k :: lo <= k < hi ==> p(s[k])
    ensures forall k :: lo <= k < hi ==> p(s'[k])
  {
    forall k | lo <= k < hi ensures p(s'[k]) {
      assert s'[lo..hi][k - lo] in multiset(s'[lo..hi]);
      assert s'[k] in s[lo..hi];
    }
  }

  method Swap<T>(a: array<T>, i: nat, j: nat, ghost lo: nat, ghost hi: nat)
    requires lo <= i < hi <= a.Length && lo <= j < hi
    modifies a
    ensures a[..] == old(a[..])[i := old(a[j])][j := old(a[i])] && Rearranged(old(a[..]), a[..], lo, hi)
  {
    SwapRearranges(a[..], lo, hi, i, j);
    ghost var s := a[..];
    a[i], a[j] := a[j], a[i];
    assert a[..] == s[i := s[j]][j := s[i]];
  }

  /** The index of a least element of [i, hi). */
  method FindLeast<T(!new)>(a: array<T>, i: nat, hi: nat, lt: (T, T) -> bool) returns (best: nat)
    requires i < hi <= a.Length && StrictWeak(lt)
    ensures i <= best < hi && forall x :: i <= x < hi ==> !lt(a[x], a[best])
  {
    best := i;
    var j := i + 1;
    while j < hi
      invariant i <= best < j <= hi && forall x :: i <= x < j ==> !lt(a[x], a[best])
    {
      if lt(a[j], a[best]) { best := j; }
      j := j + 1;
    }
  }

  /** Each of the elements before i is least among itself and all later ones. */
  ghost predicate Leading<T>(s: seq<T>, lo: nat, i: nat, hi: nat, lt: (T, T) -> bool) {
    hi <= |s| && forall x, y :: lo <= x < i && x < y < hi ==> !lt(s[y], s[x])
  }

  lemma SwapKeepsLeading<T(!new)>(s: seq<T>, i: nat, best: nat, lo: nat, hi: nat, lt: (T, T) -> bool)
    requires lo <= i <= best < hi && Leading(s, lo, i, hi, lt)
    requires forall x :: i <= x < hi ==> !lt(s[x], s[best])
    ensures Leading(s[i := s[best]][best := s[i]], lo, i + 1, hi, lt)
  {
  }

  lemma LeadingIsSorted<T(!new)>(s: seq<T>, lo: nat, i: nat, hi: nat, lt: (T, T) -> bool)
    requires lo <= hi <= i + 1 && Leading(s, lo, i, hi, lt)
    ensures Sorted(s[lo..hi], lt)
  {
  }

  method SelectionSort<T(!new)>(a: array<T>, lo: nat, hi: nat, lt: (T, T) -> bool)
    requires lo <= hi <= a.Length && StrictWeak(lt)
    modifies a
    ensures Rearranged(old(a[..]), a[..], lo, hi) && Sorted(a[lo..hi], lt)
  {
    RearrangedRefl(a[..], lo, hi);
    var i := lo;
    assert Leading(a[..], lo, i, hi, lt);
    hide StrictWeak, Rearranged, Leading, Sorted;
    while i + 1 < hi
      invariant lo <= i && Rearranged(old(a[..]), a[..], lo, hi) && Leading(a[..], lo, i, hi, lt)
    {
      ghost var s := a[..];
      var best := FindLeast(a, i, hi, lt);
      SwapKeepsLeading(s, i, best, lo, hi, lt);
      Swap(a, i, best, lo, hi);
      RearrangedIsTransitive(old(a[..]), s, a[..], lo, hi);
      i := i + 1;
    }
    LeadingIsSorted(a[..], lo, i, hi, lt);
    assert a[lo..hi] == a[..][lo..hi];
  }

  /** [lo, m) is at most the pivot and [m, hi) at least. */
  ghost predicate Split<T>(s: seq<T>, lo: nat, m: nat, hi: nat, pivot: T, lt: (T, T) -> bool)
    requires hi <= |s|
  {
    && (forall k :: lo <= k < m && k < hi ==> !lt(pivot, s[k]))
    && (forall k :: m <= k < hi && lo <= k ==> !lt(s[k], pivot))
  }

  /** The first index from i on whose element is not below the pivot; stop is one. */
  method ScanUp<T(!new)>(a: array<T>, i0: int, ghost stop: int, pivot: T, lt: (T, T) -> bool) returns (i: int)
    requires 0 <= i0 <= stop < a.Length && !lt(a[stop], pivot)
    ensures i0 <= i <= stop && !lt(a[i], pivot) && forall k :: i0 <= k < i ==> lt(a[k], pivot)
  {
    i := i0;
    while lt(a[i], pivot)
      invariant i0 <= i <= stop && forall k :: i0 <= k < i ==> lt(a[k], pivot)
      decreases stop - i
    {
      i := i + 1;
    }
  }

  method ScanDown<T(!new)>(a: array<T>, j0: int, ghost stop: int, pivot: T, lt: (T, T) -> bool) returns (j: int)
    requires 0 <= stop <= j0 < a.Length && !lt(pivot, a[stop])
    ensures stop <= j <= j0 && !lt(pivot, a[j]) && forall k :: j < k <= j0 ==> lt(pivot, a[k])
  {
    j := j0;
    while lt(pivot, a[j])
      invariant stop <= j <= j0 && forall k :: j < k <= j0 ==> lt(pivot, a[k])
      decreases j
    {
      j := j - 1;
    }
  }

  /** Between swaps: up to i nothing is above the pivot and from j on nothing below; both ends stop the next scans. */
  ghost predicate Parting<T>(s: seq<T>, lo: nat, hi: nat, mid: nat, i: int, j: int, pivot: T, lt: (T, T) -> bool) {
    && lo < mid < hi <= |s|
    && ((i == lo - 1 && j == hi && s[mid] == pivot) || (lo <= i < j < hi && !lt(pivot, s[i]) && !lt(s[j], pivot)))
    && (forall k :: lo <= k <= i ==> !lt(pivot, s[k]))
    && (forall k :: j <= k < hi ==> !lt(s[k], pivot))
  }

  ghost predicate Scanned<T>(s: seq<T>, lo: nat, hi: nat, mid: nat, i0: int, j0: int, i: int, j: int, pivot: T,
                             lt: (T, T) -> bool) {
    && i0 < i <= (if j0 == hi then mid else j0) && (if j0 == hi then mid else i0) <= j < j0 <= hi <= |s|
    && 0 <= i && 0 <= j < |s| && i < |s| && !lt(s[i], pivot) && !lt(pivot, s[j])
    && (forall k :: 0 <= k && i0 < k < i ==> lt(s[k], pivot))
    && (forall k :: 0 <= k && j < k < j0 ==> lt(pivot, s[k]))
  }

  lemma PartingDone<T(!new)>(s: seq<T>, lo: nat, hi: nat, mid: nat, i0: int, j0: int, i: int, j: int, pivot: T,
                             lt: (T, T) -> bool)
    requires StrictWeak(lt) && Parting(s, lo, hi, mid, i0, j0, pivot, lt)
    requires Scanned(s, lo, hi, mid, i0, j0, i, j, pivot, lt) && i >= j
    ensures lo < i < hi && Split(s, lo, i, hi, pivot, lt)
  {
    forall k | lo <= k < i ensures !lt(pivot, s[k]) {
      if i0 < k { assert lt(s[k], pivot); }
    }
    forall k | i <= k < hi ensures !lt(s[k], pivot) {
      if j < k < j0 { assert lt(pivot, s[k]); }
    }
  }

  lemma PartingSwap<T(!new)>(s: seq<T>, lo: nat, hi: nat, mid: nat, i0: int, j0: int, i: int, j: int, pivot: T,
                             lt: (T, T) -> bool)
    requires StrictWeak(lt) && Parting(s, lo, hi, mid, i0, j0, pivot, lt)
    requires Scanned(s, lo, hi, mid, i0, j0, i, j, pivot, lt) && i < j
    ensures lo <= i < j < hi && Parting(s[i := s[j]][j := s[i]], lo, hi, mid, i, j, pivot, lt)
  {
    var s' := s[i := s[j]][j := s[i]];
    forall k | lo <= k <= i ensures !lt(pivot, s'[k]) {
      if i0 < k < i { assert lt(s[k], pivot); }
    }
    forall k | j <= k < hi ensures !lt(s'[k], pivot) {
      if j < k < j0 { assert lt(pivot, s[k]); }
    }
  }

  method Partition<T(!new)>(a: array<T>, lo: nat, hi: nat, lt: (T, T) -> bool) returns (m: nat, ghost pivot: T)
    requires lo + 2 <= hi <= a.Length && StrictWeak(lt)
    modifies a
    ensures Rearranged(old(a[..]), a[..], lo, hi) && lo < m < hi && Split(a[..], lo, m, hi, pivot, lt)
  {
    hide StrictWeak, Rearranged, Split;
    Asymmetric(lt);
    RearrangedRefl(a[..], lo, hi);
    var mid := lo + (hi - lo) / 2;
    var pv := a[mid];
    pivot := pv;
    var i: int, j: int := lo - 1, hi;
    while true
      invariant Rearranged(old(a[..]), a[..], lo, hi)
      invariant Parting(a[..], lo, hi, mid, i, j, pv, lt)
      decreases j - i
    {
      var i0, j0 := i, j;
      ghost var s := a[..];
      i := ScanUp(a, i0 + 1, if j0 == hi then mid else j0, pv, lt);
      j := ScanDown(a, j0 - 1, if j0 == hi then mid else i0, pv, lt);
      assert Scanned(s, lo, hi, mid, i0, j0, i, j, pv, lt);
      if i >= j {
        PartingDone(s, lo, hi, mid, i0, j0, i, j, pv, lt);
        return i, pv;
      }
      PartingSwap(s, lo, hi, mid, i0, j0, i, j, pv, lt);
      Swap(a, i, j, lo, hi);
      RearrangedIsTransitive(old(a[..]), s, a[..], lo, hi);
    }
  }

  /** Two sorted halves, split by the pivot, make a sorted whole. */
  lemma SortedHalves<T(!new)>(s: seq<T>, lo: nat, m: nat, hi: nat, pivot: T, lt: (T, T) -> bool)
    requires lo <= m <= hi <= |s| && StrictWeak(lt) && Split(s, lo, m, hi, pivot, lt)
    requires Sorted(s[lo..m], lt) && Sorted(s[m..hi], lt)
    ensures Sorted(s[lo..hi], lt)
  {
    forall i, j | 0 <= i < j < hi - lo ensures !lt(s[lo..hi][j], s[lo..hi][i]) {
      if j < m - lo {
        assert s[lo..m][i] == s[lo + i] && s[lo..m][j] == s[lo + j];
      } else if m - lo <= i {
        assert s[m..hi][i - (m - lo)] == s[lo + i] && s[m..hi][j - (m - lo)] == s[lo + j];
      }
    }
  }

  /** sort: at most 15 elements by selection, otherwise partition and recurse on both sides of the split. */
  method Sort<T(!new)>(a: array<T>, lo: nat, hi: nat, lt: (T, T) -> bool)
    requires lo <= hi <= a.Length && StrictWeak(lt)
    modifies a
    ensures Rearranged(old(a[..]), a[..], lo, hi) && Sorted(a[lo..hi], lt)
    decreases hi - lo
  {
    if hi - lo <= 15 {
      SelectionSort(a, lo, hi, lt);
    } else {
      var m, pivot := Partition(a, lo, hi, lt);
      ghost var s1 := a[..];
      Sort(a, lo, m, lt);
      ghost var s2 := a[..];
      Sort(a, m, hi, lt);
      RecursionSorts(old(a[..]), s1, s2, a[..], lo, m, hi, pivot, lt);
    }
  }

  lemma RecursionSorts<T(!new)>(s0: seq<T>, s1: seq<T>, s2: seq<T>, s3: seq<T>, lo: nat, m: nat, hi: nat, pivot: T,
                                lt: (T, T) -> bool)
    requires StrictWeak(lt) && Rearranged(s0, s1, lo, hi) && lo <= m <= hi && Split(s1, lo, m, hi, pivot, lt)
    requires Rearranged(s1, s2, lo, m) && Sorted(s2[lo..m], lt)
    requires Rearranged(s2, s3, m, hi) && Sorted(s3[m..hi], lt)
    ensures Rearranged(s0, s3, lo, hi) && Sorted(s3[lo..hi], lt)
  {
    PartRearranges(s1, s2, lo, lo, m, hi);
    PartRearranges(s2, s3, lo, m, hi, hi);
    RearrangedIsTransitive(s1, s2, s3, lo, hi);
    RearrangedIsTransitive(s0, s1, s3, lo, hi);
    RearrangedKeepsAll(s1, s2, lo, m, x => !lt(pivot, x));
    assert s3[lo..m] == s3[..m][lo..] && s2[lo..m] == s2[..m][lo..];
    forall k | m <= k < hi ensures !lt(s2[k], pivot) {
      assert s2[k] == s2[m..][k - m] && s1[k] == s1[m..][k - m];
    }
    RearrangedKeepsAll(s2, s3, m, hi, x => !lt(x, pivot));
    forall k | lo <= k < m ensures !lt(pivot, s3[k]) {
      assert s3[k] == s3[..m][k] && s2[k] == s2[..m][k];
    }
    SortedHalves(s3, lo, m, hi, pivot, lt);
  }
}
