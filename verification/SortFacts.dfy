/** Ordered sequences and their permutations. */
module SortFacts {

  /** A strict weak order, as sorting expects its order function to be. */
  ghost predicate StrictWeak<T(!new)>(lt: (T, T) -> bool) {
    && (forall x :: !lt(x, x))
    && (forall x, y :: lt(x, y) ==> !lt(y, x))
    && (forall x, y, z :: !lt(x, y) && !lt(y, z) ==> !lt(x, z))
  }

  lemma Irreflexive<T(!new)>(lt: (T, T) -> bool, x: T)
    requires StrictWeak(lt)
    ensures !lt(x, x)
  {
  }

  lemma Asymmetric<T(!new)>(lt: (T, T) -> bool, x: T, y: T)
    requires StrictWeak(lt)
    ensures lt(x, y) ==> !lt(y, x)
  {
  }

  lemma Chain<T(!new)>(lt: (T, T) -> bool, x: T, y: T, z: T)
    requires StrictWeak(lt) && !lt(x, y) && !lt(y, z)
    ensures !lt(x, z)
  {
  }

  /** From position `lo` to before `hi` every element is in order with those after it. */
  ghost predicate Sorted<T>(s: seq<T>, lt: (T, T) -> bool, lo: int, hi: int) {
    0 <= lo && hi <= |s| && forall p, q :: lo <= p < q < hi ==> !lt(s[q], s[p])
  }

  /** Sorted, except for pairs of elements from the range from `l` to before `u`. */
  ghost predicate SortedBut<T>(s: seq<T>, lt: (T, T) -> bool, lo: int, hi: int, l: int, u: int) {
    0 <= lo && hi <= |s| && forall p, q :: lo <= p < q < hi && !(l <= p && q < u) ==> !lt(s[q], s[p])
  }

  /** The element at `m` separates those before it from those after it. */
  ghost predicate Split<T>(s: seq<T>, lt: (T, T) -> bool, l: int, u: int, m: int) {
    && 0 <= l <= m < u <= |s|
    && (forall p :: l <= p < m ==> !lt(s[m], s[p]))
    && (forall q :: m < q < u ==> !lt(s[q], s[m]))
  }

  /** The same elements from `lo` to before `hi`, and nothing else changed. */
  ghost predicate Permuted<T>(s: seq<T>, t: seq<T>, lo: int, hi: int) {
    && 0 <= lo <= hi <= |s| == |t|
    && multiset(s[lo..hi]) == multiset(t[lo..hi])
    && (forall k :: 0 <= k < |s| && !(lo <= k < hi) ==> t[k] == s[k])
  }

  function Swapped<T>(s: seq<T>, i: nat, j: nat): seq<T>
    requires i < |s| && j < |s|
  {
    s[i := s[j]][j := s[i]]
  }

  lemma SwappedAt<T>(s: seq<T>, i: nat, j: nat, k: nat)
    requires i < |s| && j < |s| && k < |s| && k != i && k != j
    ensures |Swapped(s, i, j)| == |s| && Swapped(s, i, j)[i] == s[j] && Swapped(s, i, j)[j] == s[i] && Swapped(s, i, j)[k] == s[k]
  {
  }

  lemma SwapPermutes<T(!new)>(s: seq<T>, i: nat, j: nat, lo: nat, hi: nat)
    requires lo <= i < hi <= |s| && lo <= j < hi
    ensures Permuted(s, Swapped(s, i, j), lo, hi)
  {
    var r := s[lo..hi];
    assert Swapped(s, i, j)[lo..hi] == r[i - lo := r[j - lo]][j - lo := r[i - lo]];
  }

  lemma PermutedSelf<T>(s: seq<T>, lo: int, hi: int)
    requires 0 <= lo <= hi <= |s|
    ensures Permuted(s, s, lo, hi)
  {
  }

  lemma PermutedTrans<T>(s: seq<T>, t: seq<T>, r: seq<T>, lo: int, hi: int)
    requires Permuted(s, t, lo, hi) && Permuted(t, r, lo, hi)
    ensures Permuted(s, r, lo, hi)
  {
  }

  /** A permutation of a part is a permutation of the whole. */
  lemma PermutedWiden<T>(s: seq<T>, t: seq<T>, l: int, u: int, lo: int, hi: int)
    requires Permuted(s, t, l, u) && 0 <= lo <= l && u <= hi <= |s|
    ensures Permuted(s, t, lo, hi)
  {
    assert s[lo..hi] == s[lo..l] + s[l..u] + s[u..hi];
    assert t[lo..hi] == t[lo..l] + t[l..u] + t[u..hi];
    assert s[lo..l] == t[lo..l] && s[u..hi] == t[u..hi];
  }

  /** Every element of the permuted range was in the range before. */
  lemma WasThere<T>(s: seq<T>, t: seq<T>, lo: int, hi: int, k: int) returns (j: int)
    requires Permuted(s, t, lo, hi) && lo <= k < hi
    ensures lo <= j < hi && s[j] == t[k]
  {
    assert t[k] == t[lo..hi][k - lo];
    assert t[k] in multiset(t[lo..hi]);
    assert t[k] in s[lo..hi];
    var m :| 0 <= m < hi - lo && s[lo..hi][m] == t[k];
    j := lo + m;
  }

  /** Permuting the unsorted range keeps the rest sorted. */
  lemma ButPermuted<T>(s: seq<T>, t: seq<T>, lt: (T, T) -> bool, lo: int, hi: int, l: int, u: int)
    requires SortedBut(s, lt, lo, hi, l, u) && Permuted(s, t, l, u) && lo <= l && u <= hi
    ensures SortedBut(t, lt, lo, hi, l, u)
  {
    forall p, q | lo <= p < q < hi && !(l <= p && q < u) ensures !lt(t[q], t[p]) {
      var p', q' := p, q;
      if l <= p < u { p' := WasThere(s, t, l, u, p); }
      if l <= q < u { q' := WasThere(s, t, l, u, q); }
    }
  }

  lemma SplitPermuted<T>(s: seq<T>, t: seq<T>, lt: (T, T) -> bool, l: int, u: int, m: int, a: int, b: int)
    requires Split(s, lt, l, u, m) && Permuted(s, t, a, b) && ((a == l && b == m) || (a == m + 1 && b == u))
    ensures Split(t, lt, l, u, m)
  {
    forall p | l <= p < m ensures !lt(t[m], t[p]) { if a <= p < b { var j := WasThere(s, t, a, b, p); } }
    forall q | m < q < u ensures !lt(t[q], t[m]) { if a <= q < b { var j := WasThere(s, t, a, b, q); } }
  }

  /** Once one side of a split range is sorted, only the other side is left. */
  lemma HalfSorted<T(!new)>(s: seq<T>, lt: (T, T) -> bool, lo: int, hi: int, l: int, u: int, m: int)
    requires StrictWeak(lt) && SortedBut(s, lt, lo, hi, l, u) && Split(s, lt, l, u, m)
    ensures Sorted(s, lt, l, m) ==> SortedBut(s, lt, lo, hi, m + 1, u)
    ensures Sorted(s, lt, m + 1, u) ==> SortedBut(s, lt, lo, hi, l, m)
  {
    forall p, q | l <= p < q < u && p <= m <= q ensures !lt(s[q], s[p]) {
      if p < m < q { assert !lt(s[q], s[m]) && !lt(s[m], s[p]); }
    }
  }

  /** Nothing is left to sort. */
  lemma ButDone<T>(s: seq<T>, lt: (T, T) -> bool, lo: int, hi: int, l: int, u: int)
    requires SortedBut(s, lt, lo, hi, l, u) && (u - l <= 1 || Sorted(s, lt, l, u))
    ensures Sorted(s, lt, lo, hi)
  {
  }

  lemma ButStart<T>(s: seq<T>, lt: (T, T) -> bool, lo: int, hi: int)
    requires 0 <= lo && hi <= |s|
    ensures SortedBut(s, lt, lo, hi, lo, hi)
  {
  }

  // ---------------------------------------------------------------- partition

  /** While partitioning: what is up to `i` is not greater than the pivot, and what is from `j`
      on is not less; the pivot is before the last element. */
  ghost predicate Parting<T>(s: seq<T>, lt: (T, T) -> bool, l: int, u: int, i: int, j: int, pivot: T) {
    && 1 <= l <= i <= j <= u - 1 && l + 3 <= u < |s| && s[u - 1] == pivot && (i == l <==> j == u - 1)
    && (forall k :: l <= k <= i ==> !lt(pivot, s[k]))
    && (forall k :: j <= k <= u ==> !lt(s[k], pivot))
  }

  /** From `i0` up to before `i`, not greater than the pivot, which the element at `i` is not less than. */
  ghost predicate ScannedUp<T>(s: seq<T>, lt: (T, T) -> bool, i0: int, i: int, pivot: T) {
    0 <= i0 < i < |s| && !lt(s[i], pivot) && forall k :: i0 < k < i ==> !lt(pivot, s[k])
  }

  ghost predicate ScannedDown<T>(s: seq<T>, lt: (T, T) -> bool, j0: int, j: int, pivot: T) {
    0 <= j < j0 <= |s| && !lt(pivot, s[j]) && forall k :: j < k < j0 ==> !lt(s[k], pivot)
  }

  lemma PartingStart<T(!new)>(s: seq<T>, lt: (T, T) -> bool, l: int, u: int)
    requires StrictWeak(lt) && 1 <= l && l + 3 <= u < |s| && !lt(s[u - 1], s[l]) && !lt(s[u], s[u - 1])
    ensures Parting(s, lt, l, u, l, u - 1, s[u - 1])
  {
    Irreflexive(lt, s[u - 1]);
  }

  lemma PartingStep<T>(s: seq<T>, lt: (T, T) -> bool, l: int, u: int, i0: int, j0: int, pivot: T, i: int, j: int)
    requires Parting(s, lt, l, u, i0, j0, pivot) && ScannedUp(s, lt, i0, i, pivot) && ScannedDown(s, lt, j0, j, pivot)
    requires i0 < i <= u - 1 && l <= j && i <= j
    ensures Parting(Swapped(s, i, j), lt, l, u, i, j, pivot)
  {
  }

  lemma PartingDone<T>(s: seq<T>, lt: (T, T) -> bool, l: int, u: int, i0: int, j0: int, pivot: T, i: int, j: int)
    requires Parting(s, lt, l, u, i0, j0, pivot) && ScannedUp(s, lt, i0, i, pivot) && ScannedDown(s, lt, j0, j, pivot)
    requires i0 < i <= u - 1 && l <= j < i
    ensures Split(Swapped(s, u - 1, i), lt, l, u + 1, i)
  {
  }

  // ---------------------------------------------------------------- steps of the sort

  /** After a permutation of the part that is not sorted yet. */
  lemma Narrowed<T>(s: seq<T>, t: seq<T>, r: seq<T>, lt: (T, T) -> bool, lo: int, hi: int, l: int, u: int)
    requires Permuted(s, t, lo, hi) && SortedBut(t, lt, lo, hi, l, u) && Permuted(t, r, l, u) && lo <= l && u <= hi
    ensures Permuted(s, r, lo, hi) && SortedBut(r, lt, lo, hi, l, u)
  {
    hide Permuted, SortedBut;
    PermutedSize(s, t, lo, hi);
    PermutedWiden(t, r, l, u, lo, hi);
    PermutedTrans(s, t, r, lo, hi);
    ButPermuted(t, r, lt, lo, hi, l, u);
  }

  lemma PermutedSize<T>(s: seq<T>, t: seq<T>, lo: int, hi: int)
    requires Permuted(s, t, lo, hi)
    ensures 0 <= lo <= hi <= |s| == |t|
  {
  }

  lemma SmallSorted<T>(s: seq<T>, lt: (T, T) -> bool, l: int, u: int)
    requires 0 <= l && u <= |s| && (u == l + 2 || u == l + 3) && !lt(s[l + 1], s[l])
    requires u == l + 3 ==> !lt(s[l + 2], s[l + 1]) && !lt(s[l + 2], s[l])
    ensures Sorted(s, lt, l, u)
  {
  }

  lemma LeftDone<T(!new)>(s: seq<T>, t: seq<T>, r: seq<T>, lt: (T, T) -> bool, lo: int, hi: int, l: int, u: int, m: int)
    requires StrictWeak(lt) && Permuted(s, t, lo, hi) && SortedBut(t, lt, lo, hi, l, u) && Split(t, lt, l, u, m) && lo <= l && u <= hi
    requires Permuted(t, r, l, m) && Sorted(r, lt, l, m) && l <= m < u
    ensures Permuted(s, r, lo, hi) && SortedBut(r, lt, lo, hi, m + 1, u)
  {
    hide StrictWeak, Permuted, SortedBut, Split, Sorted;
    PermutedSize(s, t, lo, hi);
    PermutedWiden(t, r, l, m, l, u);
    Narrowed(s, t, r, lt, lo, hi, l, u);
    SplitPermuted(t, r, lt, l, u, m, l, m);
    HalfSorted(r, lt, lo, hi, l, u, m);
  }

  lemma RightDone<T(!new)>(s: seq<T>, t: seq<T>, r: seq<T>, lt: (T, T) -> bool, lo: int, hi: int, l: int, u: int, m: int)
    requires StrictWeak(lt) && Permuted(s, t, lo, hi) && SortedBut(t, lt, lo, hi, l, u) && Split(t, lt, l, u, m) && lo <= l && u <= hi
    requires Permuted(t, r, m + 1, u) && Sorted(r, lt, m + 1, u) && l <= m < u
    ensures Permuted(s, r, lo, hi) && SortedBut(r, lt, lo, hi, l, m)
  {
    hide StrictWeak, Permuted, SortedBut, Split, Sorted;
    PermutedSize(s, t, lo, hi);
    PermutedWiden(t, r, m + 1, u, l, u);
    Narrowed(s, t, r, lt, lo, hi, l, u);
    SplitPermuted(t, r, lt, l, u, m, m + 1, u);
    HalfSorted(r, lt, lo, hi, l, u, m);
  }
}
