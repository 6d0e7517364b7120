/** table.sort: quicksort with the median of three as pivot. */
module Sort {
  import opened Basics
  import opened SortFacts

  /** The list is in `a` from 1 on; `a[0]` is not used. `set2` after reading two elements. */
  method Swap<T>(a: array<T>, i: nat, j: nat)
    requires i < a.Length && j < a.Length
    modifies a
    ensures a[..] == Swapped(old(a[..]), i, j)
  {
    a[i], a[j] := a[j], a[i];
  }

  /** The elements at `l` and `u` are put in order. */
  method OrderEnds<T(!new)>(a: array<T>, lt: (T, T) -> bool, l: nat, u: nat)
    requires StrictWeak(lt) && 1 <= l < u < a.Length
    modifies a
    ensures Permuted(old(a[..]), a[..], l, u + 1) && !lt(a[u], a[l])
  {
    hide StrictWeak, Permuted;
    PermutedSelf(a[..], l, u + 1);
    Asymmetric(lt, a[u], a[l]);
    if lt(a[u], a[l]) {
      SwapPermutes(a[..], l, u, l, u + 1);
      Swap(a, l, u);
    }
  }

  /** With the ends in order, the element at `i` is put between them. */
  method OrderMiddle<T(!new)>(a: array<T>, lt: (T, T) -> bool, l: nat, i: nat, u: nat)
    requires StrictWeak(lt) && 1 <= l < i < u < a.Length && !lt(a[u], a[l])
    modifies a
    ensures Permuted(old(a[..]), a[..], l, u + 1)
    ensures !lt(a[u], a[l]) && !lt(a[i], a[l]) && !lt(a[u], a[i])
  {
    hide StrictWeak, Permuted, Swapped;
    PermutedSelf(a[..], l, u + 1);
    var x, y, z := a[l], a[i], a[u];
    SwappedAt(a[..], i, l, u);
    SwappedAt(a[..], i, u, l);
    Asymmetric(lt, y, x);
    Asymmetric(lt, z, y);
    if lt(y, x) {
      Chain(lt, z, x, y);
      SwapPermutes(a[..], i, l, l, u + 1);
      Swap(a, i, l);
      assert a[l] == a[..][l] == y && a[i] == a[..][i] == x && a[u] == a[..][u] == z;
    } else if lt(z, y) {
      SwapPermutes(a[..], i, u, l, u + 1);
      Swap(a, i, u);
      assert a[l] == a[..][l] == x && a[i] == a[..][i] == z && a[u] == a[..][u] == y;
    }
  }

  /** The first element after `i0` that is not less than the pivot; there is one at `b`. */
  method ScanUp<T(!new)>(a: array<T>, lt: (T, T) -> bool, i0: nat, u: nat, pivot: T, ghost b: nat) returns (i: nat, ok: bool)
    requires StrictWeak(lt) && i0 < b <= u < a.Length && !lt(a[b], pivot)
    ensures ok && i0 < i <= b && ScannedUp(a[..], lt, i0, i, pivot)
  {
    hide StrictWeak;
    i := i0 + 1;
    while lt(a[i], pivot)
      invariant i0 < i <= b && forall k :: i0 < k < i ==> !lt(pivot, a[k])
      decreases b - i
    {
      if i > u {
        return i, false;
      }
      Asymmetric(lt, a[i], pivot);
      i := i + 1;
    }
    ok := true;
  }

  /** The last element before `j0` that is not greater than the pivot; there is one at `b`. */
  method ScanDown<T(!new)>(a: array<T>, lt: (T, T) -> bool, j0: nat, l: nat, pivot: T, ghost b: nat) returns (j: nat, ok: bool)
    requires StrictWeak(lt) && l <= b < j0 <= a.Length && !lt(pivot, a[b])
    ensures ok && b <= j < j0 && ScannedDown(a[..], lt, j0, j, pivot)
  {
    hide StrictWeak;
    j := j0 - 1;
    while lt(pivot, a[j])
      invariant b <= j < j0 && forall k :: j < k < j0 ==> !lt(a[k], pivot)
      decreases j
    {
      if j < l {
        return j, false;
      }
      Asymmetric(lt, pivot, a[j]);
      j := j - 1;
    }
    ok := true;
  }

  /** Where the scans stop at the latest. */
  lemma Bounds<T(!new)>(a: array<T>, lt: (T, T) -> bool, l: nat, u: nat, i: nat, j: nat, pivot: T) returns (up: nat, down: nat)
    requires StrictWeak(lt) && Parting(a[..], lt, l, u, i, j, pivot)
    ensures i < up <= u - 1 && u < a.Length && !lt(a[up], pivot) && l <= down < j && !lt(pivot, a[down])
  {
    hide StrictWeak;
    Irreflexive(lt, pivot);
    up := if i < j then j else u - 1;
    down := if i < j then i else l;
    assert a[up] == a[..][up] && a[down] == a[..][down];
  }

  /** One turn of the loop that partitions. */
  method Turn<T(!new)>(a: array<T>, lt: (T, T) -> bool, l: nat, u: nat, i0: nat, j0: nat, pivot: T)
    returns (i: nat, j: nat, crossed: bool, ok: bool)
    requires StrictWeak(lt) && l < u < a.Length && j0 < u && Parting(a[..], lt, l, u, i0, j0, pivot)
    modifies a
    ensures ok && l < i < u
    ensures crossed ==> a[..] == old(a[..]) && Split(Swapped(a[..], u - 1, i), lt, l, u + 1, i)
    ensures !crossed ==> Parting(a[..], lt, l, u, i, j, pivot) && j < j0 && Permuted(old(a[..]), a[..], l, u + 1)
  {
    hide StrictWeak, Permuted, Parting, ScannedUp, ScannedDown, Split, Swapped;
    ghost var s := a[..];
    ghost var up, down := Bounds(a, lt, l, u, i0, j0, pivot);
    j, crossed := 0, true;
    i, ok := ScanUp(a, lt, i0, u, pivot, up);
    if ok {
      j, ok := ScanDown(a, lt, j0, l, pivot, down);
      if ok {
        crossed := j < i;
        if crossed {
          PartingDone(s, lt, l, u, i0, j0, pivot, i, j);
        } else {
          PartingStep(s, lt, l, u, i0, j0, pivot, i, j);
          SwapPermutes(s, i, j, l, u + 1);
          Swap(a, i, j);
        }
      }
    }
  }

  /** Splits the range at the pivot, which is at `u - 1`. */
  method Partition<T(!new)>(a: array<T>, lt: (T, T) -> bool, l: nat, u: nat) returns (i: nat, ok: bool)
    requires StrictWeak(lt) && 1 <= l && l + 3 <= u < a.Length
    requires !lt(a[u - 1], a[l]) && !lt(a[u], a[u - 1])
    modifies a
    ensures ok && l < i < u && Permuted(old(a[..]), a[..], l, u + 1) && Split(a[..], lt, l, u + 1, i)
  {
    hide StrictWeak, Permuted, Parting, Split, Swapped;
    PermutedSelf(a[..], l, u + 1);
    var pivot := a[u - 1];
    PartingStart(a[..], lt, l, u);
    i := l;
    var j, crossed := u - 1, false;
    while !crossed
      invariant l <= i < u && 0 <= j < u && Permuted(old(a[..]), a[..], l, u + 1)
      invariant if crossed then l < i && Split(Swapped(a[..], u - 1, i), lt, l, u + 1, i) else Parting(a[..], lt, l, u, i, j, pivot)
      decreases !crossed, j
    {
      ghost var s := a[..];
      var j1;
      i, j1, crossed, ok := Turn(a, lt, l, u, i, j, pivot);
      if !ok {
        return;
      }
      if !crossed {
        PermutedTrans(old(a[..]), s, a[..], l, u + 1);
        j := j1;
      }
    }
    SwapPermutes(a[..], u - 1, i, l, u + 1);
    PermutedTrans(old(a[..]), a[..], Swapped(a[..], u - 1, i), l, u + 1);
    Swap(a, u - 1, i);
    ok := true;
  }

  /** The number of binary digits of `n`. */
  function Digits(n: nat): (d: nat)
    ensures n < Pow2(d) && (n > 0 ==> d > 0 && Pow2(d - 1) <= n)
  {
    if n == 0 then 0 else 1 + Digits(n / 2)
  }

  /** The first, the middle and the last element are put in order; with two or three elements
      that is all there is to do. */
  method OrderThree<T(!new)>(a: array<T>, lt: (T, T) -> bool, l: nat, u: nat) returns (done: bool)
    requires StrictWeak(lt) && 1 <= l < u < a.Length
    modifies a
    ensures Permuted(old(a[..]), a[..], l, u + 1)
    ensures done <==> u - l <= 2
    ensures if done then Sorted(a[..], lt, l, u + 1) else !lt(a[(l + u) / 2], a[l]) && !lt(a[u], a[(l + u) / 2])
  {
    hide StrictWeak, Permuted, Sorted;
    ghost var s := a[..];
    OrderEnds(a, lt, l, u);
    if u - l == 1 {
      SmallSorted(a[..], lt, l, u + 1);
      return true;
    }
    ghost var t := a[..];
    OrderMiddle(a, lt, l, (l + u) / 2, u);
    PermutedTrans(s, t, a[..], l, u + 1);
    if u - l == 2 {
      SmallSorted(a[..], lt, l, u + 1);
      return true;
    }
    done := false;
  }

  /** The median of the three becomes the pivot, and goes next to the last element. */
  method PlacePivot<T(!new)>(a: array<T>, lt: (T, T) -> bool, l: nat, u: nat)
    requires 1 <= l && l + 3 <= u < a.Length && !lt(a[(l + u) / 2], a[l]) && !lt(a[u], a[(l + u) / 2])
    modifies a
    ensures Permuted(old(a[..]), a[..], l, u + 1)
    ensures !lt(a[u - 1], a[l]) && !lt(a[u], a[u - 1])
  {
    hide Permuted;
    SwapPermutes(a[..], (l + u) / 2, u - 1, l, u + 1);
    Swap(a, (l + u) / 2, u - 1);
    assert a[l] == a[..][l] && a[u] == a[..][u] && a[u - 1] == a[..][u - 1];
  }

  /** auxsort, up to the recursive call: either the range is sorted (`done`), or it is split at `i`. */
  method Divide<T(!new)>(a: array<T>, lt: (T, T) -> bool, l: nat, u: nat) returns (i: nat, done: bool, ok: bool)
    requires StrictWeak(lt) && 1 <= l < u < a.Length
    modifies a
    ensures ok && Permuted(old(a[..]), a[..], l, u + 1)
    ensures if done then Sorted(a[..], lt, l, u + 1) else l < i < u && Split(a[..], lt, l, u + 1, i)
  {
    hide StrictWeak, Permuted, Sorted, Split, Swapped;
    ghost var s := a[..];
    i, ok := 0, true;
    done := OrderThree(a, lt, l, u);
    if !done {
      ghost var t := a[..];
      PlacePivot(a, lt, l, u);
      PermutedTrans(s, t, a[..], l, u + 1);
      ghost var t1 := a[..];
      i, ok := Partition(a, lt, l, u);
      PermutedTrans(s, t1, a[..], l, u + 1);
    }
  }

  /** auxsort. The recursion is never deeper than `depth`, if there are fewer than `2^depth`
      elements to sort. */
  method AuxSort<T(!new)>(a: array<T>, lt: (T, T) -> bool, l0: nat, u0: nat, ghost depth: nat) returns (ok: bool)
    requires StrictWeak(lt) && 1 <= l0 <= u0 + 1 <= a.Length && u0 + 1 - l0 < Pow2(depth)
    modifies a
    ensures ok && Permuted(old(a[..]), a[..], l0, u0 + 1) && Sorted(a[..], lt, l0, u0 + 1)
    decreases depth
  {
    hide StrictWeak, Permuted, Sorted, SortedBut, Split, Pow2;
    ghost var s := a[..];
    var l, u: int := l0, u0;
    PermutedSelf(s, l0, u0 + 1);
    ButStart(s, lt, l0, u0 + 1);
    while l < u
      invariant l0 <= l <= u + 1 <= u0 + 1 && Permuted(s, a[..], l0, u0 + 1)
      invariant SortedBut(a[..], lt, l0, u0 + 1, l, u + 1)
      decreases u - l
    {
      ghost var t := a[..];
      var i, done;
      i, done, ok := Divide(a, lt, l, u);
      if !ok {
        return;
      }
      Narrowed(s, t, a[..], lt, l0, u0 + 1, l, u + 1);
      if done {
        break;
      }
      ghost var t1 := a[..];
      SmallerHalf(l, u, i, l0, u0, depth);
      // call recursively the smaller half, and go on with the larger one
      if i - l < u - i {
        ok := AuxSort(a, lt, l, i - 1, depth - 1);
        LeftDone(s, t1, a[..], lt, l0, u0 + 1, l, u + 1, i);
        l := i + 1;
      } else {
        ok := AuxSort(a, lt, i + 1, u, depth - 1);
        RightDone(s, t1, a[..], lt, l0, u0 + 1, l, u + 1, i);
        u := i - 1;
      }
    }
    ButDone(a[..], lt, l0, u0 + 1, l, u + 1);
    ok := true;
  }

  /** sort: the list of the elements from 1 to `n`. */
  method SortList<T(!new)>(a: array<T>, lt: (T, T) -> bool) returns (ok: bool)
    requires StrictWeak(lt) && a.Length > 0
    modifies a
    ensures ok && multiset(a[1..]) == multiset(old(a[1..])) && a[0] == old(a[0])
    ensures forall i, j :: 1 <= i < j < a.Length ==> !lt(a[j], a[i])
  {
    hide StrictWeak;
    ghost var s := a[..];
    ok := AuxSort(a, lt, 1, a.Length - 1, Digits(a.Length - 1));  // as deep as the logarithm of the length
    assert a[..][1..a.Length] == a[1..] && s[1..a.Length] == s[1..];
    assert forall k :: 0 <= k < a.Length ==> a[k] == a[..][k];
  }

  /** The smaller of two parts has less than half of the elements. */
  lemma SmallerHalf(l: nat, u: nat, i: nat, l0: nat, u0: nat, depth: nat)
    requires l0 <= l < i < u <= u0 && u0 + 1 - l0 < Pow2(depth)
    ensures depth > 0
    ensures i - l < u - i ==> i - l < Pow2(depth - 1)
    ensures i - l >= u - i ==> u - i < Pow2(depth - 1)
  {
  }
}
