/** Counting keys, and the optimal size of the array part of a table. */
module SizeFacts {
  import opened Basics
  import opened NodeFacts

  const MAXBITS := 26
  const MAXASIZE := 0x400_0000

  /** luaO_log2: -1 for zero. */
  function Log2(x: nat): (l: int)
    ensures l >= -1 && (x == 0 <==> l == -1)
    ensures x > 0 ==> Pow2(l) <= x < Pow2(l + 1)
  {
    if x == 0 then -1 else if x == 1 then 0 else Log2(x / 2) + 1
  }

  /** ceillog2 */
  function CeilLog2(x: nat): (l: nat)
    requires x > 0
    ensures x <= Pow2(l) && (l > 0 ==> Pow2(l - 1) < x)
  {
    Log2(x - 1) + 1
  }

  lemma {:induction false} Pow2Mono(a: nat, b: nat)
    requires a <= b
    ensures Pow2(a) <= Pow2(b)
    decreases b
  {
    if a < b { Pow2Mono(a, b - 1); }
  }

  lemma MaxSize()
    ensures Pow2(MAXBITS) == MAXASIZE
  {
    assert Pow2(4) == 16;
    assert Pow2(8) == 256;
    assert Pow2(12) == 0x1000;
    assert Pow2(16) == 0x1_0000;
    assert Pow2(20) == 0x10_0000;
    assert Pow2(24) == 0x100_0000;
  }

  lemma CeilLog2Below(x: nat, p: nat)
    requires x > 0
    ensures CeilLog2(x) <= p <==> x <= Pow2(p)
  {
    var l := CeilLog2(x);
    if l <= p { Pow2Mono(l, p); } else { Pow2Mono(p, l - 1); }
  }

  // ---------------------------------------------------------------- sets of keys

  /** The integer keys from 1 to `n`. */
  function InRange(keys: set<Value>, n: int): set<Value> {
    set k | k in keys && k.Int? && 1 <= k.n <= n
  }

  /** The integer keys that `countint` counts in `nums[lg]`. */
  function InSlice(keys: set<Value>, lg: nat): set<Value> {
    set k | k in keys && k.Int? && 1 <= k.n <= MAXASIZE && CeilLog2(k.n) == lg
  }

  predicate Candidate(k: Value) { k.Int? && 1 <= k.n <= MAXASIZE }

  predicate Counted(nums: seq<int>, keys: set<Value>) {
    |nums| == MAXBITS + 1 && forall lg :: 0 <= lg <= MAXBITS ==> nums[lg] == |InSlice(keys, lg)|
  }

  lemma NothingCounted(nums: seq<int>)
    requires |nums| == MAXBITS + 1 && forall lg :: 0 <= lg <= MAXBITS ==> nums[lg] == 0
    ensures Counted(nums, {})
  {
    forall lg | 0 <= lg <= MAXBITS ensures InSlice({}, lg) == {} { }
  }

  lemma SliceBound(k: int)
    requires 1 <= k <= MAXASIZE
    ensures CeilLog2(k) <= MAXBITS
  {
    MaxSize();
    CeilLog2Below(k, MAXBITS);
  }

  lemma SliceMore(keys: set<Value>, k: Value, lg: nat)
    requires k !in keys
    ensures |InSlice(keys + {k}, lg)| == |InSlice(keys, lg)| + if Candidate(k) && CeilLog2(k.n) == lg then 1 else 0
  {
    hide CeilLog2;
    if Candidate(k) && CeilLog2(k.n) == lg {
      assert InSlice(keys + {k}, lg) == InSlice(keys, lg) + {k};
    } else {
      assert InSlice(keys + {k}, lg) == InSlice(keys, lg);
    }
  }

  lemma RangeMore(keys: set<Value>, k: Value, n: int)
    requires k !in keys
    ensures |InRange(keys + {k}, n)| == |InRange(keys, n)| + if k.Int? && 1 <= k.n <= n then 1 else 0
  {
    if k.Int? && 1 <= k.n <= n {
      assert InRange(keys + {k}, n) == InRange(keys, n) + {k};
    } else {
      assert InRange(keys + {k}, n) == InRange(keys, n);
    }
  }

  /** One more key. */
  lemma CountedMore(nums: seq<int>, keys: set<Value>, k: Value)
    requires Counted(nums, keys) && k !in keys
    ensures Candidate(k) ==> CeilLog2(k.n) <= MAXBITS && Counted(nums[CeilLog2(k.n) := nums[CeilLog2(k.n)] + 1], keys + {k})
    ensures !Candidate(k) ==> Counted(nums, keys + {k})
    ensures |InRange(keys + {k}, MAXASIZE)| == |InRange(keys, MAXASIZE)| + if Candidate(k) then 1 else 0
  {
    hide CeilLog2, InSlice, InRange;
    if Candidate(k) { SliceBound(k.n); }
    RangeMore(keys, k, MAXASIZE);
    forall lg: nat | lg <= MAXBITS
      ensures |InSlice(keys + {k}, lg)| == |InSlice(keys, lg)| + if Candidate(k) && CeilLog2(k.n) == lg then 1 else 0
    {
      SliceMore(keys, k, lg);
    }
  }

  function Sum(nums: seq<int>, n: nat): int
    requires n <= |nums|
  {
    if n == 0 then 0 else Sum(nums, n - 1) + nums[n - 1]
  }

  lemma SliceOf(k: int, p: nat)
    requires 1 <= k && 0 < p <= MAXBITS
    ensures k <= MAXASIZE && CeilLog2(k) == p <==> Pow2(p - 1) < k <= Pow2(p)
  {
    hide CeilLog2;
    MaxSize();
    Pow2Mono(p, MAXBITS);
    CeilLog2Below(k, p);
    CeilLog2Below(k, p - 1);
  }

  lemma RangeSplit(keys: set<Value>, p: nat)
    requires 0 < p <= MAXBITS
    ensures InRange(keys, Pow2(p)) == InRange(keys, Pow2(p - 1)) + InSlice(keys, p)
    ensures InRange(keys, Pow2(p - 1)) !! InSlice(keys, p)
  {
    hide CeilLog2, Pow2;
    Pow2Mono(p - 1, p);
    forall k | k in keys && k.Int? && k.n >= 1 ensures k.n <= MAXASIZE && CeilLog2(k.n) == p <==> Pow2(p - 1) < k.n <= Pow2(p) {
      SliceOf(k.n, p);
    }
  }

  lemma FirstSlice(keys: set<Value>)
    ensures InRange(keys, 1) == InSlice(keys, 0)
  {
    hide CeilLog2;
    forall k | k in keys && k.Int? && k.n >= 1 ensures k.n <= MAXASIZE && CeilLog2(k.n) == 0 <==> k.n <= 1 { CeilLog2Below(k.n, 0); }
  }

  /** The counts up to slice `p` are the keys from 1 to `2^p`. */
  lemma {:induction false} SumRange(nums: seq<int>, keys: set<Value>, p: nat)
    requires Counted(nums, keys) && p <= MAXBITS
    ensures Sum(nums, p + 1) == |InRange(keys, Pow2(p))|
  {
    hide InRange, InSlice;
    if p == 0 {
      FirstSlice(keys);
      assert Sum(nums, 0) == 0;
    } else {
      SumRange(nums, keys, p - 1);
      RangeSplit(keys, p);
    }
  }

  /** Integer keys from 1 to `n` are at most `n`. */
  lemma {:induction false} RangeSize(keys: set<Value>, n: nat)
    ensures |InRange(keys, n)| <= n
  {
    if n == 0 {
      assert InRange(keys, 0) == {};
    } else {
      RangeSize(keys, n - 1);
      assert InRange(keys, n) <= InRange(keys, n - 1) + {Int(n)};
      SubsetSize(InRange(keys, n), InRange(keys, n - 1) + {Int(n)});
    }
  }

  lemma {:induction false} SubsetSize<T>(a: set<T>, b: set<T>)
    requires a <= b
    ensures |a| <= |b|
  {
    if a != {} {
      var x :| x in a;
      SubsetSize(a - {x}, b - {x});
    }
  }

  lemma SubsetSizeStrict<T>(a: set<T>, b: set<T>, x: T)
    requires a <= b && x in b && x !in a
    ensures |a| < |b|
  {
    SubsetSize(a + {x}, b);
  }

  // ---------------------------------------------------------------- the size of the array part

  /** `n` is 0, or a power of two with more than half of the slots from 1 to `n` in use; and
      there is no larger one. */
  ghost predicate Optimal(keys: set<Value>, n: nat) {
    && (n == 0 || (exists p: nat :: p <= MAXBITS && Pow2(p) == n && 2 * |InRange(keys, Pow2(p))| > Pow2(p)))
    && (forall p: nat :: p <= MAXBITS && 2 * |InRange(keys, Pow2(p))| > Pow2(p) ==> Pow2(p) <= n)
  }

  /** What computesizes has found among the sizes up to `2^(i-1)`. */
  ghost predicate Best(keys: set<Value>, i: nat, n: nat) {
    && (n == 0 || (exists p: nat :: p < i && p <= MAXBITS && Pow2(p) == n && 2 * |InRange(keys, Pow2(p))| > Pow2(p)))
    && (forall p: nat :: p < i && p <= MAXBITS && 2 * |InRange(keys, Pow2(p))| > Pow2(p) ==> Pow2(p) <= n)
  }

  lemma BestNext(keys: set<Value>, i: nat, n: nat)
    requires Best(keys, i, n) && i <= MAXBITS
    ensures 2 * |InRange(keys, Pow2(i))| > Pow2(i) ==> Best(keys, i + 1, Pow2(i))
    ensures 2 * |InRange(keys, Pow2(i))| <= Pow2(i) ==> Best(keys, i + 1, n)
  {
    forall p: nat | p < i ensures Pow2(p) <= Pow2(i) { Pow2Mono(p, i); }
  }

  /** computesizes: `narray` candidate keys, counted in `nums`. */
  method ComputeSizes(nums: array<int>, narray: int, ghost keys: set<Value>) returns (n: nat, na: nat)
    requires nums.Length == MAXBITS + 1 && Counted(nums[..], keys) && narray == |InRange(keys, MAXASIZE)|
    ensures Optimal(keys, n) && na == |InRange(keys, n)| && n / 2 <= na <= n <= MAXASIZE
  {
    hide Counted, InRange, Best, Optimal, Sum, Pow2;
    var i, twotoi, a := 0, 1, 0;
    n, na := 0, 0;
    BestFirst(keys);
    FirstSums(nums[..]);
    while twotoi / 2 < narray
      invariant 0 <= i <= MAXBITS + 1 && nums.Length == MAXBITS + 1 && twotoi == Pow2(i) && a == Sum(nums[..], i)
      invariant narray > 0 ==> i <= MAXBITS && a < narray
      invariant Best(keys, i, n) && na == |InRange(keys, n)| && n / 2 <= na <= n
      decreases MAXBITS + 1 - i
    {
      NextSum(nums[..], keys, i);
      BestNext(keys, i, n);
      if nums[i] > 0 {
        a := a + nums[i];
        if a > twotoi / 2 {
          n := twotoi;
          na := a;
        }
      }
      if a == narray {
        AllCounted(keys, i, n);
        return;
      }
      i, twotoi := i + 1, twotoi * 2;
    }
    BestLast(keys, i, n);
  }

  lemma NextSum(nums: seq<int>, keys: set<Value>, i: nat)
    requires Counted(nums, keys) && i <= MAXBITS
    ensures Sum(nums, i + 1) == Sum(nums, i) + nums[i] == |InRange(keys, Pow2(i))| <= Pow2(i) && nums[i] >= 0
    ensures nums[i] == 0 ==> 2 * |InRange(keys, Pow2(i))| <= Pow2(i)
    ensures i == MAXBITS ==> |InRange(keys, Pow2(i))| == |InRange(keys, MAXASIZE)|
    ensures Pow2(i + 1) == 2 * Pow2(i) && |InRange(keys, Pow2(i))| <= |InRange(keys, MAXASIZE)|
  {
    MaxSize();
    Pow2Mono(i, MAXBITS);
    SubsetSize(InRange(keys, Pow2(i)), InRange(keys, MAXASIZE));
    SumRange(nums, keys, i);
    RangeSize(keys, Pow2(i));
    if nums[i] == 0 && i > 0 {
      SumRange(nums, keys, i - 1);
      RangeSize(keys, Pow2(i - 1));
    }
  }

  lemma BestLast(keys: set<Value>, i: nat, n: nat)
    requires Best(keys, i, n) && Pow2(i) / 2 >= |InRange(keys, MAXASIZE)|
    ensures Optimal(keys, n) && n <= MAXASIZE
  {
    MaxSize();
    forall p: nat | i <= p <= MAXBITS ensures 2 * |InRange(keys, Pow2(p))| <= Pow2(p) {
      Pow2Mono(p, MAXBITS);
      SubsetSize(InRange(keys, Pow2(p)), InRange(keys, MAXASIZE));
      Pow2Mono(i, p);
    }
    forall p: nat | p <= MAXBITS ensures Pow2(p) <= MAXASIZE { Pow2Mono(p, MAXBITS); }
  }

  lemma BestFirst(keys: set<Value>)
    ensures Best(keys, 0, 0) && |InRange(keys, 0)| == 0 && Pow2(0) == 1
  {
    assert InRange(keys, 0) == {};
  }

  lemma FirstSums(nums: seq<int>)
    ensures Sum(nums, 0) == 0
  {
  }

  /** Larger sizes cannot be half full, once every candidate has been counted. */
  lemma AllCounted(keys: set<Value>, i: nat, n: nat)
    requires i <= MAXBITS && |InRange(keys, Pow2(i))| == |InRange(keys, MAXASIZE)| && Best(keys, i + 1, n)
    ensures Optimal(keys, n) && n <= MAXASIZE
  {
    RangeSize(keys, Pow2(i));
    assert Pow2(i + 1) == 2 * Pow2(i);
    BestLast(keys, i + 1, n);
  }
}
