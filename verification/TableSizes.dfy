/**
 How large the array part of a table should be: keys are counted by powers of two,
 and the largest power of two that more than half fills wins.
 */
module TableSizes {
  import opened Numbers

  const MAXBITS: nat := 26
  const MAXASIZE: nat := 0x400_0000

  lemma MaxSize()
    ensures Pow2(MAXBITS) == MAXASIZE
  {
    assert Pow2(8) == 256;
    PowAdd(8, 8);
    PowAdd(16, 8);
    PowAdd(24, 2);
    assert Pow2(2) == 4;
  }

  lemma {:induction false} PowMonotone(a: nat, b: nat)
    requires a <= b
    ensures Pow2(a) <= Pow2(b) && (a < b ==> 2 * Pow2(a) <= Pow2(b))
  {
    if a < b {
      PowMonotone(a, b - 1);
    }
  }

  // ---------------------------------------------------------------- logarithms

  /** The table of `luaO_log2`, by its runs of equal entries. */
  function Log2Table(x: nat): int
    requires x < 256
  {
    if x < 1 then 0
    else if x < 2 then 1
    else if x < 4 then 2
    else if x < 8 then 3
    else if x < 16 then 4
    else if x < 32 then 5
    else if x < 64 then 6
    else if x < 128 then 7
    else 8
  }

  /** `x` is `x0` without its lowest `e` bits. */
  ghost predicate Shifted(x0: nat, x: nat, e: nat) {
    x * Pow2(e) <= x0 < (x + 1) * Pow2(e)
  }

  /** `luaO_log2`: the floor of the binary logarithm, and -1 for 0. */
  method Log2(x0: nat) returns (l: int)
    ensures x0 == 0 ==> l == -1
    ensures x0 > 0 ==> l >= 0 && Pow2(l) <= x0 < Pow2(l + 1)
  {
    hide Pow2, Shifted, Log2Table;
    var x := x0;
    l := -1;
    ShiftedNot(x0);
    while x >= 256
      invariant l >= -1 && Shifted(x0, x, l + 1)
      invariant x0 < 256 ==> l == -1 && x == x0
      invariant x0 >= 256 ==> x > 0
    {
      ShiftedMore(x0, x, l + 1);
      l := l + 8;
      x := x / 256;
    }
    if x0 > 0 {
      ShiftedLog(x0, x, l + 1);
    }
    l := l + Log2Table(x);
  }

  lemma ShiftedNot(x0: nat)
    ensures Shifted(x0, x0, 0) && Log2Table(0) == 0
  {
  }

  lemma ShiftedMore(x0: nat, x: nat, e: nat)
    requires Shifted(x0, x, e) && x >= 256
    ensures Shifted(x0, x / 256, e + 8) && x0 >= 256 && x / 256 > 0
  {
    var q, p := x / 256, Pow2(e);
    PowAdd(e, 8);
    assert Pow2(8) == 256;
    hide Pow2;
    Bound(x0, x, p, q * 256, (q + 1) * 256);
    Bound(x0, x, p, 256, x + 1);
    Regroup(q, p, 256);
    Regroup(q + 1, p, 256);
    assert Pow2(e + 8) == p * 256;
  }

  lemma Regroup(a: int, b: int, c: int)
    ensures a * (b * c) == b * (a * c)
  {
  }

  lemma Bound(x0: nat, x: nat, p: nat, lo: nat, hi: nat)
    requires x * p <= x0 < (x + 1) * p && lo <= x < hi
    ensures p * lo <= x0 < p * hi
    ensures p > 0 ==> lo <= x0
  {
    Scale(lo, x, p);
    Scale(x + 1, hi, p);
    if p > 0 {
      Scale(1, p, lo);
    }
  }

  lemma ShiftedLog(x0: nat, x: nat, e: nat)
    requires Shifted(x0, x, e) && 0 < x < 256
    ensures Log2Table(x) >= 1 && Pow2(e + Log2Table(x) - 1) <= x0 < Pow2(e + Log2Table(x))
  {
    Log2TableIs(x);
    var d := Log2Table(x);
    PowAdd(e, d - 1);
    PowAdd(e, d);
    hide Pow2, Log2Table;
    Bound(x0, x, Pow2(e), Pow2(d - 1), Pow2(d));
  }

  lemma Scale(a: int, b: int, p: nat)
    requires a <= b
    ensures a * p <= b * p
  {
  }

  lemma Log2TableIs(x: nat)
    requires 0 < x < 256
    ensures Log2Table(x) >= 1 && Pow2(Log2Table(x) - 1) <= x < Pow2(Log2Table(x))
  {
    assert Pow2(0) == 1 && Pow2(1) == 2 && Pow2(2) == 4 && Pow2(3) == 8 && Pow2(4) == 16;
    assert Pow2(5) == 32 && Pow2(6) == 64 && Pow2(7) == 128 && Pow2(8) == 256;
  }

  /** `x` lies in (2^(e-1), 2^e], and 1 in the lowest such interval. */
  predicate InSlice(x: int, e: nat) {
    1 <= x <= Pow2(e) && (e > 0 ==> x > Pow2(e - 1))
  }

  /** `ceillog2`. */
  method CeilLog2(x: nat) returns (e: nat)
    requires x >= 1
    ensures InSlice(x, e)
  {
    var l := Log2(x - 1);
    e := l + 1;
  }

  lemma SliceUnique(x: int, d: nat, e: nat)
    requires InSlice(x, d) && InSlice(x, e)
    ensures d == e
  {
    if d < e {
      PowMonotone(d, e - 1);
    } else if e < d {
      PowMonotone(e, d - 1);
    }
  }

  // ---------------------------------------------------------------- counting keys

  ghost function Slice(keys: set<int>, e: nat): set<int> {
    set k | k in keys && InSlice(k, e)
  }

  ghost function UpTo(keys: set<int>, n: nat): set<int> {
    set k | k in keys && 1 <= k <= n
  }

  lemma UpToSlice(keys: set<int>, e: nat)
    ensures e > 0 ==> |UpTo(keys, Pow2(e))| == |UpTo(keys, Pow2(e - 1))| + |Slice(keys, e)|
    ensures e == 0 ==> UpTo(keys, 1) == Slice(keys, 0) && Pow2(0) == 1
  {
    if e > 0 {
      PowMonotone(e - 1, e);
      assert UpTo(keys, Pow2(e)) == UpTo(keys, Pow2(e - 1)) + Slice(keys, e);
    } else {
      assert UpTo(keys, 1) == Slice(keys, 0);
    }
  }

  lemma {:induction false} UpToSize(keys: set<int>, n: nat)
    ensures |UpTo(keys, n)| <= n
  {
    if n == 0 {
      assert UpTo(keys, 0) == {};
    } else {
      UpToSize(keys, n - 1);
      assert UpTo(keys, n) <= UpTo(keys, n - 1) + {n};
      SubsetSize(UpTo(keys, n), UpTo(keys, n - 1) + {n});
    }
  }

  lemma {:induction false} SubsetSize<T>(a: set<T>, b: set<T>)
    requires a <= b
    ensures |a| <= |b| && (|a| == |b| ==> a == b)
  {
    if a != {} {
      var x :| x in a;
      SubsetSize(a - {x}, b - {x});
    }
  }

  /** The counts that `computesizes` is given. */
  ghost predicate Counted(keys: set<int>, nums: seq<nat>) {
    |nums| == MAXBITS + 1 && forall e | 0 <= e <= MAXBITS :: nums[e] == |Slice(keys, e)|
  }

  ghost predicate MoreThanHalf(keys: set<int>, n: nat) {
    |UpTo(keys, n)| > n / 2
  }

  /** `n` is the largest power of two that more than half of 1..n fill, or 0. */
  ghost predicate Optimal(keys: set<int>, n: nat) {
    && (n == 0 || ((exists e: nat :: n == Pow2(e)) && MoreThanHalf(keys, n)))
    && forall e: nat :: MoreThanHalf(keys, Pow2(e)) ==> Pow2(e) <= n
  }

  lemma OptimalUnique(keys: set<int>, n: nat, m: nat)
    requires Optimal(keys, n) && Optimal(keys, m)
    ensures n == m
  {
    if n > 0 {
      var e: nat :| n == Pow2(e);
    }
    if m > 0 {
      var e: nat :| m == Pow2(e);
    }
  }

  ghost predicate OptimalBelow(keys: set<int>, n: nat, e: nat) {
    && (n == 0 || ((exists d: nat :: d < e && n == Pow2(d)) && MoreThanHalf(keys, n)))
    && forall d: nat :: d < e && MoreThanHalf(keys, Pow2(d)) ==> Pow2(d) <= n
  }

  lemma KeysBelow(keys: set<int>)
    requires forall k | k in keys :: 1 <= k <= MAXASIZE
    ensures |keys| <= MAXASIZE
  {
    assert UpTo(keys, MAXASIZE) == keys;
    UpToSize(keys, MAXASIZE);
  }

  lemma StartSizes(keys: set<int>)
    ensures OptimalBelow(keys, 0, 0) && |UpTo(keys, 0)| == 0
  {
    UpToSize(keys, 0);
  }

  /** An empty slice can not make a larger size worthwhile. */
  lemma NoneInSlice(keys: set<int>, i: nat)
    ensures |Slice(keys, i)| == 0 ==> !MoreThanHalf(keys, Pow2(i))
  {
    UpToSlice(keys, i);
    if i > 0 {
      UpToSize(keys, Pow2(i - 1));
    }
  }

  lemma NextSize(keys: set<int>, n: nat, i: nat)
    requires OptimalBelow(keys, n, i)
    ensures OptimalBelow(keys, if MoreThanHalf(keys, Pow2(i)) then Pow2(i) else n, i + 1)
  {
    hide MoreThanHalf;
    forall d: nat | d < i ensures Pow2(d) <= Pow2(i) {
      PowMonotone(d, i);
    }
  }

  /** Once half a power of two is as many as there are keys, no larger one is worth it. */
  lemma NoneLarger(keys: set<int>, n: nat, i: nat)
    requires OptimalBelow(keys, n, i) && Pow2(i) / 2 >= |keys|
    ensures Optimal(keys, n)
  {
    forall e: nat | MoreThanHalf(keys, Pow2(e)) ensures Pow2(e) <= n {
      if e >= i {
        SubsetSize(UpTo(keys, Pow2(e)), keys);
        PowMonotone(i, e);
        assert false;
      }
    }
  }

  lemma AllCounted(keys: set<int>, n: nat, i: nat)
    requires OptimalBelow(keys, n, i + 1) && |UpTo(keys, Pow2(i))| == |keys|
    ensures Optimal(keys, n)
  {
    UpToSize(keys, Pow2(i));
    NoneLarger(keys, n, i + 1);
  }

  lemma SizesFit(keys: set<int>, n: nat)
    requires Optimal(keys, n)
    ensures n / 2 <= |UpTo(keys, n)| <= n
  {
    UpToSize(keys, n);
  }

  /** `computesizes`: the size, and how many keys it takes in. */
  method ComputeSizes(ghost keys: set<int>, nums: array<nat>, narray: nat) returns (na: nat, n: nat)
    requires forall k | k in keys :: 1 <= k <= MAXASIZE
    requires Counted(keys, nums[..]) && narray == |keys|
    ensures Optimal(keys, n) && na == |UpTo(keys, n)| && n / 2 <= na <= n
    ensures n <= MAXASIZE
  {
    hide Slice, UpTo, Optimal, OptimalBelow, InSlice;
    var a, i, twotoi := 0, 0, 1;
    na, n := 0, 0;
    MaxSize();
    KeysBelow(keys);
    StartSizes(keys);
    while twotoi / 2 < narray
      invariant twotoi == Pow2(i) && 0 <= i <= MAXBITS + 1
      invariant a == if i == 0 then 0 else |UpTo(keys, Pow2(i - 1))|
      invariant OptimalBelow(keys, n, i) && na == |UpTo(keys, n)| && n <= MAXASIZE
      decreases MAXBITS + 1 - i
    {
      UpToSlice(keys, i);
      NoneInSlice(keys, i);
      NextSize(keys, n, i);
      PowMonotone(i, MAXBITS);
      if nums[i] > 0 {
        a := a + nums[i];
        if a > twotoi / 2 {
          n := twotoi;
          na := a;
        }
      }
      if a == narray {
        AllCounted(keys, n, i);
        SizesFit(keys, n);
        return;
      }
      i := i + 1;
      twotoi := twotoi * 2;
    }
    NoneLarger(keys, n, i);
    SizesFit(keys, n);
  }
}
