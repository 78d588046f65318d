/**
 `table.sort`: the in-place quicksort, for any strict weak order. Positions count
 from 0 here and from 1 in the table; the middle of a range is the same element.
 */
module Quicksort {
  import opened Numbers

  ghost predicate StrictWeakOrder<T(!new)>(lt: (T, T) -> bool) {
    && (forall x, y :: lt(x, y) ==> !lt(y, x))
    && (forall x, y, z :: lt(x, z) ==> lt(x, y) || lt(y, z))
  }

  /** `x` may stand before `y`. */
  predicate Le<T>(lt: (T, T) -> bool, x: T, y: T) { !lt(y, x) }

  ghost predicate Sorted<T>(lt: (T, T) -> bool, s: seq<T>) {
    forall i, j | 0 <= i < j < |s| :: Le(lt, s[i], s[j])
  }

  /** Positions `[lo..hi]` are sorted, except that two positions inside `[l..u]`
      may be out of order. */
  ghost predicate SortedBut<T>(lt: (T, T) -> bool, s: seq<T>, lo: int, hi: int, l: int, u: int) {
    0 <= lo && hi < |s| &&
    forall i, j | lo <= i < j <= hi && !(l <= i && j <= u) :: Le(lt, s[i], s[j])
  }

  /** `t` rearranges positions `[l..u]` of `s` and leaves the others alone. */
  ghost predicate Rearranged<T(!new)>(s: seq<T>, t: seq<T>, l: int, u: int)
    requires 0 <= l <= u + 1 <= |s|
  {
    && |t| == |s|
    && multiset(t[l..u + 1]) == multiset(s[l..u + 1])
    && forall k | 0 <= k < |s| && !(l <= k <= u) :: t[k] == s[k]
  }

  lemma RearrangedSwap<T(!new)>(s: seq<T>, l: int, u: int, i: int, j: int)
    requires 0 <= l <= i <= u < |s| && l <= j <= u
    ensures Rearranged(s, s[i := s[j]][j := s[i]], l, u)
  {
    var t := s[i := s[j]][j := s[i]];
    var a, b := s[l..u + 1], t[l..u + 1];
    assert b == a[i - l := a[j - l]][j - l := a[i - l]];
  }

  lemma RearrangedElsewhere<T(!new)>(s: seq<T>, t: seq<T>, l: int, u: int)
    requires 0 <= l <= u + 1 <= |s| && Rearranged(s, t, l, u)
    ensures |t| == |s| && forall k | 0 <= k < |s| && !(l <= k <= u) :: t[k] == s[k]
  {
  }

  lemma RearrangedRefl<T(!new)>(s: seq<T>, l: int, u: int)
    requires 0 <= l <= u + 1 <= |s|
    ensures Rearranged(s, s, l, u)
  {
  }

  lemma RearrangedTrans<T(!new)>(s: seq<T>, t: seq<T>, v: seq<T>, l: int, u: int)
    requires 0 <= l <= u + 1 <= |s| && Rearranged(s, t, l, u) && Rearranged(t, v, l, u)
    ensures Rearranged(s, v, l, u)
  {
  }

  /** Rearranging a smaller range rearranges the larger one. */
  lemma RearrangedWider<T(!new)>(s: seq<T>, t: seq<T>, l: int, u: int, l': int, u': int)
    requires 0 <= l <= l' <= u' + 1 <= u + 1 <= |s| && Rearranged(s, t, l', u')
    ensures Rearranged(s, t, l, u)
  {
    assert s[l..u + 1] == s[l..l'] + s[l'..u' + 1] + s[u' + 1..u + 1];
    assert t[l..u + 1] == t[l..l'] + t[l'..u' + 1] + t[u' + 1..u + 1];
    assert s[l..l'] == t[l..l'] && s[u' + 1..u + 1] == t[u' + 1..u + 1];
  }

  /** Every element of a rearranged range was in that range before. */
  lemma RearrangedFrom<T(!new)>(s: seq<T>, t: seq<T>, l: int, u: int, k: int) returns (k': int)
    requires 0 <= l <= k <= u < |s| && Rearranged(s, t, l, u)
    ensures l <= k' <= u && s[k'] == t[k]
  {
    assert t[l..u + 1][k - l] == t[k];
    assert t[k] in multiset(t[l..u + 1]);
    assert t[k] in s[l..u + 1];
    var d :| 0 <= d < u + 1 - l && s[l..u + 1][d] == t[k];
    k' := l + d;
  }

  /** A range that may be out of order inside may be rearranged. */
  lemma SortedButRearranged<T(!new)>(lt: (T, T) -> bool, s: seq<T>, t: seq<T>, lo: int, hi: int, l: int, u: int)
    requires 0 <= lo <= l <= u + 1 <= hi + 1 <= |s| && SortedBut(lt, s, lo, hi, l, u) && Rearranged(s, t, l, u)
    ensures SortedBut(lt, t, lo, hi, l, u)
  {
    forall i, j | lo <= i < j <= hi && !(l <= i && j <= u) ensures Le(lt, t[i], t[j]) {
      if l <= i <= u {
        var i' := RearrangedFrom(s, t, l, u, i);
        assert Le(lt, s[i'], s[j]);
      } else if l <= j <= u {
        var j' := RearrangedFrom(s, t, l, u, j);
        assert Le(lt, s[i], s[j']);
      }
    }
  }

  /** A pivot in its place splits the range in two; once one side is sorted, only
      the other may be out of order. */
  lemma OtherSide<T(!new)>(lt: (T, T) -> bool, s: seq<T>, lo: int, hi: int, l: int, i: int, u: int, left: bool)
    requires StrictWeakOrder(lt) && 0 <= lo <= l <= i <= u <= hi < |s| && SortedBut(lt, s, lo, hi, l, u)
    requires forall k | l <= k < i :: Le(lt, s[k], s[i])
    requires forall k | i < k <= u :: Le(lt, s[i], s[k])
    requires if left then forall p, q | l <= p < q <= i - 1 :: Le(lt, s[p], s[q])
             else forall p, q | i + 1 <= p < q <= u :: Le(lt, s[p], s[q])
    ensures if left then SortedBut(lt, s, lo, hi, i + 1, u) else SortedBut(lt, s, lo, hi, l, i - 1)
  {
    var l', u' := if left then i + 1 else l, if left then u else i - 1;
    forall p, q | lo <= p < q <= hi && !(l' <= p && q <= u') ensures Le(lt, s[p], s[q]) {
      if l <= p && q <= u && p < i && i < q {
        assert Le(lt, s[p], s[i]) && Le(lt, s[i], s[q]);
      }
    }
  }

  lemma LeOf<T(!new)>(lt: (T, T) -> bool, x: T, y: T)
    requires StrictWeakOrder(lt)
    ensures lt(x, y) ==> Le(lt, x, y)
    ensures Le(lt, x, x)
  {
  }

  lemma LeTrans<T(!new)>(lt: (T, T) -> bool, x: T, y: T, z: T)
    requires StrictWeakOrder(lt) && Le(lt, x, y) && Le(lt, y, z)
    ensures Le(lt, x, z)
  {
  }

  // ---------------------------------------------------------------- the table

  /** The list to be sorted, and the positions that were looked at or stored into. */
  class Elements<T(!new)> {
    const a: array<T>
    ghost var touched: set<int>

    constructor (a: array<T>)
      ensures this.a == a && touched == {}
    {
      this.a := a;
      touched := {};
    }

    /** `lua_rawgeti`. */
    method RawGetI(i: int) returns (x: T)
      requires 0 <= i < a.Length
      modifies `touched
      ensures x == a[i] && touched == old(touched) + {i}
    {
      x := a[i];
      touched := touched + {i};
    }

    /** `set2`: two elements that were read go to two positions. */
    method Set2(i: int, x: T, j: int, y: T)
      requires 0 <= i < a.Length && 0 <= j < a.Length
      modifies `touched, a
      ensures a[..] == old(a[..])[i := x][j := y] && touched == old(touched) + {i, j}
    {
      a[i] := x;
      a[j] := y;
      touched := touched + {i, j};
    }
  }

  /** Since `before`, only positions in `[l..u]` were looked at or stored into. */
  ghost predicate Inside(before: set<int>, now: set<int>, l: int, u: int) {
    forall k | k in now && k !in before :: l <= k <= u
  }

  /** Two elements of `[l..u]`, which were read, change places. */
  method Exchange<T(!new)>(t: Elements<T>, i: int, x: T, j: int, y: T, ghost l: int, ghost u: int)
    requires 0 <= l <= i <= u < t.a.Length && l <= j <= u && t.a[j] == x && t.a[i] == y
    modifies t`touched, t.a
    ensures t.a[i] == x && t.a[j] == y
    ensures forall k | 0 <= k < t.a.Length && k != i && k != j :: t.a[k] == old(t.a[k])
    ensures Rearranged(old(t.a[..]), t.a[..], l, u) && Inside(old(t.touched), t.touched, l, u)
  {
    RearrangedSwap(t.a[..], l, u, i, j);
    t.Set2(i, x, j, y);
  }

  /** Puts the first, middle and last element in order. */
  method SortThree<T(!new)>(t: Elements<T>, lt: (T, T) -> bool, l: int, u: int)
    requires StrictWeakOrder(lt) && 0 <= l < u < t.a.Length
    modifies t`touched, t.a
    ensures Rearranged(old(t.a[..]), t.a[..], l, u) && Inside(old(t.touched), t.touched, l, u)
    ensures Le(lt, t.a[l], t.a[u])
    ensures u - l > 1 ==> Le(lt, t.a[l], t.a[(l + u) / 2]) && Le(lt, t.a[(l + u) / 2], t.a[u])
  {
    hide StrictWeakOrder, Rearranged;
    ghost var s := t.a[..];
    RearrangedRefl(s, l, u);
    var x := t.RawGetI(l);
    var y := t.RawGetI(u);
    LeOf(lt, y, x);
    if lt(y, x) {
      Exchange(t, l, y, u, x, l, u);
    }
    if u - l == 1 {
      return;
    }
    var i := (l + u) / 2;
    ghost var v := t.a[..];
    var m := t.RawGetI(i);
    x := t.RawGetI(l);
    LeOf(lt, m, x);
    if lt(m, x) {
      LeTrans(lt, m, x, t.a[u]);
      Exchange(t, i, x, l, m, l, u);
      RearrangedTrans(s, v, t.a[..], l, u);
    } else {
      y := t.RawGetI(u);
      LeOf(lt, y, m);
      if lt(y, m) {
        Exchange(t, i, y, u, m, l, u);
        RearrangedTrans(s, v, t.a[..], l, u);
      }
    }
  }

  /** Repeats `++i` until `a[i] >= p`; the pivot itself stands at `u - 1`. */
  method ScanUp<T(!new)>(t: Elements<T>, lt: (T, T) -> bool, p: T, i0: int, u: int) returns (i: int, x: T)
    requires StrictWeakOrder(lt) && 0 <= i0 < u - 1 < t.a.Length && t.a[u - 1] == p
    modifies t`touched
    ensures i0 < i <= u - 1 && x == t.a[i] && Le(lt, p, x)
    ensures forall k | i0 < k < i :: Le(lt, t.a[k], p)
    ensures Inside(old(t.touched), t.touched, i0 + 1, u - 1)
  {
    i := i0 + 1;
    x := t.RawGetI(i);
    while lt(x, p)
      invariant i0 < i <= u - 1 && x == t.a[i]
      invariant forall k | i0 < k < i :: Le(lt, t.a[k], p)
      invariant Inside(old(t.touched), t.touched, i0 + 1, u - 1)
      decreases u - i
    {
      i := i + 1;
      x := t.RawGetI(i);
    }
  }

  /** Repeats `--j` until `a[j] <= p`; position `l` holds no larger element. */
  method ScanDown<T(!new)>(t: Elements<T>, lt: (T, T) -> bool, p: T, l: int, j0: int) returns (j: int, x: T)
    requires StrictWeakOrder(lt) && 0 <= l < j0 <= t.a.Length && Le(lt, t.a[l], p)
    modifies t`touched
    ensures l <= j < j0 && x == t.a[j] && Le(lt, x, p)
    ensures forall k | j < k < j0 :: Le(lt, p, t.a[k])
    ensures Inside(old(t.touched), t.touched, l, j0 - 1)
  {
    j := j0 - 1;
    x := t.RawGetI(j);
    while lt(p, x)
      invariant l <= j < j0 && x == t.a[j]
      invariant forall k | j < k < j0 :: Le(lt, p, t.a[k])
      invariant Inside(old(t.touched), t.touched, l, j0 - 1)
      decreases j
    {
      j := j - 1;
      x := t.RawGetI(j);
    }
  }

  /** The inner loop: exchanges elements until those before `i` are not above the
      pivot, which stands at `u - 1`, and those from `i` on are not below it. */
  method Split<T(!new)>(t: Elements<T>, lt: (T, T) -> bool, p: T, l: int, u: int) returns (i: int)
    requires StrictWeakOrder(lt) && 0 <= l && l + 2 < u < t.a.Length && t.a[u - 1] == p
    requires Le(lt, t.a[l], p) && Le(lt, p, p) && Le(lt, p, t.a[u])
    modifies t`touched, t.a
    ensures Rearranged(old(t.a[..]), t.a[..], l, u) && Inside(old(t.touched), t.touched, l, u)
    ensures l < i <= u - 1 && t.a[u - 1] == p
    ensures forall k | l <= k < i :: Le(lt, t.a[k], p)
    ensures forall k | i <= k <= u :: Le(lt, p, t.a[k])
  {
    hide StrictWeakOrder, Rearranged;
    ghost var s := t.a[..];
    RearrangedRefl(s, l, u);
    i := l;
    var j := u - 1;
    while true
      invariant l <= i <= j <= u - 1 && (i == j ==> l < i && j < u - 1)
      invariant Rearranged(s, t.a[..], l, u) && t.a[u - 1] == p
      invariant Inside(old(t.touched), t.touched, l, u)
      invariant forall k | l <= k <= i :: Le(lt, t.a[k], p)
      invariant forall k | j <= k <= u :: Le(lt, p, t.a[k])
      decreases j - i + 1
    {
      ghost var v := t.a[..];
      var x, y;
      i, x := ScanUp(t, lt, p, i, u);
      j, y := ScanDown(t, lt, p, l, j);
      if j < i {
        break;
      }
      Exchange(t, i, y, j, x, l, u);
      RearrangedTrans(s, v, t.a[..], l, u);
    }
  }

  /** Moves the pivot, the middle element, to position `i`, with smaller elements
      before it and larger ones after. */
  method Partition<T(!new)>(t: Elements<T>, lt: (T, T) -> bool, l: int, u: int) returns (i: int)
    requires StrictWeakOrder(lt) && 0 <= l && l + 2 < u < t.a.Length
    requires Le(lt, t.a[l], t.a[(l + u) / 2]) && Le(lt, t.a[(l + u) / 2], t.a[u])
    modifies t`touched, t.a
    ensures Rearranged(old(t.a[..]), t.a[..], l, u) && Inside(old(t.touched), t.touched, l, u)
    ensures l < i < u
    ensures forall k | l <= k < i :: Le(lt, t.a[k], t.a[i])
    ensures forall k | i < k <= u :: Le(lt, t.a[i], t.a[k])
  {
    hide StrictWeakOrder, Rearranged;
    ghost var s := t.a[..];
    i := (l + u) / 2;
    var p := t.RawGetI(i);
    var x := t.RawGetI(u - 1);
    LeOf(lt, p, p);
    Exchange(t, i, x, u - 1, p, l, u);
    ghost var s1 := t.a[..];
    i := Split(t, lt, p, l, u);
    ghost var s2 := t.a[..];
    RearrangedTrans(s, s1, s2, l, u);
    p := t.RawGetI(u - 1);
    x := t.RawGetI(i);
    Exchange(t, u - 1, x, i, p, l, u);
    RearrangedTrans(s, s2, t.a[..], l, u);
  }

  /** Sorts positions `[l0..u0]` and touches no others. Only the smaller part is a
      recursive call, so `n` elements never nest more than log2(n + 1) calls. */
  method AuxSort<T(!new)>(t: Elements<T>, lt: (T, T) -> bool, l0: int, u0: int) returns (ghost depth: nat)
    requires StrictWeakOrder(lt) && 0 <= l0 <= u0 + 1 <= t.a.Length
    modifies t`touched, t.a
    ensures Rearranged(old(t.a[..]), t.a[..], l0, u0) && Inside(old(t.touched), t.touched, l0, u0)
    ensures forall i, j | l0 <= i < j <= u0 :: Le(lt, t.a[i], t.a[j])
    ensures Pow2(depth) <= (u0 - l0 + 1) + 1
    decreases u0 - l0 + 1
  {
    hide StrictWeakOrder, Rearranged, SortedBut, Pow2;
    ghost var s := t.a[..];
    var l, u := l0, u0;
    depth := 0;
    StartSort(lt, s, l0, u0);
    while l < u
      invariant l0 <= l <= u + 1 <= u0 + 1
      invariant Rearranged(s, t.a[..], l0, u0) && Inside(old(t.touched), t.touched, l0, u0)
      invariant SortedBut(lt, t.a[..], l0, u0, l, u)
      invariant Pow2(depth) <= (u0 - l0 + 1) + 1
      decreases u - l
    {
      ghost var s1 := t.a[..];
      SortThree(t, lt, l, u);
      AfterStep(lt, s, s1, t.a[..], l0, u0, l, u);
      if u - l == 1 || u - l == 2 {
        SmallSorted(lt, t.a[..], l0, u0, l, u);
        return;
      }
      ghost var s2 := t.a[..];
      var i := Partition(t, lt, l, u);
      AfterStep(lt, s, s2, t.a[..], l0, u0, l, u);
      ghost var s3 := t.a[..];
      ghost var d;
      if i - l < u - i {
        d := AuxSort(t, lt, l, i - 1);
        AfterCall(lt, s, s3, t.a[..], l0, u0, l, i, u, true);
        DeeperBound(d, i - l, u0 - l0 + 1);
        l := i + 1;
      } else {
        d := AuxSort(t, lt, i + 1, u);
        AfterCall(lt, s, s3, t.a[..], l0, u0, l, i, u, false);
        DeeperBound(d, u - i, u0 - l0 + 1);
        u := i - 1;
      }
      if depth < d + 1 {
        depth := d + 1;
      }
    }
    AllSorted(lt, t.a[..], l0, u0, l, u);
  }

  lemma StartSort<T(!new)>(lt: (T, T) -> bool, s: seq<T>, l: int, u: int)
    requires 0 <= l <= u + 1 <= |s|
    ensures Rearranged(s, s, l, u) && SortedBut(lt, s, l, u, l, u) && Pow2(0) == 1
  {
  }

  lemma AfterStep<T(!new)>(lt: (T, T) -> bool, s: seq<T>, t: seq<T>, v: seq<T>, lo: int, hi: int, l: int, u: int)
    requires 0 <= lo <= l <= u + 1 <= hi + 1 <= |s|
    requires |t| == |s| && Rearranged(s, t, lo, hi) && SortedBut(lt, t, lo, hi, l, u) && Rearranged(t, v, l, u)
    ensures Rearranged(s, v, lo, hi) && SortedBut(lt, v, lo, hi, l, u)
  {
    hide Rearranged, SortedBut;
    SortedButRearranged(lt, t, v, lo, hi, l, u);
    RearrangedWider(t, v, lo, hi, l, u);
    RearrangedTrans(s, t, v, lo, hi);
  }

  /** Two or three elements are sorted by the first exchanges already. */
  lemma SmallSorted<T(!new)>(lt: (T, T) -> bool, s: seq<T>, lo: int, hi: int, l: int, u: int)
    requires 0 <= lo <= l < u <= hi < |s| && SortedBut(lt, s, lo, hi, l, u) && u - l <= 2
    requires Le(lt, s[l], s[u])
    requires u - l > 1 ==> Le(lt, s[l], s[(l + u) / 2]) && Le(lt, s[(l + u) / 2], s[u])
    ensures forall i, j | lo <= i < j <= hi :: Le(lt, s[i], s[j])
  {
    assert u - l == 2 ==> l + 1 == (l + u) / 2;
  }

  lemma AllSorted<T(!new)>(lt: (T, T) -> bool, s: seq<T>, lo: int, hi: int, l: int, u: int)
    requires SortedBut(lt, s, lo, hi, l, u) && u <= l
    ensures forall i, j | lo <= i < j <= hi :: Le(lt, s[i], s[j])
  {
  }

  lemma DeeperBound(d: nat, m: nat, n: nat)
    requires Pow2(d) <= m + 1 && 2 * m + 1 <= n
    ensures Pow2(d + 1) <= n + 1
  {
  }

  /** After the recursive call the pivot still splits the range. */
  lemma AfterCall<T(!new)>(lt: (T, T) -> bool, s0: seq<T>, s: seq<T>, t: seq<T>,
                           lo: int, hi: int, l: int, i: int, u: int, left: bool)
    requires StrictWeakOrder(lt) && 0 <= lo <= l < i < u <= hi < |s|
    requires |s0| == |s| && Rearranged(s0, s, lo, hi) && SortedBut(lt, s, lo, hi, l, u)
    requires forall k | l <= k < i :: Le(lt, s[k], s[i])
    requires forall k | i < k <= u :: Le(lt, s[i], s[k])
    requires if left then Rearranged(s, t, l, i - 1) else Rearranged(s, t, i + 1, u)
    requires if left then forall p, q | l <= p < q <= i - 1 :: Le(lt, t[p], t[q])
             else forall p, q | i + 1 <= p < q <= u :: Le(lt, t[p], t[q])
    ensures Rearranged(s0, t, lo, hi)
    ensures if left then SortedBut(lt, t, lo, hi, i + 1, u) else SortedBut(lt, t, lo, hi, l, i - 1)
  {
    hide StrictWeakOrder, SortedBut, Rearranged;
    RearrangedElsewhere(s, t, if left then l else i + 1, if left then i - 1 else u);
    RearrangedWider(s, t, l, u, if left then l else i + 1, if left then i - 1 else u);
    AfterStep(lt, s0, s, t, lo, hi, l, u);
    forall k | l <= k < i ensures Le(lt, t[k], t[i]) {
      if left {
        var k' := RearrangedFrom(s, t, l, i - 1, k);
      }
    }
    forall k | i < k <= u ensures Le(lt, t[i], t[k]) {
      if !left {
        var k' := RearrangedFrom(s, t, i + 1, u, k);
      }
    }
    OtherSide(lt, t, lo, hi, l, i, u, left);
  }

  /** `table.sort` on a whole table. */
  method Sort<T(!new)>(a: array<T>, lt: (T, T) -> bool) returns (ghost depth: nat)
    requires StrictWeakOrder(lt)
    modifies a
    ensures multiset(a[..]) == multiset(old(a[..])) && Sorted(lt, a[..])
    ensures Pow2(depth) <= a.Length + 1
  {
    ghost var s := a[..];
    var t := new Elements(a);
    depth := AuxSort(t, lt, 0, a.Length - 1);
    assert s[0..a.Length] == s && a[..][0..a.Length] == a[..];
  }
}
