/**
 The order in which the writer emits keys: `sortCmp`, the comparison of numbers and
 strings under it, and the one sorted list it allows.
 */
module KeyOrder {
  import opened Bytes
  import opened Numbers
  import opened LuaValue
  import Quicksort

  // ---------------------------------------------------------------- strings

  /** Byte-wise lexicographic order; a proper prefix is smaller. */
  predicate LexLess(l: seq<byte>, r: seq<byte>) {
    if r == [] then false
    else if l == [] then true
    else if l[0] != r[0] then l[0] < r[0]
    else LexLess(l[1..], r[1..])
  }

  /** The length of the C string that starts at `s`. */
  function StrLen(s: seq<byte>): (n: nat)
    ensures n <= |s| && (n < |s| ==> s[n] == 0)
    ensures forall i | 0 <= i < n :: s[i] != 0
  {
    if s == [] || s[0] == 0 then 0 else 1 + StrLen(s[1..])
  }

  /** `strcoll` of the C locale: compares up to the first zero byte. */
  function StrColl(l: seq<byte>, r: seq<byte>): int {
    var a := if l == [] then 0 else l[0];
    var b := if r == [] then 0 else r[0];
    if a != b then a - b
    else if a == 0 then 0
    else StrColl(l[1..], r[1..])
  }

  lemma {:induction false} LexPrefix(p: seq<byte>, l: seq<byte>, r: seq<byte>)
    ensures LexLess(p + l, p + r) <==> LexLess(l, r)
  {
    if p == [] {
      assert p + l == l && p + r == r;
    } else {
      assert (p + l)[1..] == p[1..] + l && (p + r)[1..] == p[1..] + r;
      LexPrefix(p[1..], l, r);
    }
  }

  /** C strings that differ order the whole strings; C strings that agree have the
      same length and the same bytes. */
  lemma {:induction false} StrCollOrders(l: seq<byte>, r: seq<byte>)
    ensures StrColl(l, r) < 0 ==> LexLess(l, r)
    ensures StrColl(l, r) > 0 ==> LexLess(r, l)
    ensures StrColl(l, r) == 0 ==> StrLen(l) == StrLen(r) && l[..StrLen(l)] == r[..StrLen(r)]
  {
    var a := if l == [] then 0 else l[0];
    var b := if r == [] then 0 else r[0];
    if a == b && a != 0 {
      StrCollOrders(l[1..], r[1..]);
      if StrColl(l, r) == 0 {
        var n := StrLen(l[1..]);
        assert l[..n + 1] == [a] + l[1..][..n] && r[..n + 1] == [b] + r[1..][..n];
      }
    }
  }

  /** `l_strcmp`: compares chunk by chunk, past the zero bytes. */
  method LStrCmp(ls: seq<byte>, rs: seq<byte>) returns (c: int)
    ensures c < 0 <==> LexLess(ls, rs)
    ensures c > 0 <==> LexLess(rs, ls)
    ensures c == 0 <==> ls == rs
  {
    hide LexLess, StrColl;
    var l, r := ls, rs;
    ghost var p: seq<byte> := [];
    while true
      invariant ls == p + l && rs == p + r
      decreases |l|
    {
      var temp := StrColl(l, r);
      StrCollOrders(l, r);
      LexPrefix(p, l, r);
      LexPrefix(p, r, l);
      LexAsymmetric(l, r);
      if temp != 0 {
        return temp;
      }
      var len := StrLen(l);
      ChunkEnds(l, r, len);
      if len == |r| {
        return if len == |l| then 0 else 1;
      } else if len == |l| {
        return -1;
      }
      Advance(p, l, len);
      Advance(p, r, len);
      p := p + l[..len + 1];
      l, r := l[len + 1..], r[len + 1..];
    }
  }

  lemma Advance(p: seq<byte>, l: seq<byte>, len: nat)
    requires len < |l|
    ensures p + l == p + l[..len + 1] + l[len + 1..]
  {
  }

  /** Two strings that agree up to their first zero byte or end. */
  lemma ChunkEnds(l: seq<byte>, r: seq<byte>, len: nat)
    requires len <= |l| && len <= |r| && l[..len] == r[..len]
    requires (len < |l| ==> l[len] == 0) && (len < |r| ==> r[len] == 0)
    ensures len == |r| && len == |l| ==> l == r
    ensures len == |r| && len < |l| ==> LexLess(r, l)
    ensures len < |r| && len == |l| ==> LexLess(l, r)
    ensures len < |r| && len < |l| ==> l[..len + 1] == r[..len + 1]
  {
    assert l == l[..len] + l[len..] && r == l[..len] + r[len..];
    LexPrefix(l[..len], l[len..], r[len..]);
    LexPrefix(l[..len], r[len..], l[len..]);
  }

  lemma {:induction false} LexAsymmetric(l: seq<byte>, r: seq<byte>)
    ensures !(LexLess(l, r) && LexLess(r, l))
    ensures LexLess(l, r) || LexLess(r, l) <==> l != r
  {
    if l != [] && r != [] {
      if l[0] == r[0] {
        LexAsymmetric(l[1..], r[1..]);
        assert l == [l[0]] + l[1..] && r == [r[0]] + r[1..];
      }
    }
  }

  lemma {:induction false} LexTransitive(x: seq<byte>, y: seq<byte>, z: seq<byte>)
    requires LexLess(x, y) && LexLess(y, z)
    ensures LexLess(x, z)
  {
    if x != [] && x[0] == y[0] == z[0] {
      LexTransitive(x[1..], y[1..], z[1..]);
    }
  }

  // ---------------------------------------------------------------- sortCmp

  /** The number of results `sortCmp` says it returns; none if the comparison raises
      an error. */
  datatype Count = Raises | Returns(n: nat)

  function AsCount(b: bool): Count { Returns(if b then 1 else 0) }

  function BoolValue(b: bool): int { if b then Unit() else 0 }

  /** `sortCmp` on two keys. Its results are the top of the stack, where the second
      key lies. */
  function CmpCount(a: Key, b: Key): Count {
    match (a, b)
    case (TableKey(x), TableKey(y)) => AsCount(x < y)
    case (NumKey(x), NumKey(y)) => AsCount(Numbers.Value(x) < Numbers.Value(y))
    case (StrKey(x), StrKey(y)) => AsCount(LexLess(x, y))
    case (BoolKey(_), BoolKey(_)) => Raises
    case (BoolKey(x), NumKey(y)) => AsCount(BoolValue(x) < Numbers.Value(y))
    case (BoolKey(_), _) => Returns(1)
    case (NumKey(x), BoolKey(y)) => AsCount(Numbers.Value(x) < BoolValue(y))
    case (NumKey(_), _) => Returns(1)
    case (StrKey(_), BoolKey(_)) => Returns(0)
    case (StrKey(_), NumKey(_)) => Returns(0)
    case (StrKey(_), _) => Returns(1)
    case (TableKey(_), _) => Returns(0)
  }

  /** What `table.sort` sees: with one result, whether the second key is true; with
      none, nil. */
  predicate SortCmp(a: Key, b: Key) {
    CmpCount(a, b) == Returns(1) && b != BoolKey(false)
  }

  /** Numbers by value, then strings by bytes. */
  predicate KeyLess(a: Key, b: Key) {
    match (a, b)
    case (NumKey(x), NumKey(y)) => Numbers.Value(x) < Numbers.Value(y)
    case (NumKey(_), StrKey(_)) => true
    case (StrKey(x), StrKey(y)) => LexLess(x, y)
    case (_, _) => false
  }

  type PlainKeys = k: Key | PlainKey(k) witness StrKey([])

  /** On number and string keys the returned count is the order itself. */
  lemma SortCmpIsOrder(a: PlainKeys, b: PlainKeys)
    ensures SortCmp(a, b) <==> KeyLess(a, b)
  {
  }

  /** On all keys it is the result that `table.sort` sees, except for a negative number
      before the key false: one result is returned, and it is that false. */
  lemma FalseHidesOrder(a: Key, b: Key)
    ensures CmpCount(a, b) == Returns(1) && !SortCmp(a, b)
            <==> a.NumKey? && Numbers.Value(a.n) < 0 && b == BoolKey(false)
    ensures SortCmp(a, b) ==> CmpCount(a, b) == Returns(1)
  {
  }

  /** Such a pair, -1 and false, is not ordered either way. */
  lemma FalseUnordered()
    ensures var a, b := At(-1), BoolKey(false);
            CmpCount(a, b) == Returns(1) && !SortCmp(a, b) && !SortCmp(b, a) && a != b
  {
    FalseHidesOrder(At(-1), BoolKey(false));
  }

  lemma KeyOrderTotal(a: PlainKeys, b: PlainKeys)
    ensures !(KeyLess(a, b) && KeyLess(b, a))
    ensures KeyLess(a, b) || KeyLess(b, a) <==> a != b
  {
    if a.StrKey? && b.StrKey? {
      LexAsymmetric(a.s, b.s);
    } else if a.NumKey? && b.NumKey? && Numbers.Value(a.n) == Numbers.Value(b.n) {
      ValueInjective(a.n, b.n);
    }
  }

  lemma KeyOrderTransitive(a: PlainKeys, b: PlainKeys, c: PlainKeys)
    requires KeyLess(a, b) && KeyLess(b, c)
    ensures KeyLess(a, c)
  {
    if a.StrKey? && b.StrKey? && c.StrKey? {
      LexTransitive(a.s, b.s, c.s);
    }
  }

  /** `sortCmp` is a strict weak order on number and string keys, indeed a total one. */
  lemma SortCmpStrictWeak()
    ensures Quicksort.StrictWeakOrder((a: PlainKeys, b: PlainKeys) => SortCmp(a, b))
  {
    forall x: PlainKeys, y: PlainKeys | SortCmp(x, y) ensures !SortCmp(y, x) {
      SortCmpIsOrder(x, y);
      SortCmpIsOrder(y, x);
      KeyOrderTotal(x, y);
    }
    forall x: PlainKeys, y: PlainKeys, z: PlainKeys | SortCmp(x, z) ensures SortCmp(x, y) || SortCmp(y, z) {
      SortCmpIsOrder(x, y);
      SortCmpIsOrder(y, z);
      SortCmpIsOrder(x, z);
      KeyOrderTotal(x, y);
      KeyOrderTotal(y, z);
      KeyOrderTotal(x, z);
      if KeyLess(y, x) && KeyLess(z, y) {
        KeyOrderTransitive(z, y, x);
      }
    }
  }

  // ---------------------------------------------------------------- the sorted list

  ghost predicate Ascending(s: seq<Key>) {
    forall i, j | 0 <= i < j < |s| :: KeyLess(s[i], s[j])
  }

  function InsertKey(s: seq<Key>, k: Key): seq<Key> {
    if s == [] || KeyLess(k, s[0]) then [k] + s else [s[0]] + InsertKey(s[1..], k)
  }

  /** The keys in order. */
  function SortKeys(s: seq<Key>): seq<Key> {
    if s == [] then [] else InsertKey(SortKeys(s[1..]), s[0])
  }

  ghost predicate AllPlain(s: seq<Key>) { forall k | k in s :: PlainKey(k) }

  lemma {:induction false} InsertAscends(s: seq<Key>, k: Key)
    requires Ascending(s) && AllPlain(s) && PlainKey(k) && k !in s
    ensures Ascending(InsertKey(s, k)) && multiset(InsertKey(s, k)) == multiset(s) + multiset{k}
  {
    hide PlainKey;
    if s == [] {
    } else if KeyLess(k, s[0]) {
      forall j | 0 <= j < |s| ensures KeyLess(k, s[j]) {
        if j > 0 {
          KeyOrderTransitive(k, s[0], s[j]);
        }
      }
    } else {
      assert s == [s[0]] + s[1..];
      assert s[0] in s;
      InsertAscends(s[1..], k);
      KeyOrderTotal(k, s[0]);
      InsertBehind(s, k, InsertKey(s[1..], k));
    }
  }

  lemma InsertBehind(s: seq<Key>, k: Key, t: seq<Key>)
    requires s != [] && Ascending(s) && KeyLess(s[0], k)
    requires Ascending(t) && multiset(t) == multiset(s[1..]) + multiset{k}
    ensures Ascending([s[0]] + t)
  {
    hide KeyLess;
    forall j | 0 <= j < |t| ensures KeyLess(s[0], t[j]) {
      assert t[j] in multiset(t);
      if t[j] != k {
        assert t[j] in s[1..];
      }
    }
  }

  lemma {:induction false} SortKeysAscends(s: seq<Key>)
    requires AllPlain(s) && forall i, j | 0 <= i < j < |s| :: s[i] != s[j]
    ensures Ascending(SortKeys(s)) && multiset(SortKeys(s)) == multiset(s)
  {
    if s != [] {
      assert s == [s[0]] + s[1..];
      SortKeysAscends(s[1..]);
      var t := SortKeys(s[1..]);
      forall k | k in t ensures k in s[1..] {
        assert k in multiset(t);
      }
      InsertAscends(t, s[0]);
    }
  }

  lemma HeadsAgree(s: seq<Key>, t: seq<Key>)
    requires Ascending(s) && Ascending(t) && AllPlain(s) && multiset(s) == multiset(t) && s != [] && t != []
    ensures s[0] == t[0]
  {
    hide KeyLess, PlainKey;
    assert s[0] in multiset(t) && t[0] in multiset(s);
    var i :| 0 <= i < |t| && t[i] == s[0];
    var j :| 0 <= j < |s| && s[j] == t[0];
    if i > 0 && j > 0 {
      KeyOrderTotal(s[0], t[0]);
    }
  }

  /** There is only one ascending arrangement of the same keys. */
  lemma {:induction false} AscendingUnique(s: seq<Key>, t: seq<Key>)
    requires Ascending(s) && Ascending(t) && AllPlain(s) && multiset(s) == multiset(t)
    ensures s == t
  {
    hide KeyLess, PlainKey;
    assert |t| == |multiset(t)| == |multiset(s)| == |s|;
    if s != [] {
      HeadsAgree(s, t);
      assert s == [s[0]] + s[1..] && t == [t[0]] + t[1..];
      assert multiset(s[1..]) == multiset(s) - multiset{s[0]} == multiset(t) - multiset{t[0]} == multiset(t[1..]);
      assert AllPlain(s[1..]);
      AscendingUnique(s[1..], t[1..]);
    }
  }
}
