/**
 The bytes of a value depend on its contents only: neither on the order in which a
 table is traversed nor on the border its layout reports.
 */
module Canonical {
  import opened LuaValue
  import opened KeyOrder
  import opened Losses
  import opened Format

  ghost predicate NoHolesIn(entries: seq<(Key, LValue)>) {
    forall i: int | i >= 1 && Has(entries, At(i + 1)) :: Has(entries, At(i))
  }

  /** At every level the positive integer keys have no holes. */
  ghost predicate NoHoles(v: LValue) {
    v.LTable? ==>
      && NoHolesIn(v.entries)
      && forall i | 0 <= i < |v.entries| :: NoHoles(v.entries[i].1)
  }

  lemma {:induction false} Below(entries: seq<(Key, LValue)>, n: nat, m: nat)
    requires NoHolesIn(entries) && 1 <= n <= m && Has(entries, At(m))
    ensures Has(entries, At(n))
    decreases m - n
  {
    if n < m {
      assert Has(entries, At((m - 1) + 1));
      Below(entries, n, m - 1);
    }
  }

  /** Without holes there is one border, and it is a matter of the keys. */
  lemma BorderUnique(a: seq<(Key, LValue)>, b: seq<(Key, LValue)>, n: nat, m: nat)
    requires NoHolesIn(a) && NoHolesIn(b) && IsBorder(a, n) && IsBorder(b, m)
    requires forall k :: Has(a, k) <==> Has(b, k)
    ensures n == m
  {
    if n < m {
      Below(a, n + 1, m);
    } else if m < n {
      Below(b, m + 1, n);
    }
  }

  /** Equal contents: the same keys, and at each key equal contents. */
  lemma SameContents(v: LValue, w: LValue)
    requires v.LTable? && w.LTable? && Valid(v) && Valid(w) && Content(v) == Content(w)
    ensures forall k :: Has(v.entries, k) <==> Has(w.entries, k)
    ensures KeySet(v.entries, |v.entries|) == KeySet(w.entries, |w.entries|)
    ensures forall k | Has(v.entries, k) && Has(w.entries, k) ::
              Content(v.entries[Find(v.entries, k)].1) == Content(w.entries[Find(w.entries, k)].1)
  {
    hide Valid;
    var n, m := |v.entries|, |w.entries|;
    ContentMapIs(v, n);
    ContentMapIs(w, m);
    HasIsKey(v.entries);
    HasIsKey(w.entries);
    assert ContentMap(v, n) == ContentMap(w, m);
    assert KeySet(v.entries, n) == KeySet(w.entries, m);
    forall k | Has(v.entries, k)
      ensures Content(v.entries[Find(v.entries, k)].1) == Content(w.entries[Find(w.entries, k)].1)
    {
      assert k in KeySet(v.entries, n);
      var i, j := Find(v.entries, k), Find(w.entries, k);
      assert ContentMap(v, n)[v.entries[i].0] == Content(v.entries[i].1);
      assert ContentMap(w, m)[w.entries[j].0] == Content(w.entries[j].1);
    }
  }

  lemma HasIsKey(entries: seq<(Key, LValue)>)
    ensures forall k :: Has(entries, k) <==> k in KeySet(entries, |entries|)
  {
  }

  lemma {:induction false} DistinctMultiset<T>(s: seq<T>, t: seq<T>)
    requires forall i, j | 0 <= i < j < |s| :: s[i] != s[j]
    requires forall i, j | 0 <= i < j < |t| :: t[i] != t[j]
    requires forall x :: x in s <==> x in t
    ensures multiset(s) == multiset(t)
  {
    forall x ensures multiset(s)[x] == multiset(t)[x] {
      Once(s, x);
      Once(t, x);
    }
  }

  lemma {:induction false} Once<T>(s: seq<T>, x: T)
    requires forall i, j | 0 <= i < j < |s| :: s[i] != s[j]
    ensures multiset(s)[x] == if x in s then 1 else 0
  {
    if s != [] {
      var n := |s| - 1;
      Once(s[..n], x);
      assert s == s[..n] + [s[n]];
      assert s[n] !in s[..n];
    }
  }

  lemma SameKeys(v: LValue, w: LValue)
    requires v.LTable? && w.LTable? && Valid(v) && Valid(w) && Content(v) == Content(w)
    ensures |v.entries| == |w.entries|
    ensures SortKeys(Keys(v.entries)) == SortKeys(Keys(w.entries))
  {
    SameContents(v, w);
    SortedKeys(v);
    SortedKeys(w);
    ValidDistinct(v);
    ValidDistinct(w);
    KeySetSize(v.entries, |v.entries|);
    KeySetSize(w.entries, |w.entries|);
    hide Valid, Content, SortKeys, AllPlain, Has, Find;
    var s, t := Keys(v.entries), Keys(w.entries);
    KeysAreSet(v.entries);
    KeysAreSet(w.entries);
    hide KeySet, DistinctKeys;
    DistinctMultiset(s, t);
    AscendingUnique(SortKeys(s), SortKeys(t));
  }

  lemma KeysAreSet(entries: seq<(Key, LValue)>)
    ensures forall k :: k in Keys(entries) <==> k in KeySet(entries, |entries|)
    ensures DistinctKeys(entries) ==> forall i, j | 0 <= i < j < |entries| :: Keys(entries)[i] != Keys(entries)[j]
  {
  }

  /** Values with the same contents, whatever their layout, have the same bytes. */
  lemma {:induction false} SameBytes(v: LValue, w: LValue, pool: Pool)
    requires Valid(v) && Valid(w) && NoHoles(v) && NoHoles(w) && Content(v) == Content(w)
    ensures EncodeValue(v, pool) == EncodeValue(w, pool)
    decreases v
  {
    if v.LTable? && |v.entries| != 0 {
      SameKeys(v, w);
      SameContents(v, w);
      BorderUnique(v.entries, w.entries, v.border, w.border);
      if |v.entries| == v.border {
        SameArrays(v, w, 1, v.border, pool);
      } else {
        SortedKeys(v);
        SamePairs(v, w, SortKeys(Keys(v.entries)), pool);
      }
    } else if v.LTable? {
      SameKeys(v, w);
    }
  }

  lemma {:induction false} SameAt(v: LValue, w: LValue, k: Key, pool: Pool)
    requires v.LTable? && w.LTable? && Valid(v) && Valid(w) && NoHoles(v) && NoHoles(w) && Content(v) == Content(w)
    ensures EncodeAt(v, k, pool) == EncodeAt(w, k, pool)
    decreases v, 0
  {
    SameContents(v, w);
    var i, j := Find(v.entries, k), Find(w.entries, k);
    assert Has(v.entries, k) <==> Has(w.entries, k);
    if i >= 0 {
      SameBytes(v.entries[i].1, w.entries[j].1, pool);
    }
  }

  lemma {:induction false} SameArrays(v: LValue, w: LValue, i: nat, n: nat, pool: Pool)
    requires v.LTable? && w.LTable? && Valid(v) && Valid(w) && NoHoles(v) && NoHoles(w) && Content(v) == Content(w)
    ensures EncodeArray(v, i, n, pool) == EncodeArray(w, i, n, pool)
    decreases v, 1, if i <= n then n + 1 - i else 0
  {
    if i <= n {
      SameAt(v, w, At(i), pool);
      var first := EncodeAt(v, At(i), pool);
      if first.Encoded? {
        SameArrays(v, w, i + 1, n, first.pool);
      }
    }
  }

  lemma {:induction false} SamePairs(v: LValue, w: LValue, keys: seq<Key>, pool: Pool)
    requires v.LTable? && w.LTable? && Valid(v) && Valid(w) && NoHoles(v) && NoHoles(w) && Content(v) == Content(w)
    requires forall k | k in keys :: PlainKey(k)
    ensures EncodePairs(v, keys, pool) == EncodePairs(w, keys, pool)
    decreases v, 1, |keys|
  {
    if keys != [] {
      var key := EncodeKey(keys[0], pool);
      if key.Encoded? {
        SameAt(v, w, keys[0], key.pool);
      }
      var first := EncodePair(v, keys[0], pool);
      if first.Encoded? {
        SamePairs(v, w, keys[1..], first.pool);
      }
    }
  }

  /** The canonical encoding: one file for each content. */
  lemma CanonicalFile(v: LValue, w: LValue)
    requires Valid(v) && Valid(w) && NoHoles(v) && NoHoles(w) && Content(v) == Content(w)
    ensures EncodeFile(v) == EncodeFile(w)
  {
    SameBytes(v, w, []);
  }

  /** Values without holes lose nothing: their round trip is exact. */
  lemma {:induction false} NoHolesLossless(v: LValue)
    requires Valid(v) && NoHoles(v)
    ensures Lossless(v)
    decreases v
  {
    if v.LTable? {
      forall i | 0 <= i < |v.entries| ensures Lossless(v.entries[i].1) {
        NoHolesLossless(v.entries[i].1);
      }
      forall i | 1 <= i <= v.border ensures Has(v.entries, At(i)) {
        Below(v.entries, i, v.border);
      }
    }
  }
}
