/**
 When writing and reading a value loses nothing: exactly when every table that the
 writer takes for an array has the keys 1..n.
 */
module Losses {
  import opened Bytes
  import opened Numbers
  import opened LuaValue
  import TableSizes

  function KeySet(entries: seq<(Key, LValue)>, n: nat): set<Key>
    requires n <= |entries|
  {
    set i | 0 <= i < n :: entries[i].0
  }

  function Indices(n: nat): set<Key> {
    set i | 1 <= i <= n :: At(i)
  }

  lemma {:induction false} IndicesSize(n: nat)
    ensures |Indices(n)| == n
  {
    if n > 0 {
      IndicesSize(n - 1);
      assert Indices(n) == Indices(n - 1) + {At(n)};
    }
  }

  lemma {:induction false} KeySetSize(entries: seq<(Key, LValue)>, n: nat)
    requires n <= |entries| && DistinctKeys(entries)
    ensures |KeySet(entries, n)| == n
  {
    if n > 0 {
      KeySetSize(entries, n - 1);
      assert KeySet(entries, n) == KeySet(entries, n - 1) + {entries[n - 1].0};
    }
  }

  lemma FindAt(entries: seq<(Key, LValue)>, i: nat)
    requires i < |entries| && DistinctKeys(entries)
    ensures Find(entries, entries[i].0) == i
  {
  }

  lemma NewEntry(t: LValue, n: nat)
    requires t.LTable? && 0 < n <= |t.entries| && Valid(t)
    ensures t.entries[n - 1].0 !in KeySet(t.entries, n - 1)
    ensures KeySet(t.entries, n) == KeySet(t.entries, n - 1) + {t.entries[n - 1].0}
    ensures forall i | 0 <= i < n - 1 :: t.entries[i].0 != t.entries[n - 1].0
    ensures !Content(t.entries[n - 1].1).Nil? && !Lossy(t.entries[n - 1].1).Nil?
  {
    assert !t.entries[n - 1].1.LNil?;
  }

  lemma {:induction false} ContentMapIs(t: LValue, n: nat)
    requires t.LTable? && n <= |t.entries| && Valid(t)
    ensures ContentMap(t, n).Keys == KeySet(t.entries, n)
    ensures forall i | 0 <= i < n :: ContentMap(t, n)[t.entries[i].0] == Content(t.entries[i].1)
  {
    hide Valid, DistinctKeys, Content, Lossy;
    if n > 0 {
      ContentMapIs(t, n - 1);
      NewEntry(t, n);
    }
  }

  lemma {:induction false} LossyMapIs(t: LValue, n: nat)
    requires t.LTable? && n <= |t.entries| && Valid(t)
    ensures LossyMap(t, n).Keys == KeySet(t.entries, n)
    ensures forall i | 0 <= i < n :: LossyMap(t, n)[t.entries[i].0] == Lossy(t.entries[i].1)
  {
    hide Valid, DistinctKeys, Content, Lossy;
    if n > 0 {
      LossyMapIs(t, n - 1);
      NewEntry(t, n);
    }
  }

  lemma {:induction false} LossyArrayIs(t: LValue, n: nat)
    requires t.LTable? && Valid(t)
    ensures LossyArray(t, n).Keys == KeySet(t.entries, |t.entries|) * Indices(n)
    ensures forall k | k in LossyArray(t, n).Keys :: Has(t.entries, k) && LossyArray(t, n)[k] == LossyAt(t, k)
  {
    hide Valid, Find, DistinctKeys, Lossy, Content, KeySet;
    if n > 0 {
      LossyArrayIs(t, n - 1);
      LossyAtIs(t, At(n));
      assert At(n) !in Indices(n - 1);
      assert Indices(n) == Indices(n - 1) + {At(n)};
    }
  }

  lemma LossyAtIs(t: LValue, k: Key)
    requires t.LTable? && Valid(t)
    ensures Has(t.entries, k) <==> k in KeySet(t.entries, |t.entries|)
    ensures LossyAt(t, k).Nil? <==> !Has(t.entries, k)
  {
    var i := Find(t.entries, k);
    if i >= 0 {
      assert !t.entries[i].1.LNil?;
    }
  }

  /** Keys 1..n are present, among n keys, exactly if there are no others. */
  lemma ArrayKeys(entries: seq<(Key, LValue)>, n: nat)
    requires DistinctKeys(entries) && |entries| == n
    ensures KeysAre1To(entries, n) <==> KeySet(entries, n) == Indices(n)
    ensures KeysAre1To(entries, n) <==> KeySet(entries, n) <= Indices(n)
  {
    IndicesSize(n);
    KeySetSize(entries, n);
    var ks := KeySet(entries, n);
    assert forall k :: k in ks <==> Has(entries, k);
    if KeysAre1To(entries, n) {
      assert Indices(n) <= ks;
      TableSizes.SubsetSize(Indices(n), ks);
    }
    if ks <= Indices(n) {
      TableSizes.SubsetSize(ks, Indices(n));
      forall i | 1 <= i <= n ensures Has(entries, At(i)) {
        assert At(i) in Indices(n);
      }
    }
  }

  /** With no holes in the positive integer keys, the size equals the border
      exactly when the table is an array. */
  lemma ArrayDetection(entries: seq<(Key, LValue)>, border: nat, h: nat)
    requires DistinctKeys(entries) && IsBorder(entries, border)
    requires forall i: int | i > 0 :: Has(entries, At(i)) <==> i <= h
    ensures border == h
    ensures |entries| == border <==> KeySet(entries, |entries|) == Indices(border)
  {
    assert border == h;
    KeySetSize(entries, |entries|);
    IndicesSize(border);
    if |entries| == border {
      assert KeysAre1To(entries, border);
      ArrayKeys(entries, border);
    }
  }

  /** What is read back has the contents of what was written if and only if every
      table taken for an array has exactly the keys 1..n. */
  lemma {:induction false} LossyIffNot(v: LValue)
    requires Valid(v)
    ensures Lossy(v) == Content(v) <==> Lossless(v)
    decreases v
  {
    if v.LTable? {
      var entries, n := v.entries, |v.entries|;
      ContentMapIs(v, n);
      LossyMapIs(v, n);
      LossyArrayIs(v, v.border);
      forall i | 0 <= i < n
        ensures Lossy(entries[i].1) == Content(entries[i].1) <==> Lossless(entries[i].1)
      {
        LossyIffNot(entries[i].1);
      }
      if TakenForArray(entries, v.border) {
        ArrayKeys(entries, n);
        ArrayEqual(v);
      } else {
        MapEqual(v);
      }
    }
  }

  lemma MapEqual(v: LValue)
    requires v.LTable? && Valid(v) && !TakenForArray(v.entries, v.border)
    requires forall i | 0 <= i < |v.entries| ::
               Lossy(v.entries[i].1) == Content(v.entries[i].1) <==> Lossless(v.entries[i].1)
    ensures Lossy(v) == Content(v) <==> Lossless(v)
  {
    hide Valid;
    var entries, n := v.entries, |v.entries|;
    ContentMapIs(v, n);
    LossyMapIs(v, n);
    if Lossless(v) {
      assert LossyMap(v, n) == ContentMap(v, n);
    }
    if LossyMap(v, n) == ContentMap(v, n) {
      forall i | 0 <= i < n ensures Lossless(entries[i].1) {
        assert LossyMap(v, n)[entries[i].0] == ContentMap(v, n)[entries[i].0];
      }
    }
  }

  lemma ArrayEqual(v: LValue)
    requires v.LTable? && Valid(v) && TakenForArray(v.entries, v.border)
    requires forall i | 0 <= i < |v.entries| ::
               Lossy(v.entries[i].1) == Content(v.entries[i].1) <==> Lossless(v.entries[i].1)
    ensures Lossy(v) == Content(v) <==> Lossless(v)
  {
    var entries, n := v.entries, |v.entries|;
    ArrayKeys(entries, n);
    ArrayEqualMaps(v);
    hide Valid, ContentMap, LossyArray;
    assert Content(v) == Table(ContentMap(v, n)) && Lossy(v) == Table(LossyArray(v, n));
    if Lossless(v) {
      assert forall i | 0 <= i < n :: Lossless(entries[i].1);
    }
  }

  lemma ArrayEqualMaps(v: LValue)
    requires v.LTable? && Valid(v)
    ensures var n := |v.entries|;
            LossyArray(v, n) == ContentMap(v, n) <==>
              && KeySet(v.entries, n) <= Indices(n)
              && forall i | 0 <= i < n :: Lossy(v.entries[i].1) == Content(v.entries[i].1)
  {
    hide Valid, Find, DistinctKeys, Lossy, Content, Has, Indices, LossyArray, ContentMap, LossyAt;
    var entries, n := v.entries, |v.entries|;
    ContentMapIs(v, n);
    LossyArrayIs(v, n);
    forall i | 0 <= i < n ensures LossyAt(v, entries[i].0) == Lossy(entries[i].1) {
      ValidDistinct(v);
      LossyAtEntry(v, i);
    }
    var a, c := LossyArray(v, n), ContentMap(v, n);
    if KeySet(entries, n) <= Indices(n) && forall i | 0 <= i < n :: Lossy(entries[i].1) == Content(entries[i].1) {
      assert a.Keys == c.Keys;
      forall k | k in c ensures a[k] == c[k] {
        var i :| 0 <= i < n && entries[i].0 == k;
      }
    }
    if a == c {
      assert a.Keys == KeySet(entries, n);
      forall i | 0 <= i < n ensures Lossy(entries[i].1) == Content(entries[i].1) {
        assert entries[i].0 in KeySet(entries, n);
        assert a[entries[i].0] == c[entries[i].0];
      }
    }
  }

  lemma ValidDistinct(v: LValue)
    requires v.LTable? && Valid(v)
    ensures DistinctKeys(v.entries)
  {
  }

  lemma LossyAtEntry(v: LValue, i: nat)
    requires v.LTable? && DistinctKeys(v.entries) && i < |v.entries|
    ensures LossyAt(v, v.entries[i].0) == Lossy(v.entries[i].1)
  {
    FindAt(v.entries, i);
  }

  lemma SmallNumbers()
    ensures ValidNumber(Int(1)) && ValidNumber(Int(2)) && ValidNumber(Int(4))
  {
    Widths();
    ToDoubleNear(1);
    ToDoubleNear(2);
    ToDoubleNear(4);
  }

  function Holed(): LValue {
    var one := LNum(Int(1));
    LTable([(At(1), one), (At(2), one), (At(4), one), (StrKey([120]), one)], 4)
  }

  lemma HoledIsValid()
    ensures Valid(Holed()) && !Lossless(Holed())
  {
    hide FitsSigned, ToDouble, Lossy, Content;
    SmallNumbers();
    var entries := Holed().entries;
    assert Has(entries, At(4)) by { assert entries[2].0 == At(4); }
    assert !Has(entries, At(5)) && !Has(entries, At(3));
  }

  /** A border that hides a hole: four entries 1, 2, 4 and "x" with border 4 are
      taken for an array, and "x" is lost. */
  lemma ArrayFormLoses()
    ensures Valid(Holed()) && Lossy(Holed()) != Content(Holed())
  {
    hide Valid, Lossless, Lossy, Content;
    HoledIsValid();
    LossyIffNot(Holed());
  }
}
