/**
 Patterns as they are meant: sets, classes and items as data, how they are written,
 and what they match.
 */
module Syntax {
  import opened Bytes
  import opened Pattern

  // ---------------------------------------------------------------- classes

  /** The characters of a class, as ranges, by its lower-case letter. */
  function RangesOf(letter: byte): seq<(byte, byte)> {
    if letter == 97 then [(65, 90), (97, 122)]
    else if letter == 99 then [(0, 31), (127, 127)]
    else if letter == 100 then [(48, 57)]
    else if letter == 108 then [(97, 122)]
    else if letter == 112 then [(33, 47), (58, 64), (91, 96), (123, 126)]
    else if letter == 115 then [(9, 13), (32, 32)]
    else if letter == 117 then [(65, 90)]
    else if letter == 119 then [(48, 57), (65, 90), (97, 122)]
    else if letter == 120 then [(48, 57), (65, 70), (97, 102)]
    else if letter == 122 then [(0, 0)]
    else []
  }

  predicate InRanges(ranges: seq<(byte, byte)>, c: byte) {
    exists i :: 0 <= i < |ranges| && ranges[i].0 <= c <= ranges[i].1
  }

  /** `a`, `c`, `d`, `l`, `p`, `s`, `u`, `w`, `x` and `z`, in either case. */
  predicate IsClassLetter(l: byte) { RangesOf(l) != [] || (65 <= l <= 90 && RangesOf(l + 32) != []) }

  /** An upper-case letter is the complement of the lower-case one. */
  predicate Belongs(l: byte, c: byte) {
    if RangesOf(l) != [] then InRanges(RangesOf(l), c) else l <= 90 && !InRanges(RangesOf(l + 32), c)
  }

  /** A class contains what its ranges say, and any other character stands for itself. */
  lemma ClassMeans(l: byte, c: byte)
    ensures IsClassLetter(l) ==> (MatchClass(c, l) <==> Belongs(l, c))
    ensures !IsClassLetter(l) ==> (MatchClass(c, l) <==> c == l)
  {
    if IsClassLetter(l) {
      RangesMean(if RangesOf(l) != [] then l else l + 32, c);
    }
    hide InRanges, IsAlpha, IsCntrl, IsPunct, IsSpace, IsXDigit, IsAlnum;
  }

  lemma RangesMean(l: byte, c: byte)
    requires RangesOf(l) != []
    ensures InRanges(RangesOf(l), c) <==> MatchClass(c, l)
  {
    var r := RangesOf(l);
    assert InRanges(r, c) <==>
      || (r[0].0 <= c <= r[0].1) || (|r| > 1 && r[1].0 <= c <= r[1].1)
      || (|r| > 2 && r[2].0 <= c <= r[2].1) || (|r| > 3 && r[3].0 <= c <= r[3].1);
  }

  // ---------------------------------------------------------------- sets

  datatype Elem = One(c: byte) | Range(lo: byte, hi: byte) | Kind(letter: byte)

  predicate ElemAdmits(e: Elem, c: byte) {
    match e
    case One(x) => c == x
    case Range(lo, hi) => lo <= c <= hi
    case Kind(l) => Belongs(l, c)
  }

  /** Some element admits the character; or none does, under `^`. */
  predicate SetAdmits(negative: bool, elems: seq<Elem>, c: byte) {
    negative != exists i :: 0 <= i < |elems| && ElemAdmits(elems[i], c)
  }

  /** A letter or digit stands for itself, any other character is escaped. */
  function TextChar(c: byte): seq<byte> { if IsAlnum(c) then [c] else [ESC, c] }

  function TextElem(e: Elem): seq<byte> {
    match e
    case One(c) => TextChar(c)
    case Range(lo, hi) => [lo, 45, hi]
    case Kind(l) => [ESC, l]
  }

  function TextElems(elems: seq<Elem>): seq<byte> {
    if elems == [] then [] else TextElem(elems[0]) + TextElems(elems[1..])
  }

  function TextSet(negative: bool, elems: seq<Elem>): seq<byte> {
    [91] + (if negative then [94] else []) + TextElems(elems) + [93]
  }

  /** The ends of a range are written as they are, and so must not be taken for
      something else. */
  predicate Plain(c: byte) { c != 0 && c != ESC && c != 93 }

  predicate WrittenElem(e: Elem) {
    match e
    case One(c) => c != 0
    case Range(lo, hi) => Plain(lo) && lo != 94 && lo != 45 && Plain(hi)
    case Kind(l) => IsClassLetter(l)
  }

  predicate WrittenSet(elems: seq<Elem>) {
    elems != [] && forall i | 0 <= i < |elems| :: WrittenElem(elems[i])
  }

  /** `T` lies in the pattern at `p`. */
  predicate Lies(P: seq<byte>, p: nat, T: seq<byte>) {
    p + |T| <= |P| && P[p..p + |T|] == T
  }

  lemma LiesSplit(P: seq<byte>, p: nat, A: seq<byte>, B: seq<byte>)
    requires Lies(P, p, A + B)
    ensures Lies(P, p, A) && Lies(P, p + |A|, B)
  {
    var s := P[p..p + |A + B|];
    assert s[..|A|] == A && s[|A|..] == B;
    assert P[p..p + |A|] == s[..|A|];
    assert P[p + |A|..p + |A| + |B|] == s[|A|..];
  }

  lemma LiesAt(P: seq<byte>, p: nat, T: seq<byte>)
    requires Lies(P, p, T)
    ensures forall i | 0 <= i < |T| :: At(P, p + i) == T[i]
  {
    forall i | 0 <= i < |T| ensures At(P, p + i) == T[i] {
      assert P[p..p + |T|][i] == P[p + i];
    }
  }

  /** An element, in front of what does not look like the middle of a range. */
  lemma ElemMeans(P: seq<byte>, p: nat, e: Elem, ec: nat, c: byte)
    requires Lies(P, p, TextElem(e)) && WrittenElem(e) && p + |TextElem(e)| <= ec && At(P, p + |TextElem(e)|) != 45
    ensures InSet(P, p, ec, c) <==> ElemAdmits(e, c) || InSet(P, p + |TextElem(e)|, ec, c)
  {
    LiesAt(P, p, TextElem(e));
    assert At(P, p + 0) == TextElem(e)[0];
    assert |TextElem(e)| > 1 ==> At(P, p + 1) == TextElem(e)[1];
    assert |TextElem(e)| > 2 ==> At(P, p + 2) == TextElem(e)[2];
    match e
    case One(x) => ClassMeans(x, c);
    case Kind(l) => ClassMeans(l, c);
    case Range(lo, hi) =>
  }

  lemma {:induction false} ElemsMean(P: seq<byte>, p: nat, elems: seq<Elem>, c: byte)
    requires Lies(P, p, TextElems(elems)) && At(P, p + |TextElems(elems)|) == 93
    requires forall i | 0 <= i < |elems| :: WrittenElem(elems[i])
    ensures InSet(P, p, p + |TextElems(elems)|, c) <==> exists i :: 0 <= i < |elems| && ElemAdmits(elems[i], c)
    ensures At(P, p) != 45 && (elems != [] ==> At(P, p) != 94 && At(P, p) != 93 && At(P, p) != 0)
    decreases |elems|
  {
    hide InSet, ElemAdmits, TextElem, WrittenElem, Lies;
    if elems != [] {
      var e, rest := elems[0], elems[1..];
      var q := p + |TextElem(e)|;
      LiesSplit(P, p, TextElem(e), TextElems(rest));
      ElemHead(P, p, e);
      ElemsMean(P, q, rest, c);
      ElemMeans(P, p, e, p + |TextElems(elems)|, c);
      assert forall i | 1 <= i < |elems| :: elems[i] == rest[i - 1];
      assert forall i | 0 <= i < |rest| :: rest[i] == elems[i + 1];
    } else {
      NoElems(P, p, c);
    }
  }

  lemma NoElems(P: seq<byte>, p: nat, c: byte)
    ensures !InSet(P, p, p, c)
  {
  }

  lemma ElemHead(P: seq<byte>, p: nat, e: Elem)
    requires Lies(P, p, TextElem(e)) && WrittenElem(e)
    ensures At(P, p) != 45 && At(P, p) != 94 && At(P, p) != 93 && At(P, p) != 0
  {
    LiesAt(P, p, TextElem(e));
    assert At(P, p + 0) == TextElem(e)[0];
  }

  /** A set matches exactly what it lists, with closed ranges; under `^`, exactly what
      it does not list. */
  lemma SetMeans(P: seq<byte>, p: nat, negative: bool, elems: seq<Elem>, c: byte)
    requires Lies(P, p, TextSet(negative, elems)) && WrittenSet(elems)
    ensures MatchSet(P, p, p + |TextSet(negative, elems)| - 1, c) <==> SetAdmits(negative, elems, c)
  {
    hide InSet, TextElems, WrittenElem, ElemAdmits;
    var head: seq<byte> := [91] + (if negative then [94] else []);
    var q := p + |head|;
    assert TextSet(negative, elems) == head + (TextElems(elems) + [93]);
    LiesSplit(P, p, head, TextElems(elems) + [93]);
    LiesSplit(P, q, TextElems(elems), [93]);
    LiesAt(P, p, head);
    LiesAt(P, q + |TextElems(elems)|, [93]);
    assert At(P, q + |TextElems(elems)| + 0) == 93;
    ElemsMean(P, q, elems, c);
    assert negative ==> At(P, p + 1) == head[1];
  }
}
