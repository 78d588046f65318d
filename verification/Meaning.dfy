/**
 Whole patterns as they are meant: items as data, how they are written, and the match
 that a recursive description of them gives. The search gives the same one.
 */
module Meaning {
  import opened Bytes
  import opened Pattern
  import opened Syntax

  datatype Class = Char(c: byte) | Any | Named(letter: byte) | OneOf(negative: bool, elems: seq<Elem>)

  /** A class, so many times; the brackets of a capture; a capture of the position;
      `%b`, `%f` and a back reference. */
  datatype Piece =
    | Times(cls: Class, rep: Repetition)
    | Begin
    | Finish
    | Here
    | Between(b: byte, e: byte)
    | Edge(negative: bool, elems: seq<Elem>)
    | Again(n: nat)

  predicate Admits(cls: Class, c: byte) {
    match cls
    case Char(x) => c == x
    case Any => true
    case Named(l) => Belongs(l, c)
    case OneOf(negative, elems) => SetAdmits(negative, elems, c)
  }

  // ---------------------------------------------------------------- how it is written

  function TextClass(cls: Class): seq<byte> {
    match cls
    case Char(x) => TextChar(x)
    case Any => [46]
    case Named(l) => [ESC, l]
    case OneOf(negative, elems) => TextSet(negative, elems)
  }

  function TextTimes(rep: Repetition): seq<byte> {
    match rep
    case Once => []
    case Optional => [63]
    case Star => [42]
    case Plus => [43]
    case Minus => [45]
  }

  function TextPiece(x: Piece): (t: seq<byte>) {
    match x
    case Times(cls, rep) => TextClass(cls) + TextTimes(rep)
    case Begin => [40]
    case Finish => [41]
    case Here => [40, 41]
    case Between(b, e) => [ESC, 98, b, e]
    case Edge(negative, elems) => [ESC, 102] + TextSet(negative, elems)
    case Again(n) => [ESC, if 1 <= n <= 9 then 48 + n else 48]
  }

  /** The pattern, with `$` behind it if the match must end the subject. */
  function Text(xs: seq<Piece>, anchored: bool): seq<byte> {
    if xs == [] then if anchored then [36] else [] else TextPiece(xs[0]) + Text(xs[1..], anchored)
  }

  predicate WrittenClass(cls: Class) {
    match cls
    case Char(x) => x != 0
    case Any => true
    case Named(l) => IsClassLetter(l)
    case OneOf(_, elems) => WrittenSet(elems)
  }

  predicate WrittenPiece(x: Piece) {
    match x
    case Times(cls, _) => WrittenClass(cls)
    case Between(b, e) => b != 0 && e != 0
    case Edge(_, elems) => WrittenSet(elems)
    case Again(n) => 1 <= n <= 9
    case _ => true
  }

  /** An empty capture cannot be written: its brackets would capture the position. */
  predicate Written(xs: seq<Piece>) {
    xs != [] ==>
      && WrittenPiece(xs[0]) && Written(xs[1..])
      && (xs[0].Begin? && |xs| > 1 ==> !xs[1].Finish?)
  }

  // ---------------------------------------------------------------- reading it

  lemma ElemEnds(P: seq<byte>, p: nat, e: Elem)
    requires Lies(P, p, TextElem(e)) && WrittenElem(e)
    ensures var q := p + |TextElem(e)|;
            SetEnd(P, p) == if At(P, q) == 93 then Ends(q + 1) else SetEnd(P, q)
  {
    LiesAt(P, p, TextElem(e));
    assert At(P, p + 0) == TextElem(e)[0];
    assert |TextElem(e)| > 1 ==> At(P, p + 1) == TextElem(e)[1];
    assert |TextElem(e)| > 2 ==> At(P, p + 2) == TextElem(e)[2];
    if e.Range? {
      assert SetEnd(P, p) == SetEnd(P, p + 1);
      assert SetEnd(P, p + 1) == SetEnd(P, p + 2);
    }
  }

  /** A set ends at the bracket behind its elements. */
  lemma {:induction false} ElemsEnd(P: seq<byte>, p: nat, elems: seq<Elem>)
    requires elems != [] && Lies(P, p, TextElems(elems)) && At(P, p + |TextElems(elems)|) == 93
    requires forall i | 0 <= i < |elems| :: WrittenElem(elems[i])
    ensures SetEnd(P, p) == Ends(p + |TextElems(elems)| + 1)
    decreases |elems|
  {
    hide TextElem, WrittenElem, Lies, SetEnd;
    var e, rest := elems[0], elems[1..];
    LiesSplit(P, p, TextElem(e), TextElems(rest));
    ElemEnds(P, p, e);
    if rest != [] {
      ElemHead(P, p + |TextElem(e)|, rest[0]) by {
        LiesSplit(P, p + |TextElem(e)|, TextElem(rest[0]), TextElems(rest[1..]));
      }
      ElemsEnd(P, p + |TextElem(e)|, rest);
    }
  }

  lemma SetEnds(P: seq<byte>, p: nat, negative: bool, elems: seq<Elem>)
    requires Lies(P, p, TextSet(negative, elems)) && WrittenSet(elems)
    ensures At(P, p) == 91 && ClassEnd(P, p) == Ends(p + |TextSet(negative, elems)|)
  {
    hide TextElem, TextElems, WrittenElem, SetEnd;
    var head: seq<byte> := [91] + (if negative then [94] else []);
    var q := p + |head|;
    assert TextSet(negative, elems) == head + (TextElems(elems) + [93]);
    LiesSplit(P, p, head, TextElems(elems) + [93]);
    LiesSplit(P, q, TextElems(elems), [93]);
    LiesAt(P, p, head);
    LiesAt(P, q + |TextElems(elems)|, [93]);
    assert At(P, p + 0) == head[0] && At(P, q + |TextElems(elems)| + 0) == 93;
    assert negative ==> At(P, p + 1) == head[1];
    ElemsMean(P, q, elems, 0);
    ElemsEnd(P, q, elems);
  }

  /** A class ends where its text does, and matches what it admits. */
  lemma ClassReads(P: seq<byte>, p: nat, cls: Class)
    requires Lies(P, p, TextClass(cls)) && WrittenClass(cls)
    ensures At(P, p) != 0 && ClassEnd(P, p) == Ends(p + |TextClass(cls)|)
    ensures forall c :: SingleMatch(P, p, p + |TextClass(cls)|, c) <==> Admits(cls, c)
    ensures ClassHead(P, p)
  {
    hide MatchSet, MatchClass, SetEnd, TextSet, SetAdmits, WrittenSet, Belongs, RangesOf;
    LiesAt(P, p, TextClass(cls));
    match cls
    case Char(x) =>
      assert At(P, p + 0) == TextChar(x)[0];
      assert |TextChar(x)| > 1 ==> At(P, p + 1) == TextChar(x)[1];
      forall c ensures MatchClass(c, x) && !IsAlnum(x) <==> c == x && !IsAlnum(x) {
        ClassMeans(x, c);
        NoLetter(x);
      }
    case Any => assert At(P, p + 0) == 46;
    case Named(l) =>
      assert At(P, p + 0) == ESC && At(P, p + 1) == l;
      Letters(l);
      forall c ensures MatchClass(c, l) <==> Belongs(l, c) {
        ClassMeans(l, c);
      }
    case OneOf(negative, elems) =>
      SetEnds(P, p, negative, elems);
      forall c ensures MatchSet(P, p, p + |TextSet(negative, elems)| - 1, c) <==> SetAdmits(negative, elems, c) {
        SetMeans(P, p, negative, elems, c);
      }
  }

  lemma NoLetter(x: byte)
    ensures IsClassLetter(x) ==> IsAlnum(x)
  {
  }

  lemma Letters(l: byte)
    requires IsClassLetter(l)
    ensures IsAlpha(l) && l != 98 && l != 102
  {
  }

  /** What a class starts with is not taken for another item. */
  predicate ClassHead(P: seq<byte>, p: nat) {
    var c, d := At(P, p), At(P, p + 1);
    && Apart(c) && c != 40 && c != 41 && c != 36 && c != 0
    && (c == ESC ==> d != 98 && d != 102 && !IsDigit(d))
  }

  /** Not a sign for repetitions, nor `^`. */
  predicate Apart(c: byte) { c != 63 && c != 42 && c != 43 && c != 45 && c != 94 }

  /** The item that a piece is meant to be. */
  predicate Stands(P: seq<byte>, p: nat, x: Piece, next: nat, i: Item) {
    match x
    case Times(cls, rep) =>
      && i == Single(p, p + |TextClass(cls)|, rep, next) && (!rep.Once? ==> next == p + |TextClass(cls)| + 1)
      && forall c :: SingleMatch(P, p, p + |TextClass(cls)|, c) <==> Admits(cls, c)
    case Begin => i == Open(false, next)
    case Finish => i == Close(next)
    case Here => i == Open(true, next)
    case Between(b, e) => i == Balance(b, e, next)
    case Edge(negative, elems) =>
      i == Frontier(p + 2, next) && next > 0 && forall c :: MatchSet(P, p + 2, next - 1, c) <==> SetAdmits(negative, elems, c)
    case Again(n) => i.BackRef? && i.next == next && i.digit as int == 48 + n
  }

  lemma TimesReads(P: seq<byte>, p: nat, cls: Class, rep: Repetition)
    requires var q := p + |TextClass(cls)|;
             Lies(P, p, TextClass(cls)) && Lies(P, q, TextTimes(rep)) && WrittenClass(cls) && Apart(At(P, q + |TextTimes(rep)|))
    ensures Stands(P, p, Times(cls, rep), p + |TextClass(cls)| + |TextTimes(rep)|, ItemAt(P, p)) && Apart(At(P, p)) && At(P, p) != 41
  {
    hide TextClass, Lies, ClassEnd, SingleMatch, Admits;
    var q := p + |TextClass(cls)|;
    ClassReads(P, p, cls);
    LiesAt(P, q, TextTimes(rep));
    assert !rep.Once? ==> At(P, q + 0) == TextTimes(rep)[0];
  }

  lemma PieceReads(P: seq<byte>, p: nat, x: Piece)
    requires Lies(P, p, TextPiece(x)) && WrittenPiece(x)
    requires Apart(At(P, p + |TextPiece(x)|)) && (x.Begin? ==> At(P, p + 1) != 41)
    ensures Stands(P, p, x, p + |TextPiece(x)|, ItemAt(P, p)) && Apart(At(P, p)) && (At(P, p) == 41 <==> x.Finish?)
  {
    hide TextSet, TextClass, SetAdmits, MatchSet, ClassEnd, SingleMatch, Admits, WrittenSet, WrittenClass, SetEnd;
    var T := TextPiece(x);
    if x.Times? {
      LiesSplit(P, p, TextClass(x.cls), TextTimes(x.rep));
      TimesReads(P, p, x.cls, x.rep);
    } else {
      LiesAt(P, p, T);
      assert At(P, p + 0) == T[0];
      assert |T| > 1 ==> At(P, p + 1) == T[1];
      assert |T| > 2 ==> At(P, p + 2) == T[2];
      assert |T| > 3 ==> At(P, p + 3) == T[3];
      if x.Edge? {
        var head: seq<byte> := [ESC, 102];
        LiesSplit(P, p, head, TextSet(x.negative, x.elems));
        SetEnds(P, p + 2, x.negative, x.elems);
        forall c ensures MatchSet(P, p + 2, p + |T| - 1, c) <==> SetAdmits(x.negative, x.elems, c) {
          SetMeans(P, p + 2, x.negative, x.elems, c);
        }
      }
    }
  }

  /** The pattern is written from `p` on, up to its end. */
  predicate Reads(P: seq<byte>, p: nat, xs: seq<Piece>, anchored: bool) {
    Lies(P, p, Text(xs, anchored)) && p + |Text(xs, anchored)| == |P| && Written(xs)
  }

  /** The next item is the next piece, and the rest of the pattern is the rest. */
  lemma {:induction false} NextReads(P: seq<byte>, p: nat, xs: seq<Piece>, anchored: bool)
    requires Reads(P, p, xs, anchored)
    ensures Apart(At(P, p)) && (At(P, p) == 41 <==> xs != [] && xs[0].Finish?)
    ensures xs == [] ==> ItemAt(P, p) == if anchored then AtEnd else Item.End
    ensures xs != [] ==> Stands(P, p, xs[0], p + |TextPiece(xs[0])|, ItemAt(P, p)) && Reads(P, p + |TextPiece(xs[0])|, xs[1..], anchored)
    decreases |xs|
  {
    hide TextPiece, WrittenPiece, Stands, Lies;
    if xs == [] {
      EndReads(P, p, anchored);
    } else {
      var x, q := xs[0], p + |TextPiece(xs[0])|;
      LiesSplit(P, p, TextPiece(x), Text(xs[1..], anchored));
      NextReads(P, q, xs[1..], anchored);
      BeginText(x);
      PieceReads(P, p, x);
    }
  }

  lemma BeginText(x: Piece)
    ensures x.Begin? ==> |TextPiece(x)| == 1
  {
  }

  lemma EndReads(P: seq<byte>, p: nat, anchored: bool)
    requires Reads(P, p, [], anchored)
    ensures ItemAt(P, p) == (if anchored then AtEnd else Item.End) && Apart(At(P, p)) && At(P, p) != 41
  {
    LiesAt(P, p, Text([], anchored));
    assert anchored ==> At(P, p + 0) == 36;
  }
}
