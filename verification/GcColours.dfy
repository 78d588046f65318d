/**
 Colours, gray lists and the tri-colour argument of the mark phase.
 */
module GcColours {
  import opened GcHeap

  datatype Phase = Pause | Propagate | SweepString | Sweep | Finalize

  function Elems<T>(s: seq<T>): set<T> { set x | x in s }

  /** The kinds that are threaded on the gray lists. */
  predicate Listable(o: Object) {
    o.Thread? || (o.Block? && (o.kind.Table? || o.kind.Function? || o.kind.Proto?))
  }

  /** The colour marking gives an object: userdata and closed upvalues skip gray. */
  function MarkedColour(o: Object): Colour {
    if o.Block? && !Listable(o) then Black else Gray
  }

  ghost predicate ColourOk(h: Heap, m: Marks) {
    && m.Keys == h.Keys
    && forall x | x in h && (h[x].Thread? || h[x].OpenUpval? || h[x].String?) :: m[x] != Black
  }

  ghost predicate NonWhite(m: Marks, x: Id) { x in m && !IsWhite(m[x]) }

  ghost predicate Live(m: Marks, cw: White, x: Id) { x in m && m[x] != OtherWhite(cw) }

  ghost predicate IsCurrent(m: Marks, cw: White, x: Id) { x in m && m[x] == cw }

  ghost predicate LiveClosed(h: Heap, m: Marks, cw: White) {
    forall x, y {:trigger y in Children(h, x)} | Live(m, cw, x) && y in Children(h, x) :: Live(m, cw, y)
  }

  ghost predicate NoDead(m: Marks, cw: White) {
    forall x | x in m :: m[x] != OtherWhite(cw)
  }

  /** Only objects in `pending` may be marked and still refer to a white object. */
  ghost predicate Tri(h: Heap, m: Marks, pending: set<Id>) {
    forall x, y {:trigger y in Children(h, x)} | NonWhite(m, x) && x !in pending && y in Children(h, x) :: NonWhite(m, y)
  }

  ghost predicate GrayLists(h: Heap, m: Marks, gray: seq<Id>, grayagain: seq<Id>) {
    && Distinct(gray) && Distinct(grayagain)
    && (forall x | x in gray :: x !in grayagain)
    && (forall x | x in gray || x in grayagain :: x in h && x in m && m[x].Gray? && Listable(h[x]))
    && (forall x | x in h && x in m && m[x].Gray? && Listable(h[x]) :: x in gray || x in grayagain)
  }

  ghost function Opens(h: Heap): set<Id> { set x | x in h && h[x].OpenUpval? }

  ghost function WhiteSet(m: Marks): set<Id> { set x | x in m && IsWhite(m[x]) }

  ghost function Whites(m: Marks): nat { |WhiteSet(m)| }

  /** What marking may do to the colours: white objects of `r` get their marked
      colour, everything else keeps its own. */
  ghost predicate Marked(h: Heap, m: Marks, m': Marks, r: set<Id>) {
    && m'.Keys == m.Keys
    && forall x | x in m ::
         m'[x] == m[x] || (IsWhite(m[x]) && x in r && x in h && m'[x] == MarkedColour(h[x]))
  }

  /** What holds throughout the mark phase, also in the middle of a step. */
  ghost predicate Marking(h: Heap, m: Marks, gray: seq<Id>, grayagain: seq<Id>) {
    && ColourOk(h, m) && GrayLists(h, m, gray, grayagain)
    && ClosedUnder(h, h.Keys)
  }

  /** Userdata and closed upvalues are never gray. */
  ghost predicate LeavesOk(h: Heap, m: Marks) {
    forall x | x in h && x in m && h[x].Block? && !Listable(h[x]) :: m[x] != Gray
  }

  /** What a stretch of marking may do: marks are never lost, and only objects
      of `r` gain one. */
  ghost predicate Progress(m: Marks, m': Marks, r: set<Id>) {
    && m'.Keys == m.Keys
    && (forall x | NonWhite(m, x) :: NonWhite(m', x))
    && (forall x | x in m && IsWhite(m[x]) :: m'[x] == m[x] || (x in r && NonWhite(m', x)))
  }

  ghost predicate AllWhite(m: Marks, cw: White) {
    forall x | x in m :: m[x] == cw
  }

  lemma PaintWhite(m: Marks, x: Id, c: Colour)
    requires x in m && IsWhite(m[x]) && !IsWhite(c)
    ensures Whites(m[x := c]) == Whites(m) - 1
  {
    assert WhiteSet(m[x := c]) == WhiteSet(m) - {x};
  }

  /** A white object that goes on no list gets a mark; until its references are
      marked too it is pending. */
  lemma PaintLeaf(h: Heap, m: Marks, gray: seq<Id>, grayagain: seq<Id>, o: Id, c: Colour, q: set<Id>)
    requires Marking(h, m, gray, grayagain)
    requires o in h && IsWhite(m[o]) && !Listable(h[o])
    requires !IsWhite(c) && (c.Black? ==> h[o].Block?)
    requires Tri(h, m, Elems(gray) + q)
    ensures Marking(h, m[o := c], gray, grayagain)
    ensures Tri(h, m[o := c], Elems(gray) + (q + {o}))
    ensures Whites(m[o := c]) == Whites(m) - 1
  {
    hide Children;
    PaintWhite(m, o, c);
  }

  /** The references of a painted object are marked: it is no longer pending. */
  lemma FinishLeaf(h: Heap, m0: Marks, m: Marks, gray: seq<Id>, grayagain: seq<Id>,
                   o: Id, c: Colour, q: set<Id>, r: set<Id>)
    requires o in h && o in m0 && IsWhite(m0[o]) && !Listable(h[o]) && o in r
    requires Marking(h, m, gray, grayagain)
    requires !IsWhite(c) && Marked(h, m0[o := c], m, r)
    requires Tri(h, m, Elems(gray) + (q + {o}))
    requires forall y | y in Children(h, o) :: NonWhite(m, y)
    ensures var m' := m[o := MarkedColour(h[o])];
            && Marking(h, m', gray, grayagain)
            && Marked(h, m0, m', r) && NonWhite(m', o)
            && Tri(h, m', Elems(gray) + q)
            && Whites(m') == Whites(m)
    ensures o in m && m[o] == c
  {
    hide Children, GrayLists, ColourOk;
    assert WhiteSet(m[o := MarkedColour(h[o])]) == WhiteSet(m);
    RepaintLists(h, m, gray, grayagain, o);
  }

  lemma RepaintLists(h: Heap, m: Marks, gray: seq<Id>, grayagain: seq<Id>, o: Id)
    requires ColourOk(h, m) && GrayLists(h, m, gray, grayagain)
    requires o in h && !Listable(h[o])
    ensures ColourOk(h, m[o := MarkedColour(h[o])]) && GrayLists(h, m[o := MarkedColour(h[o])], gray, grayagain)
  {
  }

  /** A white object of a listed kind goes gray and onto the gray list. */
  lemma PushGray(h: Heap, m: Marks, gray: seq<Id>, grayagain: seq<Id>, o: Id, q: set<Id>)
    requires Marking(h, m, gray, grayagain)
    requires o in h && IsWhite(m[o]) && Listable(h[o])
    requires Tri(h, m, Elems(gray) + q)
    ensures Marking(h, m[o := Gray], [o] + gray, grayagain)
    ensures Tri(h, m[o := Gray], Elems([o] + gray) + q)
    ensures Whites(m[o := Gray]) == Whites(m) - 1
  {
    hide Children;
    PaintWhite(m, o, Gray);
  }

  /** Taking a gray object off the list, black or (a thread) onto `grayagain`. */
  lemma PopGray(h: Heap, m: Marks, gray: seq<Id>, grayagain: seq<Id>, q: set<Id>)
    requires Marking(h, m, gray, grayagain) && gray != [] && LeavesOk(h, m)
    requires Tri(h, m, Elems(gray) + q)
    ensures var o := gray[0];
            && o in h && m[o].Gray? && Listable(h[o])
            && (h[o].Block? ==>
                  var m' := m[o := Black];
                  && Marking(h, m', gray[1..], grayagain) && LeavesOk(h, m')
                  && Tri(h, m', Elems(gray[1..]) + (q + {o}))
                  && Whites(m') == Whites(m))
            && (h[o].Thread? ==>
                  && Marking(h, m, gray[1..], [o] + grayagain)
                  && Tri(h, m, Elems(gray[1..]) + (q + {o})))
  {
    hide Children;
    var o := gray[0];
    assert o in gray && gray == [o] + gray[1..];
    assert WhiteSet(m[o := Black]) == WhiteSet(m);
    assert Elems(gray) <= Elems(gray[1..]) + {o};
  }

  /** The references of a traversed object are marked: it is no longer pending. */
  lemma FinishTraverse(h: Heap, m: Marks, gray: seq<Id>, o: Id, q: set<Id>)
    requires Tri(h, m, Elems(gray) + (q + {o}))
    requires forall y | y in Children(h, o) :: NonWhite(m, y)
    ensures Tri(h, m, Elems(gray) + q)
  {
  }

  lemma InDomain(h: Heap, m: Marks, gray: seq<Id>, grayagain: seq<Id>)
    requires Marking(h, m, gray, grayagain)
    ensures m.Keys == h.Keys
    ensures forall x | x in h :: Children(h, x) <= h.Keys
  {
  }

  lemma GrayHead(h: Heap, m: Marks, gray: seq<Id>, grayagain: seq<Id>)
    requires Marking(h, m, gray, grayagain) && gray != []
    ensures NonWhite(m, gray[0])
  {
  }

  lemma ClosedAt(h: Heap, r: set<Id>, o: Id)
    requires ClosedUnder(h, r) && o in r
    ensures Children(h, o) <= r
  {
  }

  lemma MarkedOne(h: Heap, m: Marks, o: Id, r: set<Id>)
    requires o in h && o in m && IsWhite(m[o]) && o in r && Listable(h[o])
    ensures Marked(h, m, m[o := Gray], r)
  {
  }

  lemma MarkedProgress(h: Heap, m0: Marks, m1: Marks, m2: Marks, o: Id, r: set<Id>)
    requires o in m0 && m0[o].Gray? && o in m1 && !IsWhite(m1[o]) && m1 == m0[o := m1[o]]
    requires Marked(h, m1, m2, r) && LeavesOk(h, m1)
    ensures Progress(m0, m2, r) && LeavesOk(h, m2)
  {
  }
}
