/**
 Marking as a change of the state: how the mark phase begins, runs and ends.
 */
module GcMark {
  import opened GcHeap
  import opened GcColours
  import opened GcState

  lemma StartMark(s: State)
    requires Core(s) && AllWhite(s.marked, s.currentwhite)
    ensures Marking(s.heap, s.marked, [], []) && LeavesOk(s.heap, s.marked)
    ensures Tri(s.heap, s.marked, Elems([]) + {})
    ensures NoDead(s.marked, s.currentwhite)
  {
    NoDeadClosed(s);
  }

  lemma InMarking(s: State)
    requires Inv(s) && s.gcstate.Propagate?
    ensures Marking(s.heap, s.marked, s.gray, s.grayagain) && LeavesOk(s.heap, s.marked)
    ensures Tri(s.heap, s.marked, Elems(s.gray) + (Elems(s.grayagain) + Opens(s.heap)))
    ensures NoDead(s.marked, s.currentwhite)
    ensures NonWhite(s.marked, s.mainthread) && NonWhite(s.marked, s.registry)
  {
    hide Children;
    assert Elems(s.gray) + (Elems(s.grayagain) + Opens(s.heap) + {}) == Elems(s.gray) + (Elems(s.grayagain) + Opens(s.heap));
    NoDeadClosed(s);
  }

  lemma MarkedIsProgress(h: Heap, m: Marks, m': Marks, r: set<Id>)
    requires Marked(h, m, m', r) && LeavesOk(h, m)
    ensures Progress(m, m', r) && LeavesOk(h, m')
  {
  }

  lemma ProgressTrans(m0: Marks, m1: Marks, m2: Marks, r: set<Id>)
    requires Progress(m0, m1, r) && Progress(m1, m2, r)
    ensures Progress(m0, m2, r)
  {
  }

  lemma ProgressIn(m: Marks, m': Marks, r: set<Id>)
    requires Progress(m, m', r) && forall x | NonWhite(m, x) :: x in r
    ensures forall x | NonWhite(m', x) :: x in r
  {
  }

  /** Marking keeps every fact that does not speak of colours. */
  lemma ProgressCore(s: State, m': Marks, r: set<Id>)
    requires Core(s) && NoDead(s.marked, s.currentwhite)
    requires Progress(s.marked, m', r) && ColourOk(s.heap, m')
    ensures Core(s.(marked := m')) && NoDead(m', s.currentwhite)
  {
    hide Owned, Children;
    var s' := s.(marked := m');
    assert Roots(s') == Roots(s);
    forall x | x in m' ensures Live(m', s.currentwhite, x) {
      if NonWhite(s.marked, x) {
        assert NonWhite(m', x);
      }
    }
    forall x, y | Live(m', s.currentwhite, x) && y in Children(s.heap, x) ensures Live(m', s.currentwhite, y) {
      assert Live(s.marked, s.currentwhite, x);
      assert Live(s.marked, s.currentwhite, y);
    }
  }

  lemma BackToPropagate(s: State, s': State, q: set<Id>, r: set<Id>)
    requires Core(s) && NoDead(s.marked, s.currentwhite)
    requires s' == s.(marked := s'.marked, gray := s'.gray, grayagain := s'.grayagain, gcstate := Propagate)
    requires Marking(s'.heap, s'.marked, s'.gray, s'.grayagain) && LeavesOk(s'.heap, s'.marked)
    requires Progress(s.marked, s'.marked, r)
    requires Tri(s'.heap, s'.marked, Elems(s'.gray) + q) && q <= Elems(s'.grayagain) + Opens(s'.heap)
    requires NonWhite(s'.marked, s'.mainthread) && NonWhite(s'.marked, s'.registry)
    ensures Inv(s')
  {
    hide Owned, Fields, Ids, GrayLists, LeavesOk;
    ProgressCore(s, s'.marked, r);
    assert Roots(s') == Roots(s);
  }

  /** Once nothing is pending, exchanging the whites makes exactly the marked objects live. */
  lemma Flip(s: State, s': State)
    requires Core(s) && NoDead(s.marked, s.currentwhite)
    requires Tri(s.heap, s.marked, {}) && forall x | x in Roots(s) :: NonWhite(s.marked, x)
    requires s' == s.(currentwhite := OtherWhite(s.currentwhite), sweepstrgc := 0, sweepgc := 0, gcstate := SweepString)
    ensures Inv(s')
    ensures forall x :: Live(s'.marked, s'.currentwhite, x) <==> NonWhite(s.marked, x)
  {
    hide Rooted, OpenLists, OpenHomes, AllOpen, Fields, Ids;
    assert Roots(s') == Roots(s);
  }
}
