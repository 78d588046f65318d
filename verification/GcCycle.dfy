/**
 What a step of the collector promises, what whole cycles add up to, and why a
 full collection is exact.
 */
module GcCycle {
  import opened GcHeap
  import opened GcColours
  import opened GcEdits
  import opened GcState

  /** One step, by the phase it starts in. The marks stay in `r` when `r` is
      closed and holds the roots; sweeping frees dead objects only. */
  ghost predicate StepOf(s: State, s': State, r: set<Id>) {
    && s'.mainthread == s.mainthread && Roots(s') == Roots(s)
    && match s.gcstate
       case Pause =>
         && s'.gcstate == Propagate && s'.heap == s.heap && s'.currentwhite == s.currentwhite
         && forall x | NonWhite(s'.marked, x) :: x in r
       case Propagate =>
         && s'.heap == s.heap
         && if s'.gcstate == Propagate then
              && s'.currentwhite == s.currentwhite
              && forall x | NonWhite(s'.marked, x) :: x in r
            else
              && s'.gcstate == SweepString && s'.currentwhite == OtherWhite(s.currentwhite)
              && forall x | Live(s'.marked, s'.currentwhite, x) :: x in r
       case Finalize =>
         s'.gcstate == Pause && s'.heap == s.heap && s'.marked == s.marked && s'.currentwhite == s.currentwhite
       case _ =>
         && s'.currentwhite == s.currentwhite
         && Swept(s.heap, s.marked, s'.heap, s'.marked, s.currentwhite, s.mainthread)
         && PhaseRank(s'.gcstate) <= PhaseRank(s.gcstate) && s'.gcstate != Pause
  }

  /** The order in which a cycle goes through the phases. */
  function PhaseRank(p: Phase): nat {
    match p
    case Propagate => 4
    case SweepString => 3
    case Sweep => 2
    case Finalize => 1
    case Pause => 0
  }

  ghost function Work(s: State): nat {
    match s.gcstate
    case Propagate => |s.gray| + Whites(s.marked)
    case SweepString => if s.sweepstrgc < |s.strt| then |s.strt| - s.sweepstrgc else 0
    case Sweep => |s.heap|
    case _ => 0
  }

  ghost function Rest(s: State): nat {
    if s.gcstate == Sweep && s.sweepgc < |s.rootgc| then |s.rootgc| - s.sweepgc else 0
  }

  /** A step brings the cycle nearer to its end. */
  ghost predicate Nearer(s: State, s': State) {
    s.gcstate != Pause ==>
      || PhaseRank(s'.gcstate) < PhaseRank(s.gcstate)
      || (s'.gcstate == s.gcstate && (Work(s') < Work(s) || (Work(s') == Work(s) && Rest(s') < Rest(s))))
  }

  ghost function ReachSet(s: State): set<Id> {
    set x | x in s.heap && Reach(s.heap, Roots(s), x)
  }

  lemma ReachSetOk(s: State)
    requires Core(s)
    ensures Roots(s) <= ReachSet(s) && ClosedUnder(s.heap, ReachSet(s))
    ensures forall x | Reach(s.heap, Roots(s), x) :: x in ReachSet(s)
    ensures forall x | x in ReachSet(s) :: Live(s.marked, s.currentwhite, x)
  {
    hide Core, Children, Reach, Roots;
    forall x | Reach(s.heap, Roots(s), x) ensures x in ReachSet(s) && Live(s.marked, s.currentwhite, x) {
      ReachableIsLive(s, x);
    }
    forall x | x in Roots(s) ensures x in ReachSet(s) {
      ReachRoot(s.heap, Roots(s), x);
    }
    forall x | x in ReachSet(s) ensures Children(s.heap, x) <= ReachSet(s) {
      forall y | y in Children(s.heap, x) ensures y in ReachSet(s) {
        ReachStep(s.heap, Roots(s), x, y);
      }
    }
  }

  /** The same program state, as far as it can see: the reachable objects and
      their references, and the fixed objects. */
  ghost predicate SameWorld(s: State, s': State, reach: set<Id>) {
    && s'.mainthread == s.mainthread && Roots(s') == Roots(s)
    && s'.heap.Keys <= s.heap.Keys
    && (forall x | x in reach :: x in s.heap && x in s'.heap && Fields(s'.heap, x) == Fields(s.heap, x))
    && (forall x | x in s.heap && Fixed(s.heap, s.mainthread, x) :: x in s'.heap)
    && (forall x | x in s'.heap :: Fixed(s'.heap, s.mainthread, x) == Fixed(s.heap, s.mainthread, x))
  }

  lemma SameWorldTrans(s0: State, s1: State, s2: State, reach: set<Id>)
    requires SameWorld(s0, s1, reach) && SameWorld(s1, s2, reach)
    ensures SameWorld(s0, s2, reach)
  {
    hide Fields;
  }

  lemma SameWorldReach(s: State, s': State)
    requires Core(s) && SameWorld(s, s', ReachSet(s))
    ensures ReachSet(s') == ReachSet(s)
    ensures forall x :: Reach(s.heap, Roots(s), x) <==> Reach(s'.heap, Roots(s'), x)
  {
    hide Core, Fields, Reach, Roots, Ids, ClosedUnder, Fixed, Live;
    ReachSetOk(s);
    forall x ensures Reach(s.heap, Roots(s), x) <==> Reach(s'.heap, Roots(s'), x) {
      forall y | Reach(s.heap, Roots(s), y) ensures Children(s'.heap, y) == Children(s.heap, y) {
        assert y in ReachSet(s) && Fields(s'.heap, y) == Fields(s.heap, y);
      }
      ReachSame(s.heap, s'.heap, Roots(s), x);
    }
  }

  lemma StepKeepsWorld(s: State, s': State, r: set<Id>)
    requires Inv(s) && StepOf(s, s', r)
    ensures SameWorld(s, s', ReachSet(s))
  {
    hide Fields, Roots, Reach, Core, PhaseOk, ClosedUnder, Live, NonWhite, ReachSet, SameObject;
    ReachSetOk(s);
    KeysAre(s, s');
    if s.gcstate == SweepString || s.gcstate == Sweep {
      forall x | x in s'.heap ensures Fixed(s'.heap, s.mainthread, x) == Fixed(s.heap, s.mainthread, x) {
        SameFixed(s.heap, s'.heap, s.mainthread, x);
      }
    }
  }

  lemma SameFixed(h: Heap, h': Heap, main: Id, x: Id)
    requires x in h && x in h' && SameObject(h[x], h'[x])
    ensures Fixed(h', main, x) == Fixed(h, main, x)
  {
  }

  lemma KeysAre(s: State, s': State)
    requires Core(s)
    ensures forall x | Live(s.marked, s.currentwhite, x) :: x in s.heap
  {
  }

  /** A cycle that began, all white, in `s`: what is neither reachable nor fixed
      is not marked, and once the whites have changed it is dead until it goes. */
  ghost predicate Cycle(s: State, s': State) {
    && SameWorld(s, s', ReachSet(s))
    && if s'.gcstate == Propagate then
         s'.heap.Keys == s.heap.Keys && forall x | NonWhite(s'.marked, x) :: x in ReachSet(s)
       else
         forall x | x in s'.heap && x !in ReachSet(s) && !Fixed(s.heap, s.mainthread, x) ::
           !Live(s'.marked, s'.currentwhite, x)
  }

  lemma CycleStep(s: State, s1: State, s2: State)
    requires Inv(s) && Inv(s1) && Inv(s2) && Cycle(s, s1) && s1.gcstate != Pause
    requires StepOf(s1, s2, ReachSet(s))
    ensures Cycle(s, s2)
  {
    SameWorldReach(s, s1);
    StepKeepsWorld(s1, s2, ReachSet(s));
    SameWorldTrans(s, s1, s2, ReachSet(s));
    hide Inv, Fields, Roots, Reach, ReachSet;
    if s2.gcstate != Propagate {
      forall x | x in s2.heap && x !in ReachSet(s) && !Fixed(s.heap, s.mainthread, x)
        ensures !Live(s2.marked, s2.currentwhite, x)
      {
        if s1.gcstate != Propagate {
          assert x in s1.heap && !Live(s1.marked, s1.currentwhite, x);
          InvMarks(s1, s2);
        }
      }
    } else {
      InvMarks(s1, s2);
    }
  }

  lemma InvMarks(s: State, s': State)
    requires Inv(s) && Inv(s')
    ensures s.marked.Keys == s.heap.Keys && s'.marked.Keys == s'.heap.Keys
  {
  }

  /** At the end of the cycle only the reachable and the fixed are left. */
  lemma CycleDone(s: State, s': State)
    requires Inv(s) && Inv(s') && Cycle(s, s') && s'.gcstate == Pause
    ensures s'.heap.Keys == set x | x in s.heap && (x in ReachSet(s) || Fixed(s.heap, s.mainthread, x))
    ensures AllWhite(s'.marked, s'.currentwhite)
  {
    hide Fields, Roots, Reach, ReachSet, Owned, LiveClosed;
    forall x | x in s'.heap ensures x in ReachSet(s) || Fixed(s.heap, s.mainthread, x) {
      assert Live(s'.marked, s'.currentwhite, x);
    }
  }

  /** Abandoning a cycle before the whites change: everything will be swept over
      and nothing is dead. */
  lemma Abandon(s: State, s': State)
    requires Inv(s) && (s.gcstate == Pause || s.gcstate == Propagate)
    requires s' == s.(sweepstrgc := 0, sweepgc := 0, gray := [], grayagain := [], gcstate := SweepString)
    ensures Inv(s') && SameWorld(s, s', ReachSet(s))
    ensures NoDead(s'.marked, s'.currentwhite)
  {
    hide Rooted, OpenLists, OpenHomes, AllOpen, LiveClosed, ColourOk, Reach, Fields;
    assert Roots(s') == Roots(s);
  }
}
