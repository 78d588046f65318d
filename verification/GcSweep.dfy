/**
 The sweep phases and the write barriers, as changes of the state.
 */
module GcSweep {
  import opened GcHeap
  import opened GcColours
  import opened GcEdits
  import opened GcState

  // ---------------------------------------------------------------- write barriers

  lemma StoreFields(s: State, o: Id, fields: seq<Value>)
    requires Inv(s) && o in s.heap && s.heap[o].Block?
    requires forall y | y in Ids(fields) :: y in Children(s.heap, o) || Live(s.marked, s.currentwhite, y)
    ensures var s' := s.(heap := s.heap[o := s.heap[o].(fields := fields)]);
            Core(s') && PhaseOk(s', {o})
  {
    hide Rooted, Interned, OpenLists, AllOpen, LiveClosed, ColourOk, PhaseOk, Ids, Live;
    var h' := s.heap[o := s.heap[o].(fields := fields)];
    assert forall x | x in s.heap && x != o :: Fields(h', x) == Fields(s.heap, x);
    StoreCore(s, h');
    StorePhase(s, h', o);
  }

  lemma StoreStack(s: State, t: Id, stack: seq<Value>)
    requires Inv(s) && t in s.heap && s.heap[t].Thread?
    requires forall y | y in Ids(stack) :: Live(s.marked, s.currentwhite, y)
    requires forall u | u in s.heap[t].openupval :: IsOpen(s.heap, u) && s.heap[u].slot < |stack|
    ensures Inv(s.(heap := s.heap[t := s.heap[t].(stack := stack)]))
  {
    var h' := s.heap[t := s.heap[t].(stack := stack)];
    assert OpenList(s.heap, t, s.heap[t].openupval);
    assert OpenHomes(h');
    StackNew(s, t, stack);
    StackColour(s, t);
    hide Rooted, Interned, OpenLists, OpenHomes, AllOpen, LiveClosed, ColourOk, PhaseOk, Ids, Live, NewLive;
    assert OnlyAt(s.heap, h', t);
    StoreCore(s, h');
    StorePhase(s, h', t);
    NoBarrier(s.(heap := h'), t);
  }

  /** A store through an open upvalue writes a slot of a thread that may be dead. */
  lemma StoreSlot(s: State, t: Id, i: nat, v: Value)
    requires Inv(s) && t in s.heap && s.heap[t].Thread? && i < |s.heap[t].stack|
    requires v.Ref? ==> Live(s.marked, s.currentwhite, v.id)
    ensures Inv(s.(heap := s.heap[t := s.heap[t].(stack := s.heap[t].stack[i := v])]))
  {
    var h' := s.heap[t := s.heap[t].(stack := s.heap[t].stack[i := v])];
    assert OpenHomes(h');
    SlotNew(s, t, i, v);
    StackColour(s, t);
    hide Rooted, Interned, OpenLists, OpenHomes, AllOpen, LiveClosed, ColourOk, PhaseOk, Ids, Live, NewLive;
    assert OnlyAt(s.heap, h', t);
    StoreCore(s, h');
    StorePhase(s, h', t);
    NoBarrier(s.(heap := h'), t);
  }

  lemma SlotNew(s: State, t: Id, i: nat, v: Value)
    requires Core(s) && t in s.heap && s.heap[t].Thread? && i < |s.heap[t].stack|
    requires v.Ref? ==> Live(s.marked, s.currentwhite, v.id)
    ensures NewLive(s, s.heap[t := s.heap[t].(stack := s.heap[t].stack[i := v])])
  {
    hide Rooted, Interned, OpenLists, OpenHomes, AllOpen, LiveClosed, ColourOk, Live;
    var h' := s.heap[t := s.heap[t].(stack := s.heap[t].stack[i := v])];
    forall x, y | x in s.heap && Live(s.marked, s.currentwhite, x) && y in Children(h', x)
      ensures y in Children(s.heap, x) || Live(s.marked, s.currentwhite, y)
    {
      if IsOpen(s.heap, x) && s.heap[x].thread == t {
        assert s.heap[x].slot < |s.heap[t].stack| ==> Fields(h', x) == [h'[t].stack[s.heap[x].slot]];
        assert s.heap[x].slot < |s.heap[t].stack| && s.heap[x].slot != i ==> Fields(h', x) == Fields(s.heap, x);
      } else if x != t {
        assert Fields(h', x) == Fields(s.heap, x);
      }
    }
  }

  lemma StackColour(s: State, t: Id)
    requires Core(s) && t in s.heap && s.heap[t].Thread?
    ensures t in s.marked && s.marked[t] != Black
  {
  }

  lemma StackNew(s: State, t: Id, stack: seq<Value>)
    requires Core(s) && t in s.heap && s.heap[t].Thread?
    requires forall y | y in Ids(stack) :: Live(s.marked, s.currentwhite, y)
    ensures NewLive(s, s.heap[t := s.heap[t].(stack := stack)])
  {
    hide Rooted, Interned, OpenLists, OpenHomes, AllOpen, LiveClosed, ColourOk, Live;
    var h' := s.heap[t := s.heap[t].(stack := stack)];
    forall x, y | x in s.heap && Live(s.marked, s.currentwhite, x) && y in Children(h', x)
      ensures y in Children(s.heap, x) || Live(s.marked, s.currentwhite, y)
    {
      if IsOpen(s.heap, x) && s.heap[x].thread == t {
        assert s.heap[x].slot < |stack| ==> Fields(h', x) == [stack[s.heap[x].slot]];
      } else if x != t {
        assert Fields(h', x) == Fields(s.heap, x);
      }
    }
  }

  lemma BarrierBackOk(s: State, o: Id)
    requires Core(s) && PhaseOk(s, {o}) && o in s.heap && s.marked[o].Black? && s.heap[o].Block? && s.heap[o].kind.Table?
    ensures Inv(s.(marked := s.marked[o := Gray], grayagain := [o] + s.grayagain))
  {
    var s' := s.(marked := s.marked[o := Gray], grayagain := [o] + s.grayagain);
    hide Rooted, Interned, OpenLists, OpenHomes, AllOpen, Fields, Ids;
    LiveClosedKept(s.heap, s.marked, s'.heap, s'.marked, s.currentwhite);
    assert Roots(s') == Roots(s);
    PhaseRepaint(s, s', o);
  }

  lemma PhaseRepaint(s: State, s': State, o: Id)
    requires ColourOk(s.heap, s.marked) && PhaseOk(s, {o}) && o in s.heap && s.marked[o].Black?
    requires || (s' == s.(marked := s.marked[o := Gray], grayagain := [o] + s.grayagain)
                 && s.heap[o].Block? && s.heap[o].kind.Table?)
             || (!s.gcstate.Propagate? && s' == s.(marked := s.marked[o := s.currentwhite]))
    ensures PhaseOk(s', {})
  {
    hide Fields, Ids, PropagateOk;
    if s.gcstate.Propagate? {
      RepaintedGray(s, o);
    } else if s.gcstate.Sweep? {
      forall i | 0 <= i < s'.sweepgc ensures SweptRoot(s'.heap, s'.marked, s'.currentwhite, s'.rootgc[i]) {
        assert SweptRoot(s.heap, s.marked, s.currentwhite, s.rootgc[i]);
      }
      forall y | IsString(s'.heap, y) ensures IsCurrent(s'.marked, s'.currentwhite, y) {
        assert IsCurrent(s.marked, s.currentwhite, y);
      }
    } else if s.gcstate.SweepString? {
      forall b, y | 0 <= b < s.sweepstrgc && y in s'.strt[b] ensures IsCurrent(s'.marked, s'.currentwhite, y) {
        assert IsCurrent(s.marked, s.currentwhite, y);
      }
    }
  }

  lemma RepaintedGray(s: State, o: Id)
    requires ColourOk(s.heap, s.marked) && PropagateOk(s, {o}) && o in s.heap && s.marked[o].Black?
    requires s.heap[o].Block? && s.heap[o].kind.Table?
    ensures PropagateOk(s.(marked := s.marked[o := Gray], grayagain := [o] + s.grayagain), {})
  {
    hide Fields, Ids;
    assert Elems([o] + s.grayagain) == Elems(s.grayagain) + {o};
  }

  /** While sweeping, the barrier makes the object white to avoid other barriers. */
  lemma BarrierWhiteOk(s: State, o: Id)
    requires Core(s) && PhaseOk(s, {o}) && o in s.heap && s.marked[o].Black? && !s.gcstate.Propagate?
    ensures Inv(s.(marked := s.marked[o := s.currentwhite]))
  {
    var s' := s.(marked := s.marked[o := s.currentwhite]);
    hide Rooted, Interned, OpenLists, OpenHomes, AllOpen, Fields, Ids;
    LiveClosedKept(s.heap, s.marked, s'.heap, s'.marked, s.currentwhite);
    assert Roots(s') == Roots(s);
    PhaseRepaint(s, s', o);
  }

  // ---------------------------------------------------------------- sweeping

  /** Sweeping over a survivor makes it white for the next cycle. */
  lemma Whiten(s: State, x: Id)
    requires Inv(s) && (s.gcstate.Sweep? || s.gcstate.SweepString?)
    requires x in s.heap && (Live(s.marked, s.currentwhite, x) || s.heap[x].String?)
    ensures var s' := s.(marked := s.marked[x := s.currentwhite]);
            && Inv(s')
            && ((Fixed(s.heap, s.mainthread, x) || Live(s.marked, s.currentwhite, x)) ==>
                  Swept(s.heap, s.marked, s'.heap, s'.marked, s.currentwhite, s.mainthread))
  {
    var s' := s.(marked := s.marked[x := s.currentwhite]);
    assert s.heap[x].String? ==> Children(s.heap, x) == {};
    hide Rooted, Interned, OpenLists, OpenHomes, AllOpen, Fields, Ids;
    LiveClosedKept(s.heap, s.marked, s'.heap, s'.marked, s.currentwhite);
    assert Roots(s') == Roots(s);
    WhitenPhase(s, x);
  }

  lemma WhitenPhase(s: State, x: Id)
    requires PhaseOk(s, {}) && (s.gcstate.Sweep? || s.gcstate.SweepString?)
    ensures PhaseOk(s.(marked := s.marked[x := s.currentwhite]), {})
  {
    var s' := s.(marked := s.marked[x := s.currentwhite]);
    if s.gcstate.Sweep? {
      forall i | 0 <= i < s'.sweepgc ensures SweptRoot(s'.heap, s'.marked, s'.currentwhite, s'.rootgc[i]) {
        assert SweptRoot(s.heap, s.marked, s.currentwhite, s.rootgc[i]);
      }
      forall y | IsString(s'.heap, y) ensures IsCurrent(s'.marked, s'.currentwhite, y) {
        assert IsCurrent(s.marked, s.currentwhite, y);
      }
    } else {
      forall b, y | 0 <= b < s.sweepstrgc && y in s'.strt[b] ensures IsCurrent(s'.marked, s'.currentwhite, y) {
        assert IsCurrent(s.marked, s.currentwhite, y);
      }
    }
  }

  lemma SweepStringFree(s: State, i: nat)
    requires Inv(s) && s.gcstate.SweepString? && s.sweepstrgc < |s.strt| && i < |s.strt[s.sweepstrgc]|
    requires var x := s.strt[s.sweepstrgc][i];
             x in s.marked && !Live(s.marked, s.currentwhite, x) && x in s.heap && s.heap[x].String? && !s.heap[x].fixed
    ensures var x := s.strt[s.sweepstrgc][i];
            var s' := s.(heap := s.heap - {x}, marked := s.marked - {x},
                         strt := s.strt[s.sweepstrgc := Cut(s.strt[s.sweepstrgc], i)]);
            Inv(s') && Swept(s.heap, s.marked, s'.heap, s'.marked, s.currentwhite, s.mainthread)
  {
    var x := s.strt[s.sweepstrgc][i];
    var s' := s.(heap := s.heap - {x}, marked := s.marked - {x},
                 strt := s.strt[s.sweepstrgc := Cut(s.strt[s.sweepstrgc], i)]);
    FreeString(s.heap, s.marked, s.currentwhite, s.mainthread, s.rootgc, s.strt, s.uvhead, s.sweepstrgc, i);
    hide Rooted, Interned, OpenLists, OpenHomes, AllOpen, LiveClosed, Fields, Ids, ColourOk;
    assert Roots(s') == Roots(s);
    forall b, y | 0 <= b < s.sweepstrgc && y in s'.strt[b] ensures IsCurrent(s'.marked, s'.currentwhite, y) {
      assert IsCurrent(s.marked, s.currentwhite, y);
    }
  }

  lemma NextBucket(s: State)
    requires Inv(s) && s.gcstate.SweepString? && s.sweepstrgc < |s.strt|
    requires forall x | x in s.strt[s.sweepstrgc] :: IsCurrent(s.marked, s.currentwhite, x)
    ensures s.sweepstrgc + 1 < |s.strt| ==> Inv(s.(sweepstrgc := s.sweepstrgc + 1))
    ensures s.sweepstrgc + 1 == |s.strt| ==> Inv(s.(sweepstrgc := s.sweepstrgc + 1, gcstate := Sweep))
  {
    hide Rooted, OpenLists, OpenHomes, AllOpen, LiveClosed, ColourOk, Live;
    assert Roots(s.(sweepstrgc := s.sweepstrgc + 1)) == Roots(s);
    assert Roots(s.(sweepstrgc := s.sweepstrgc + 1, gcstate := Sweep)) == Roots(s);
    if s.sweepstrgc + 1 == |s.strt| {
      forall x | IsString(s.heap, x) ensures IsCurrent(s.marked, s.currentwhite, x) {
        var b := s.heap[x].hash % |s.strt|;
        assert Bucket(s.heap, |s.strt|, b, s.strt[b]);
        assert x in s.strt[b];
      }
    }
  }

  lemma SweepRootFree(s: State, i: nat)
    requires Inv(s) && s.gcstate.Sweep? && s.sweepgc <= i < |s.rootgc|
    requires var x := s.rootgc[i];
             && x in s.heap && !Live(s.marked, s.currentwhite, x) && x != s.mainthread
             && (s.heap[x].Thread? ==> s.heap[x].openupval == [])
    ensures var x := s.rootgc[i];
            var s' := s.(heap := s.heap - {x}, marked := s.marked - {x}, rootgc := Cut(s.rootgc, i));
            Inv(s') && Swept(s.heap, s.marked, s'.heap, s'.marked, s.currentwhite, s.mainthread)
  {
    hide Rooted, Interned, OpenLists, OpenHomes, AllOpen, LiveClosed, Fields, Ids, ColourOk, SweepOk, Owned, Swept;
    var x := s.rootgc[i];
    var s' := s.(heap := s.heap - {x}, marked := s.marked - {x}, rootgc := Cut(s.rootgc, i));
    RootIsNoString(s, i);
    FreeRoot(s.heap, s.marked, s.currentwhite, s.mainthread, s.rootgc, s.strt, s.uvhead, i);
    assert Roots(s') == Roots(s);
    FreedSweep(s, s', x);
  }

  lemma RootIsNoString(s: State, i: nat)
    requires Core(s) && i < |s.rootgc|
    ensures s.rootgc[i] in s.heap && !s.heap[s.rootgc[i]].String?
    ensures s.sweepgc <= i ==> Cut(s.rootgc, i)[..s.sweepgc] == s.rootgc[..s.sweepgc]
  {
    UnlinkRoot(s.heap, s.rootgc, i);
  }

  /** What was swept over stays so when an object behind is freed. */
  lemma FreedSweep(s: State, s': State, x: Id)
    requires SweepOk(s) && s'.heap == s.heap - {x} && s'.marked == s.marked - {x}
    requires s'.sweepgc == s.sweepgc <= |s'.rootgc| && s'.currentwhite == s.currentwhite
    requires s'.rootgc[..s.sweepgc] == s.rootgc[..s.sweepgc] && !Live(s.marked, s.currentwhite, x)
    ensures SweepOk(s')
  {
    hide Fields;
    forall j | 0 <= j < s'.sweepgc ensures SweptRoot(s'.heap, s'.marked, s'.currentwhite, s'.rootgc[j]) {
      assert s'.rootgc[j] == s'.rootgc[..s.sweepgc][j] == s.rootgc[j];
      assert SweptRoot(s.heap, s.marked, s.currentwhite, s.rootgc[j]);
    }
    forall y | IsString(s'.heap, y) ensures IsCurrent(s'.marked, s'.currentwhite, y) {
      assert IsCurrent(s.marked, s.currentwhite, y);
    }
  }

  lemma SweepRootKeep(s: State)
    requires Inv(s) && s.gcstate.Sweep? && s.sweepgc < |s.rootgc|
    requires SweptRoot(s.heap, s.marked, s.currentwhite, s.rootgc[s.sweepgc])
    ensures Inv(s.(sweepgc := s.sweepgc + 1))
  {
    hide Owned, LiveClosed, ColourOk, Live;
    assert Roots(s.(sweepgc := s.sweepgc + 1)) == Roots(s);
  }

  /** At the end of the sweep everything is of the current white. */
  lemma SweepDone(s: State)
    requires Inv(s) && s.gcstate.Sweep? && s.sweepgc == |s.rootgc|
    ensures Inv(s.(gcstate := Finalize))
  {
    forall x | x in s.marked ensures s.marked[x] == s.currentwhite {
      if IsRoot(s.heap, x) {
        assert x in s.rootgc;
        var i :| 0 <= i < |s.rootgc| && s.rootgc[i] == x;
        assert SweptRoot(s.heap, s.marked, s.currentwhite, s.rootgc[i]);
      } else if IsOpen(s.heap, x) {
        var t := s.heap[x].thread;
        assert IsRoot(s.heap, t) && t in s.rootgc;
        var i :| 0 <= i < |s.rootgc| && s.rootgc[i] == t;
        assert SweptRoot(s.heap, s.marked, s.currentwhite, s.rootgc[i]);
        assert OpenList(s.heap, t, s.heap[t].openupval);
      } else {
        assert IsString(s.heap, x);
      }
    }
    assert Roots(s.(gcstate := Finalize)) == Roots(s);
  }
}
