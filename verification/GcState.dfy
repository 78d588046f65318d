/**
 The state of the collector as one value, the invariant of every run, and the
 lemmas that carry the invariant over each kind of change.
 */
module GcState {
  import opened GcHeap
  import opened GcColours
  import opened GcEdits

  datatype State = State(
    heap: Heap, marked: Marks,
    rootgc: seq<Id>, strt: seq<seq<Id>>, uvhead: seq<Id>,
    gray: seq<Id>, grayagain: seq<Id>,
    currentwhite: White, gcstate: Phase, sweepstrgc: nat, sweepgc: nat,
    mainthread: Id, registry: Id, running: Id, mt: seq<Value>)

  function Roots(s: State): set<Id> {
    {s.mainthread, s.registry, s.running} + Ids(s.mt)
  }

  ghost predicate RootsOk(s: State) {
    && s.mainthread in s.heap && s.heap[s.mainthread].Thread?
    && s.running in s.heap && s.heap[s.running].Thread?
    && forall x | x in Roots(s) :: Live(s.marked, s.currentwhite, x)
  }

  /** What holds in every phase: each object has one owner, and live objects
      (those not of the dying white) refer to live objects only. */
  ghost predicate Core(s: State) {
    && Owned(s.heap, s.rootgc, s.strt, s.uvhead)
    && ColourOk(s.heap, s.marked)
    && LiveClosed(s.heap, s.marked, s.currentwhite)
    && RootsOk(s)
  }

  ghost predicate PropagateOk(s: State, extra: set<Id>) {
    && NoDead(s.marked, s.currentwhite)
    && GrayLists(s.heap, s.marked, s.gray, s.grayagain)
    && LeavesOk(s.heap, s.marked)
    && Tri(s.heap, s.marked, Elems(s.gray) + (Elems(s.grayagain) + Opens(s.heap) + extra))
    && NonWhite(s.marked, s.mainthread) && NonWhite(s.marked, s.registry)
  }

  ghost predicate SweptRoot(h: Heap, m: Marks, cw: White, x: Id) {
    && IsCurrent(m, cw, x)
    && (x in h && h[x].Thread? ==> forall u | u in h[x].openupval :: IsCurrent(m, cw, u))
  }

  ghost predicate SweepStringOk(s: State) {
    && s.sweepgc == 0 && s.sweepstrgc < |s.strt|
    && forall b, x | 0 <= b < s.sweepstrgc && x in s.strt[b] :: IsCurrent(s.marked, s.currentwhite, x)
  }

  ghost predicate SweepOk(s: State) {
    && s.sweepgc <= |s.rootgc|
    && (forall x | IsString(s.heap, x) :: IsCurrent(s.marked, s.currentwhite, x))
    && (forall i | 0 <= i < s.sweepgc :: SweptRoot(s.heap, s.marked, s.currentwhite, s.rootgc[i]))
  }

  /** What holds in each phase; in the mark phase, objects of `extra` may lack a barrier. */
  ghost predicate PhaseOk(s: State, extra: set<Id>) {
    match s.gcstate
    case Propagate => PropagateOk(s, extra)
    case SweepString => SweepStringOk(s)
    case Sweep => SweepOk(s)
    case _ => AllWhite(s.marked, s.currentwhite)
  }

  ghost predicate Inv(s: State) { Core(s) && PhaseOk(s, {}) }

  // ---------------------------------------------------------------- what the invariant gives

  ghost function LiveSet(s: State): set<Id> { set x | x in s.marked && Live(s.marked, s.currentwhite, x) }

  /** Safety: in every state of the invariant, everything reachable exists and
      is not of the dying white. */
  lemma ReachableIsLive(s: State, x: Id)
    requires Core(s) && Reach(s.heap, Roots(s), x)
    ensures x in s.heap && Live(s.marked, s.currentwhite, x)
  {
    assert ClosedUnder(s.heap, LiveSet(s)) by {
      hide Children;
      forall y, z | y in LiveSet(s) && z in Children(s.heap, y) ensures z in LiveSet(s) {}
    }
    ReachInClosed(s.heap, Roots(s), LiveSet(s), x);
  }

  /** The tri-colour invariant: in the mark phase no black object refers to a
      white one, and gray objects wait on a list, but for strings and open
      upvalues. */
  lemma TriColour(s: State, x: Id, y: Id)
    requires Inv(s) && s.gcstate.Propagate? && x in s.heap
    ensures s.marked[x].Black? && y in Children(s.heap, x) ==> y in s.marked && !IsWhite(s.marked[y])
    ensures s.marked[x].Gray? && !s.heap[x].String? && !s.heap[x].OpenUpval?
            ==> (x in s.gray) != (x in s.grayagain)
  {
    hide Children;
    if s.marked[x].Black? && y in Children(s.heap, x) {
      assert x !in Elems(s.gray) + (Elems(s.grayagain) + Opens(s.heap));
    }
  }

  lemma NoDeadClosed(s: State)
    requires Core(s) && NoDead(s.marked, s.currentwhite)
    ensures ClosedUnder(s.heap, s.heap.Keys)
  {
    hide Children;
    forall x | x in s.heap.Keys ensures Children(s.heap, x) <= s.heap.Keys {
      assert Live(s.marked, s.currentwhite, x);
      forall y | y in Children(s.heap, x) ensures y in s.heap { assert Live(s.marked, s.currentwhite, y); }
    }
  }

  // ---------------------------------------------------------------- stores

  ghost predicate SameShape(a: Object, b: Object) {
    match a
    case Block(kind, _) => b.Block? && b.kind == kind
    case Thread(_, open) => b.Thread? && b.openupval == open
    case _ => b == a
  }

  ghost predicate SameShapes(h: Heap, h': Heap) {
    h'.Keys == h.Keys && forall x | x in h :: SameShape(h[x], h'[x])
  }

  /** Only `o`, and the open upvalues that read through it, see other references. */
  ghost predicate OnlyAt(h: Heap, h': Heap, o: Id) {
    forall x | x in h && x != o && !IsOpen(h, x) :: Fields(h', x) == Fields(h, x)
  }

  /** Every reference that is new to an object is to a live object. */
  ghost predicate NewLive(s: State, h': Heap) {
    forall x, y {:trigger y in Children(h', x)} | x in s.heap && Live(s.marked, s.currentwhite, x) && y in Children(h', x) ::
      y in Children(s.heap, x) || Live(s.marked, s.currentwhite, y)
  }

  lemma StoreCore(s: State, h': Heap)
    requires Core(s) && SameShapes(s.heap, h') && OpenHomes(h') && NewLive(s, h')
    ensures Core(s.(heap := h'))
  {
    hide Children, NewLive, LiveClosed, Rooted, Interned, OpenLists, OpenHomes, AllOpen;
    RootedKept(s.heap, h', s.rootgc);
    InternedKept(s.heap, h', s.strt);
    StoreOpen(s.heap, h', s.uvhead);
    StoreLive(s, h');
  }

  lemma StoreOpen(h: Heap, h': Heap, uvhead: seq<Id>)
    requires OpenLists(h) && OpenHomes(h) && AllOpen(h, uvhead)
    requires SameShapes(h, h') && OpenHomes(h')
    ensures OpenLists(h') && AllOpen(h', uvhead)
  {
    assert forall u :: u in uvhead <==> IsOpen(h, u);
    forall t | t in h' && h'[t].Thread? ensures OpenList(h', t, h'[t].openupval) {
      assert OpenList(h, t, h[t].openupval);
    }
  }

  lemma StoreLive(s: State, h': Heap)
    requires Core(s) && h'.Keys == s.heap.Keys && NewLive(s, h')
    ensures LiveClosed(h', s.marked, s.currentwhite)
  {
    hide Children, Owned;
  }

  /** After a store into `o`, the phase invariant holds up to a missing barrier on `o`. */
  lemma StorePhase(s: State, h': Heap, o: Id)
    requires Inv(s) && SameShapes(s.heap, h') && OnlyAt(s.heap, h', o)
    ensures PhaseOk(s.(heap := h'), {o})
  {
    hide Owned, LiveClosed, RootsOk, Fields, Ids;
    assert forall x | x in h' :: Listable(h'[x]) == Listable(s.heap[x]) && h'[x].Block? == s.heap[x].Block?;
    if s.gcstate.Propagate? {
      assert Opens(h') == Opens(s.heap);
      StoreTri(s, h', o);
      assert GrayLists(h', s.marked, s.gray, s.grayagain);
      assert LeavesOk(h', s.marked);
    } else if s.gcstate.Sweep? {
      forall i | 0 <= i < s.sweepgc ensures SweptRoot(h', s.marked, s.currentwhite, s.rootgc[i]) {
        assert SweptRoot(s.heap, s.marked, s.currentwhite, s.rootgc[i]);
      }
    }
  }

  lemma StoreTri(s: State, h': Heap, o: Id)
    requires PropagateOk(s, {}) && SameShapes(s.heap, h') && OnlyAt(s.heap, h', o)
    requires Opens(h') == Opens(s.heap) && s.marked.Keys == s.heap.Keys
    ensures Tri(h', s.marked, Elems(s.gray) + (Elems(s.grayagain) + Opens(h') + {o}))
  {
    hide GrayLists, LeavesOk, NoDead, Fields, Ids, Elems;
    var p := Elems(s.gray) + (Elems(s.grayagain) + Opens(h') + {o});
    forall x, y | NonWhite(s.marked, x) && x !in p && y in Children(h', x) ensures NonWhite(s.marked, y) {
      assert Fields(h', x) == Fields(s.heap, x);
      assert y in Children(s.heap, x);
    }
  }

  /** No barrier is missing if `o` is not black or sees no white object. */
  lemma NoBarrier(s: State, o: Id)
    requires Core(s) && PhaseOk(s, {o}) && o in s.heap
    requires s.marked[o] != Black || forall y | y in Children(s.heap, o) :: NonWhite(s.marked, y)
    ensures Inv(s)
  {
    assert s.heap[o].String? ==> Children(s.heap, o) == {};
    hide Owned, LiveClosed, RootsOk, Children;
    if s.gcstate.Propagate? {
      var p := Elems(s.gray) + (Elems(s.grayagain) + Opens(s.heap) + {});
      assert s.marked[o].Gray? && Listable(s.heap[o]) ==> o in p;
      assert IsOpen(s.heap, o) ==> o in p;
      forall x, y | NonWhite(s.marked, x) && x !in p && y in Children(s.heap, x) ensures NonWhite(s.marked, y) {}
    }
  }
}
