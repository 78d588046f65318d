/**
 The changes a running program makes between collector steps: allocation,
 interning, capturing and closing upvalues. Each keeps the invariant.
 */
module GcMutate {
  import opened GcHeap
  import opened GcColours
  import opened GcEdits
  import opened GcState

  function Insert<T>(s: seq<T>, i: nat, x: T): seq<T>
    requires i <= |s|
  {
    s[..i] + [x] + s[i..]
  }

  lemma InsertElems<T(!new)>(s: seq<T>, i: nat, x: T)
    requires i <= |s|
    ensures forall y :: y in Insert(s, i, x) <==> y in s || y == x
    ensures Distinct(s) && x !in s ==> Distinct(Insert(s, i, x))
  {
    assert s == s[..i] + s[i..];
  }

  /** Links a new object into the root list. The sweep position is a link of that
      list: it moves along with the objects that already lie before it. */
  function LinkAt(s: State, x: Id, o: Object, pos: nat): State
    requires pos <= |s.rootgc|
  {
    s.(heap := s.heap[x := o], marked := s.marked[x := s.currentwhite],
       rootgc := Insert(s.rootgc, pos, x),
       sweepgc := if s.sweepgc > pos then s.sweepgc + 1 else s.sweepgc)
  }

  /** Old objects are untouched by a change that adds one. */
  ghost predicate Extends(h: Heap, h': Heap, x: Id) {
    && x !in h && h'.Keys == h.Keys + {x}
    && forall y | y in h ::
         && Fields(h', y) == Fields(h, y)
         && (if h[y].Thread? then h'[y].Thread? && h'[y].stack == h[y].stack else h'[y] == h[y])
  }

  lemma AddCore(s: State, h': Heap, x: Id)
    requires Core(s) && Extends(s.heap, h', x) && (h'[x].Block? || h'[x].Thread? || h'[x].OpenUpval? || h'[x].String?)
    requires forall y | y in Children(h', x) :: Live(s.marked, s.currentwhite, y)
    ensures LiveClosed(h', s.marked[x := s.currentwhite], s.currentwhite)
    ensures ColourOk(h', s.marked[x := s.currentwhite])
    ensures forall y | y in Roots(s) :: Live(s.marked[x := s.currentwhite], s.currentwhite, y)
  {
    hide Fields, Ids, Owned;
    LiveClosedKept(s.heap, s.marked, h', s.marked[x := s.currentwhite], s.currentwhite);
  }

  lemma AddPhase(s: State, h': Heap, x: Id)
    requires PropagateOk(s, {}) && s.marked.Keys == s.heap.Keys && Extends(s.heap, h', x)
    ensures PropagateOk(s.(heap := h', marked := s.marked[x := s.currentwhite]), {})
  {
    hide Fields, Ids, Tri;
    AddTri(s, h', x);
  }

  lemma AddTri(s: State, h': Heap, x: Id)
    requires PropagateOk(s, {}) && s.marked.Keys == s.heap.Keys && Extends(s.heap, h', x)
    ensures Tri(h', s.marked[x := s.currentwhite], Elems(s.gray) + (Elems(s.grayagain) + Opens(h') + {}))
  {
    hide Fields, Ids, GrayLists, LeavesOk, Elems;
    var m' := s.marked[x := s.currentwhite];
    assert Opens(s.heap) <= Opens(h');
    forall y, z | NonWhite(m', y) && y !in Elems(s.gray) + (Elems(s.grayagain) + Opens(h') + {}) && z in Children(h', y)
      ensures NonWhite(m', z)
    {
      assert z in Children(s.heap, y) && NonWhite(s.marked, y);
      assert NonWhite(s.marked, z);
    }
  }

  lemma Allocate(s: State, x: Id, o: Object, pos: nat)
    requires Inv(s) && x !in s.heap && pos <= |s.rootgc|
    requires o.Block? || (o.Thread? && o.openupval == [])
    requires forall v | v in Ids(if o.Block? then o.fields else o.stack) :: Live(s.marked, s.currentwhite, v)
    ensures Inv(LinkAt(s, x, o, pos))
  {
    hide Interned, Rooted, OpenLists, OpenHomes, AllOpen, LiveClosed, ColourOk, Extends, PhaseOk, Live;
    var s' := LinkAt(s, x, o, pos);
    AllocateExtends(s.heap, x, o);
    AddCore(s, s'.heap, x);
    AllocateOwned(s, x, o, pos);
    AllocatePhase(s, x, o, pos);
    assert Roots(s') == Roots(s);
  }

  lemma AllocatePhase(s: State, x: Id, o: Object, pos: nat)
    requires Inv(s) && x !in s.heap && pos <= |s.rootgc|
    requires o.Block? || (o.Thread? && o.openupval == [])
    requires Extends(s.heap, s.heap[x := o], x)
    ensures PhaseOk(LinkAt(s, x, o, pos), {})
  {
    hide Owned, LiveClosed, Extends;
    var s' := LinkAt(s, x, o, pos);
    if s.gcstate.Propagate? {
      AddPhase(s, s'.heap, x);
    } else if s.gcstate.Sweep? {
      forall i | 0 <= i < s'.sweepgc ensures SweptRoot(s'.heap, s'.marked, s'.currentwhite, s'.rootgc[i]) {
        if i != pos {
          var k := if i < pos then i else i - 1;
          assert s'.rootgc[i] == s.rootgc[k] && SweptRoot(s.heap, s.marked, s.currentwhite, s.rootgc[k]);
          assert s'.rootgc[i] in s.marked;
        }
      }
      assert forall y | IsString(s'.heap, y) :: IsString(s.heap, y);
    } else if s.gcstate.SweepString? {
      forall b, y | 0 <= b < s.sweepstrgc && y in s.strt[b] ensures IsCurrent(s'.marked, s'.currentwhite, y) {
        assert IsCurrent(s.marked, s.currentwhite, y);
      }
    }
  }

  lemma AllocateExtends(h: Heap, x: Id, o: Object)
    requires x !in h && OpenHomes(h) && (o.Block? || o.Thread?)
    ensures Extends(h, h[x := o], x)
  {
  }

  lemma AllocateOwned(s: State, x: Id, o: Object, pos: nat)
    requires Core(s) && x !in s.heap && pos <= |s.rootgc|
    requires o.Block? || (o.Thread? && o.openupval == [])
    ensures var s' := LinkAt(s, x, o, pos); Owned(s'.heap, s'.rootgc, s'.strt, s'.uvhead)
  {
    hide Interned, Rooted, OpenLists, OpenHomes, AllOpen, LiveClosed, ColourOk;
    var h' := s.heap[x := o];
    HomesAreThreads(s.heap);
    InternedKept(s.heap, h', s.strt);
    OpenKept(s.heap, h', s.uvhead);
    InsertRoot(s.heap, h', s.rootgc, pos, x);
  }

  lemma InsertRoot(h: Heap, h': Heap, rootgc: seq<Id>, pos: nat, x: Id)
    requires Rooted(h, rootgc) && pos <= |rootgc| && !IsRoot(h, x) && IsRoot(h', x)
    requires forall y | y != x :: IsRoot(h', y) <==> IsRoot(h, y)
    ensures Rooted(h', Insert(rootgc, pos, x))
  {
    assert forall y :: y in rootgc <==> IsRoot(h, y);
    InsertElems(rootgc, pos, x);
  }

  // ---------------------------------------------------------------- strings

  /** A new string enters the front of its bucket. */
  function InternAt(s: State, x: Id, hash: nat): State
    requires |s.strt| > 0
  {
    var b := hash % |s.strt|;
    s.(heap := s.heap[x := String(hash, false)], marked := s.marked[x := s.currentwhite],
       strt := s.strt[b := [x] + s.strt[b]])
  }

  lemma InternNew(s: State, x: Id, hash: nat)
    requires Inv(s) && x !in s.heap
    ensures |s.strt| > 0 && Inv(InternAt(s, x, hash))
  {
    hide OpenLists, OpenHomes, AllOpen, LiveClosed, ColourOk, PhaseOk, Rooted, Interned, Live, Extends, Children;
    HasBuckets(s.heap, s.strt);
    var s' := InternAt(s, x, hash);
    InternExtends(s.heap, x, hash);
    InternPhase(s, x, hash);
    InternBuckets(s, x, hash);
    AddCore(s, s'.heap, x);
    RootedKept(s.heap, s'.heap, s.rootgc);
    OpenKept(s.heap, s'.heap, s.uvhead);
    assert Roots(s') == Roots(s);
  }

  lemma HasBuckets(h: Heap, strt: seq<seq<Id>>)
    requires Interned(h, strt)
    ensures |strt| > 0
  {
  }

  lemma InternExtends(h: Heap, x: Id, hash: nat)
    requires x !in h && OpenHomes(h)
    ensures Extends(h, h[x := String(hash, false)], x)
    ensures Children(h[x := String(hash, false)], x) == {}
    ensures forall u | IsOpen(h, u) ::
      h[u].thread in h && h[h[u].thread].Thread? && h[u].slot < |h[h[u].thread].stack|
  {
  }

  lemma InternBuckets(s: State, x: Id, hash: nat)
    requires Interned(s.heap, s.strt) && x !in s.heap
    ensures Interned(InternAt(s, x, hash).heap, InternAt(s, x, hash).strt)
  {
    var s' := InternAt(s, x, hash);
    forall b | 0 <= b < |s'.strt| ensures Bucket(s'.heap, |s'.strt|, b, s'.strt[b]) {
      assert Bucket(s.heap, |s.strt|, b, s.strt[b]);
    }
  }

  lemma InternPhase(s: State, x: Id, hash: nat)
    requires Inv(s) && x !in s.heap && Extends(s.heap, s.heap[x := String(hash, false)], x)
    ensures PhaseOk(InternAt(s, x, hash), {})
  {
    hide Rooted, OpenLists, OpenHomes, AllOpen, LiveClosed, Extends, Live, Bucket;
    var s' := InternAt(s, x, hash);
    if s.gcstate.Propagate? {
      AddPhase(s, s'.heap, x);
    } else if s.gcstate.Sweep? {
      forall i | 0 <= i < s'.sweepgc ensures SweptRoot(s'.heap, s'.marked, s'.currentwhite, s'.rootgc[i]) {
        assert SweptRoot(s.heap, s.marked, s.currentwhite, s.rootgc[i]);
      }
      forall y | IsString(s'.heap, y) ensures IsCurrent(s'.marked, s'.currentwhite, y) {
        if y != x { assert IsString(s.heap, y); }
      }
    } else if s.gcstate.SweepString? {
      forall b, y | 0 <= b < s.sweepstrgc && y in s'.strt[b] ensures IsCurrent(s'.marked, s'.currentwhite, y) {
        if y != x {
          assert y in s.strt[b] && IsCurrent(s.marked, s.currentwhite, y);
        }
      }
    }
  }

  /** A dead object that the program finds again before the sweep does (an
      interned string, an open upvalue of a live thread) becomes live. */
  lemma Resurrect(s: State, x: Id)
    requires Inv(s) && x in s.heap && s.marked[x] == OtherWhite(s.currentwhite)
    requires forall y | y in Children(s.heap, x) :: Live(s.marked, s.currentwhite, y)
    ensures Inv(s.(marked := s.marked[x := s.currentwhite]))
    ensures s.gcstate.SweepString? || s.gcstate.Sweep?
  {
    var s' := s.(marked := s.marked[x := s.currentwhite]);
    hide Owned, Fields, Ids;
    LiveClosedKept(s.heap, s.marked, s.heap, s'.marked, s.currentwhite);
    assert Roots(s') == Roots(s);
    if s.gcstate.Sweep? {
      forall i | 0 <= i < s'.sweepgc ensures SweptRoot(s'.heap, s'.marked, s'.currentwhite, s'.rootgc[i]) {
        assert SweptRoot(s.heap, s.marked, s.currentwhite, s.rootgc[i]);
      }
      forall y | IsString(s'.heap, y) ensures IsCurrent(s'.marked, s'.currentwhite, y) {
        assert IsCurrent(s.marked, s.currentwhite, y);
      }
    } else if s.gcstate.SweepString? {
      forall b, y | 0 <= b < s.sweepstrgc && y in s'.strt[b] ensures IsCurrent(s'.marked, s'.currentwhite, y) {
        assert IsCurrent(s.marked, s.currentwhite, y);
      }
    }
  }

  // ---------------------------------------------------------------- upvalues

  /** A new open upvalue enters the list of its thread at position `k`. */
  function CaptureAt(s: State, x: Id, t: Id, slot: nat, k: nat): State
    requires t in s.heap && s.heap[t].Thread? && k <= |s.heap[t].openupval|
  {
    s.(heap := s.heap[t := s.heap[t].(openupval := Insert(s.heap[t].openupval, k, x))][x := OpenUpval(t, slot)],
       marked := s.marked[x := s.currentwhite], uvhead := [x] + s.uvhead)
  }

  ghost predicate Splits(h: Heap, open: seq<Id>, k: nat, slot: nat) {
    && k <= |open|
    && (forall i | 0 <= i < |open| :: IsOpen(h, open[i]))
    && (forall i | 0 <= i < k :: h[open[i]].slot > slot)
    && (forall i | k <= i < |open| :: h[open[i]].slot < slot)
  }

  lemma CaptureNew(s: State, x: Id, t: Id, slot: nat, k: nat)
    requires Inv(s) && x !in s.heap
    requires t in s.heap && s.heap[t].Thread? && slot < |s.heap[t].stack| && Live(s.marked, s.currentwhite, t)
    requires Splits(s.heap, s.heap[t].openupval, k, slot)
    ensures Inv(CaptureAt(s, x, t, slot, k))
  {
    var s' := CaptureAt(s, x, t, slot, k);
    CaptureExtends(s, x, t, slot, k);
    CaptureLists(s, x, t, slot, k);
    hide OpenLists, OpenHomes, AllOpen, LiveClosed, ColourOk, PhaseOk, Rooted, Interned, Live, Extends, Children, Splits;
    AddCore(s, s'.heap, x);
    RootedKept(s.heap, s'.heap, s.rootgc);
    InternedKept(s.heap, s'.heap, s.strt);
    CapturePhase(s, x, t, slot, k);
    assert Roots(s') == Roots(s);
  }

  lemma CaptureExtends(s: State, x: Id, t: Id, slot: nat, k: nat)
    requires Core(s) && x !in s.heap
    requires t in s.heap && s.heap[t].Thread? && slot < |s.heap[t].stack| && Live(s.marked, s.currentwhite, t)
    requires k <= |s.heap[t].openupval|
    ensures Extends(s.heap, CaptureAt(s, x, t, slot, k).heap, x)
    ensures forall y | y in Children(CaptureAt(s, x, t, slot, k).heap, x) :: Live(s.marked, s.currentwhite, y)
  {
    CaptureFields(s, x, t, slot, k);
    hide OpenLists, OpenHomes, AllOpen, Rooted, Interned, ColourOk, RootsOk, Extends;
    var h' := CaptureAt(s, x, t, slot, k).heap;
    forall y | y in Children(h', x) ensures Live(s.marked, s.currentwhite, y) {
      assert y in Children(s.heap, t);
    }
  }

  lemma CaptureFields(s: State, x: Id, t: Id, slot: nat, k: nat)
    requires OpenHomes(s.heap) && x !in s.heap
    requires t in s.heap && s.heap[t].Thread? && slot < |s.heap[t].stack| && k <= |s.heap[t].openupval|
    ensures Extends(s.heap, CaptureAt(s, x, t, slot, k).heap, x)
    ensures Fields(CaptureAt(s, x, t, slot, k).heap, x) == [s.heap[t].stack[slot]]
  {
    hide OpenHomes, Fields;
    HomesAreThreads(s.heap);
    var h' := CaptureAt(s, x, t, slot, k).heap;
    forall y | y in s.heap ensures Fields(h', y) == Fields(s.heap, y) {
      SameFields(s.heap, h', x, t, y);
    }
    NewFields(h', x);
  }

  /** Adding an object, and another open list of a thread, changes no references. */
  lemma SameFields(h: Heap, h': Heap, x: Id, t: Id, y: Id)
    requires x !in h && y in h && h'.Keys == h.Keys + {x} && t in h && h[t].Thread?
    requires h'[t].Thread? && h'[t].stack == h[t].stack && forall z | z in h && z != t :: h'[z] == h[z]
    requires IsOpen(h, y) ==> h[y].thread in h
    ensures Fields(h', y) == Fields(h, y)
  {
  }

  lemma NewFields(h: Heap, x: Id)
    requires x in h && h[x].OpenUpval? && h[x].thread in h && h[h[x].thread].Thread?
    requires h[x].slot < |h[h[x].thread].stack|
    ensures Fields(h, x) == [h[h[x].thread].stack[h[x].slot]]
  {
  }

  lemma CaptureLists(s: State, x: Id, t: Id, slot: nat, k: nat)
    requires OpenLists(s.heap) && OpenHomes(s.heap) && AllOpen(s.heap, s.uvhead) && x !in s.heap
    requires t in s.heap && s.heap[t].Thread? && slot < |s.heap[t].stack|
    requires Splits(s.heap, s.heap[t].openupval, k, slot)
    ensures var s' := CaptureAt(s, x, t, slot, k);
            OpenLists(s'.heap) && OpenHomes(s'.heap) && AllOpen(s'.heap, s'.uvhead)
  {
    var s' := CaptureAt(s, x, t, slot, k);
    CaptureList(s, x, t, slot, k);
    forall u | u in s'.heap && s'.heap[u].Thread? ensures OpenList(s'.heap, u, s'.heap[u].openupval) {
      assert OpenList(s.heap, u, s.heap[u].openupval);
    }
  }

  lemma CaptureList(s: State, x: Id, t: Id, slot: nat, k: nat)
    requires t in s.heap && s.heap[t].Thread? && x !in s.heap
    requires OpenList(s.heap, t, s.heap[t].openupval)
    requires Splits(s.heap, s.heap[t].openupval, k, slot)
    ensures var s' := CaptureAt(s, x, t, slot, k); OpenList(s'.heap, t, s'.heap[t].openupval)
  {
    var h' := CaptureAt(s, x, t, slot, k).heap;
    var open := s.heap[t].openupval;
    var list := Insert(open, k, x);
    CaptureElems(s.heap, h', t, open, k, x, slot);
    CaptureDescends(s.heap, h', open, k, x, slot);
  }

  lemma CaptureElems(h: Heap, h': Heap, t: Id, open: seq<Id>, k: nat, x: Id, slot: nat)
    requires OpenList(h, t, open) && k <= |open| && x !in h
    requires h'.Keys == h.Keys + {x} && h'[x] == OpenUpval(t, slot)
    requires forall y | y in h && !h[y].Thread? :: h'[y] == h[y]
    requires forall y | y in h && h[y].Thread? :: h'[y].Thread?
    ensures forall u :: u in Insert(open, k, x) <==> u in h' && h'[u].OpenUpval? && h'[u].thread == t
  {
    InsertElems(open, k, x);
  }

  lemma CaptureDescends(h: Heap, h': Heap, open: seq<Id>, k: nat, x: Id, slot: nat)
    requires k <= |open| && IsOpen(h', x) && h'[x].slot == slot
    requires forall i | 0 <= i < |open| :: IsOpen(h, open[i]) && IsOpen(h', open[i]) && h'[open[i]] == h[open[i]]
    requires forall i, j | 0 <= i < j < |open| ::
               IsOpen(h, open[i]) && IsOpen(h, open[j]) && h[open[i]].slot > h[open[j]].slot
    requires Splits(h, open, k, slot)
    ensures var list := Insert(open, k, x);
            && (forall i | 0 <= i < |list| :: IsOpen(h', list[i]))
            && (forall i, j | 0 <= i < j < |list| ::
                  IsOpen(h', list[i]) && IsOpen(h', list[j]) && h'[list[i]].slot > h'[list[j]].slot)
  {
    var slots := seq(|open|, i requires 0 <= i < |open| => h[open[i]].slot);
    InsertDescends(slots, k, slot);
    var list := Insert(open, k, x);
    assert forall i | 0 <= i < |list| :: IsOpen(h', list[i]) && h'[list[i]].slot == Insert(slots, k, slot)[i];
  }

  predicate Descends(s: seq<nat>) {
    forall i, j | 0 <= i < j < |s| :: s[i] > s[j]
  }

  lemma InsertDescends(s: seq<nat>, k: nat, x: nat)
    requires Descends(s) && k <= |s|
    requires forall i | 0 <= i < k :: s[i] > x
    requires forall i | k <= i < |s| :: s[i] < x
    ensures Descends(Insert(s, k, x))
  {
  }

  lemma CapturePhase(s: State, x: Id, t: Id, slot: nat, k: nat)
    requires Inv(s) && x !in s.heap
    requires t in s.heap && s.heap[t].Thread? && k <= |s.heap[t].openupval|
    requires Extends(s.heap, CaptureAt(s, x, t, slot, k).heap, x)
    ensures PhaseOk(CaptureAt(s, x, t, slot, k), {})
  {
    hide Rooted, OpenLists, OpenHomes, AllOpen, LiveClosed, Extends, Live, Interned;
    var s' := CaptureAt(s, x, t, slot, k);
    InsertElems(s.heap[t].openupval, k, x);
    if s.gcstate.Propagate? {
      AddPhase(s, s'.heap, x);
    } else if s.gcstate.Sweep? {
      forall i | 0 <= i < s'.sweepgc ensures SweptRoot(s'.heap, s'.marked, s'.currentwhite, s'.rootgc[i]) {
        assert SweptRoot(s.heap, s.marked, s.currentwhite, s.rootgc[i]);
      }
      forall y | IsString(s'.heap, y) ensures IsCurrent(s'.marked, s'.currentwhite, y) {
        assert IsString(s.heap, y);
      }
    } else if s.gcstate.SweepString? {
      forall b, y | 0 <= b < s.sweepstrgc && y in s'.strt[b] ensures IsCurrent(s'.marked, s'.currentwhite, y) {
        assert IsCurrent(s.marked, s.currentwhite, y);
      }
    }
  }

  /** Closing the first open upvalue of `t`: the value moves in, and the upvalue
      joins the root list. A gray one becomes black in the mark phase and white
      in a sweep. */
  function CloseAt(s: State, t: Id): State
    requires t in s.heap && s.heap[t].Thread? && s.heap[t].openupval != []
    requires s.heap[t].openupval[0] in s.marked
  {
    var open := s.heap[t].openupval;
    var u := open[0];
    s.(heap := s.heap[t := s.heap[t].(openupval := open[1..])][u := Block(Upval, [UpvalValue(s.heap, u)])],
       marked := if s.marked[u] != Gray then s.marked
                 else s.marked[u := if s.gcstate.Propagate? then Black else s.currentwhite],
       rootgc := [u] + s.rootgc, uvhead := Remove(s.uvhead, u),
       sweepgc := if s.sweepgc > 0 then s.sweepgc + 1 else s.sweepgc)
  }

  lemma HeadIsOpen(s: State, t: Id)
    requires Core(s) && t in s.heap && s.heap[t].Thread? && s.heap[t].openupval != []
    ensures var u := s.heap[t].openupval[0];
            IsOpen(s.heap, u) && s.heap[u].thread == t && u in s.marked && u != t
            && s.heap[u].slot < |s.heap[t].stack|
  {
    assert OpenList(s.heap, t, s.heap[t].openupval);
    assert s.heap[t].openupval[0] in s.heap[t].openupval;
  }

  lemma CloseLive(s: State, t: Id)
    requires Inv(s) && t in s.heap && s.heap[t].Thread? && s.heap[t].openupval != []
    requires s.heap[t].openupval[0] in s.marked && Live(s.marked, s.currentwhite, s.heap[t].openupval[0])
    ensures var u := s.heap[t].openupval[0];
            var s' := CloseAt(s, t);
            && Core(s') && PhaseOk(s', {u})
            && Swept(s.heap, s.marked, s'.heap, s'.marked, s.currentwhite, s.mainthread)
            && s'.heap.Keys == s.heap.Keys
            && (forall x | x in s.heap :: Fields(s'.heap, x) == Fields(s.heap, x))
  {
    hide Rooted, Interned, OpenLists, OpenHomes, AllOpen, PhaseOk, LiveClosed, Swept, ColourOk, Fields, Children, Ids, UpvalValue;
    HeadIsOpen(s, t);
    HomesAreThreads(s.heap);
    ClosePhase(s, t);
    var u := s.heap[t].openupval[0];
    var s' := CloseAt(s, t);
    CloseOpen(s.heap, s.marked, s.currentwhite, s.mainthread, s.rootgc, s.strt, s.uvhead, t);
    CloseColour(s'.heap, s.marked, s.currentwhite, u, s'.marked);
    SameKeys(s.heap, s.marked);
    SameKeys(s'.heap, s'.marked);
    RecolourSwept(s'.heap, s.marked, s'.marked, s.currentwhite, s.mainthread);
    SweptTrans(s.heap, s.marked, s'.heap, s.marked, s'.heap, s'.marked, s.currentwhite, s.mainthread);
    assert Roots(s') == Roots(s);
  }

  lemma CloseColour(h: Heap, m: Marks, cw: White, u: Id, m': Marks)
    requires ColourOk(h, m) && LiveClosed(h, m, cw)
    requires u in h && h[u].Block? && Live(m, cw, u)
    requires m' == m || (m[u].Gray? && (m' == m[u := Black] || m' == m[u := cw]))
    ensures ColourOk(h, m') && LiveClosed(h, m', cw)
    ensures forall x :: Live(m', cw, x) <==> Live(m, cw, x)
    ensures forall x | IsCurrent(m, cw, x) :: IsCurrent(m', cw, x)
    ensures forall x | x in m && !Live(m, cw, x) :: x in m' && m'[x] == m[x]
  {
    hide Fields, Ids;
    LiveClosedKept(h, m, h, m', cw);
  }

  lemma RecolourSwept(h: Heap, m: Marks, m': Marks, cw: White, main: Id)
    requires m.Keys == h.Keys && m'.Keys == h.Keys
    requires forall x | Live(m, cw, x) :: Live(m', cw, x)
    requires forall x | IsCurrent(m, cw, x) :: IsCurrent(m', cw, x)
    requires forall x | x in m && !Live(m, cw, x) && !Fixed(h, main, x) :: m'[x] == m[x]
    ensures Swept(h, m, h, m', cw, main)
  {
  }

  lemma ClosePhase(s: State, t: Id)
    requires Inv(s) && t in s.heap && s.heap[t].Thread? && s.heap[t].openupval != []
    requires var u := s.heap[t].openupval[0];
             u in s.marked && Live(s.marked, s.currentwhite, u) && IsOpen(s.heap, u) && s.heap[u].thread == t && u != t
    requires forall v | IsOpen(s.heap, v) :: s.heap[v].thread in s.heap
    ensures PhaseOk(CloseAt(s, t), {s.heap[t].openupval[0]})
  {
    hide GrayLists, LeavesOk, Tri, Rooted, Interned, OpenLists, OpenHomes, AllOpen, LiveClosed, Fields, UpvalValue,
         SweepOk, SweepStringOk;
    if s.gcstate.Propagate? {
      CloseGray(s, t);
      CloseTri(s, t);
    } else if s.gcstate.Sweep? || s.gcstate.SweepString? {
      CloseSweep(s, t);
    }
  }

  lemma CloseSweep(s: State, t: Id)
    requires ColourOk(s.heap, s.marked) && t in s.heap && s.heap[t].Thread? && s.heap[t].openupval != []
    requires var u := s.heap[t].openupval[0];
             u in s.marked && Live(s.marked, s.currentwhite, u) && IsOpen(s.heap, u) && u != t
    requires !s.gcstate.Propagate?
    ensures SweepOk(s) ==> SweepOk(CloseAt(s, t))
    ensures SweepStringOk(s) ==> SweepStringOk(CloseAt(s, t))
  {
    hide Fields, UpvalValue;
    var u := s.heap[t].openupval[0];
    var s' := CloseAt(s, t);
    assert forall x | IsCurrent(s.marked, s.currentwhite, x) :: IsCurrent(s'.marked, s'.currentwhite, x);
    if SweepOk(s) {
      forall i | 0 <= i < s'.sweepgc ensures SweptRoot(s'.heap, s'.marked, s'.currentwhite, s'.rootgc[i]) {
        if i > 0 {
          assert s'.rootgc[i] == s.rootgc[i - 1];
          assert SweptRoot(s.heap, s.marked, s.currentwhite, s.rootgc[i - 1]);
        }
      }
      forall y | IsString(s'.heap, y) ensures IsCurrent(s'.marked, s'.currentwhite, y) {
        assert IsString(s.heap, y);
      }
    }
    if SweepStringOk(s) {
      forall b, y | 0 <= b < s.sweepstrgc && y in s'.strt[b] ensures IsCurrent(s'.marked, s'.currentwhite, y) {
        assert IsCurrent(s.marked, s.currentwhite, y);
      }
    }
  }

  lemma CloseGray(s: State, t: Id)
    requires PropagateOk(s, {}) && ColourOk(s.heap, s.marked)
    requires t in s.heap && s.heap[t].Thread? && s.heap[t].openupval != []
    requires IsOpen(s.heap, s.heap[t].openupval[0]) && s.gcstate.Propagate?
    ensures var s' := CloseAt(s, t);
            GrayLists(s'.heap, s'.marked, s.gray, s.grayagain) && LeavesOk(s'.heap, s'.marked)
  {
    hide Tri, Fields, UpvalValue;
    var h' := CloseAt(s, t).heap;
    assert forall x | x in h' :: Listable(h'[x]) == Listable(s.heap[x]);
  }

  lemma CloseTri(s: State, t: Id)
    requires PropagateOk(s, {}) && s.marked.Keys == s.heap.Keys
    requires t in s.heap && s.heap[t].Thread? && s.heap[t].openupval != []
    requires var u := s.heap[t].openupval[0];
             u in s.marked && IsOpen(s.heap, u) && s.heap[u].thread == t && u != t
    requires s.gcstate.Propagate?
    ensures var u := s.heap[t].openupval[0];
            var s' := CloseAt(s, t);
            Tri(s'.heap, s'.marked, Elems(s.gray) + (Elems(s.grayagain) + Opens(s'.heap) + {u}))
  {
    hide Fields, Ids, GrayLists, LeavesOk, Elems, CloseAt, NoDead;
    var u := s.heap[t].openupval[0];
    var s' := CloseAt(s, t);
    OthersSame(s, t);
    var p := Elems(s.gray) + (Elems(s.grayagain) + Opens(s'.heap) + {u});
    forall x, y | NonWhite(s'.marked, x) && x !in p && y in Children(s'.heap, x) ensures NonWhite(s'.marked, y) {
      assert x in s.marked && !IsOpen(s.heap, x) && Fields(s'.heap, x) == Fields(s.heap, x);
      assert y in Children(s.heap, x) && NonWhite(s.marked, x);
      assert x !in Elems(s.gray) + (Elems(s.grayagain) + Opens(s.heap) + {});
      assert NonWhite(s.marked, y);
    }
  }

  lemma OthersSame(s: State, t: Id)
    requires t in s.heap && s.heap[t].Thread? && s.heap[t].openupval != []
    requires s.heap[t].openupval[0] in s.marked && s.heap[t].openupval[0] != t && IsOpen(s.heap, s.heap[t].openupval[0])
    ensures var u, s' := s.heap[t].openupval[0], CloseAt(s, t);
            && s'.heap.Keys == s.heap.Keys && s'.marked.Keys == s.marked.Keys
            && (forall x | x in s.marked && x != u :: s'.marked[x] == s.marked[x])
            && (forall x | NonWhite(s.marked, x) && s.gcstate.Propagate? :: NonWhite(s'.marked, x))
            && (forall x | x in s.heap && x != u && !IsOpen(s.heap, x) :: Fields(s'.heap, x) == Fields(s.heap, x))
            && (forall x :: IsOpen(s.heap, x) ==> x == u || IsOpen(s'.heap, x))
  {
  }

  /** Closing a dead upvalue frees it. */
  lemma CloseDead(s: State, t: Id, i: nat)
    requires Inv(s) && t in s.heap && s.heap[t].Thread? && i < |s.heap[t].openupval|
    requires !Live(s.marked, s.currentwhite, s.heap[t].openupval[i])
    ensures var u := s.heap[t].openupval[i];
            var s' := s.(heap := s.heap[t := s.heap[t].(openupval := Cut(s.heap[t].openupval, i))] - {u},
                         marked := s.marked - {u}, uvhead := Remove(s.uvhead, u));
            && Inv(s') && u in s.heap && u != t
            && Swept(s.heap, s.marked, s'.heap, s'.marked, s.currentwhite, s.mainthread)
  {
    var u := s.heap[t].openupval[i];
    var s' := s.(heap := s.heap[t := s.heap[t].(openupval := Cut(s.heap[t].openupval, i))] - {u},
                 marked := s.marked - {u}, uvhead := Remove(s.uvhead, u));
    FreeOpen(s.heap, s.marked, s.currentwhite, s.mainthread, s.rootgc, s.strt, s.uvhead, t, i);
    hide Owned, LiveClosed;
    FreePhase(s, s', u);
  }

  lemma FreePhase(s: State, s': State, u: Id)
    requires Inv(s) && u in s.heap && !Live(s.marked, s.currentwhite, u)
    requires Swept(s.heap, s.marked, s'.heap, s'.marked, s.currentwhite, s.mainthread)
    requires s' == s.(heap := s'.heap, marked := s'.marked, uvhead := s'.uvhead)
    requires ColourOk(s'.heap, s'.marked)
    requires forall t, v | t in s'.heap && s'.heap[t].Thread? && v in s'.heap[t].openupval :: v in s.heap[t].openupval
    ensures PhaseOk(s', {}) && RootsOk(s')
  {
    hide Owned, LiveClosed, Fields;
    assert Roots(s') == Roots(s);
    if s.gcstate.Sweep? {
      forall i | 0 <= i < s'.sweepgc ensures SweptRoot(s'.heap, s'.marked, s'.currentwhite, s'.rootgc[i]) {
        assert SweptRoot(s.heap, s.marked, s.currentwhite, s.rootgc[i]);
      }
      forall y | IsString(s'.heap, y) ensures IsCurrent(s'.marked, s'.currentwhite, y) {
        assert SameObject(s.heap[y], s'.heap[y]);
        assert IsCurrent(s.marked, s.currentwhite, y);
      }
    } else if s.gcstate.SweepString? {
      forall b, y | 0 <= b < s.sweepstrgc && y in s'.strt[b] ensures IsCurrent(s'.marked, s'.currentwhite, y) {
        assert IsCurrent(s.marked, s.currentwhite, y);
      }
    }
  }
}
