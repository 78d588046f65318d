/**
 The incremental mark-and-sweep collector, together with the steps of the
 program that interleave with it.
 */
module Collector {
  import opened GcHeap
  import opened GcColours
  import opened GcEdits
  import opened GcState
  import opened GcMutate
  import opened GcMark
  import opened GcSweep
  import opened GcCycle
  import opened GcProgram

  const GCSWEEPMAX: nat := 40

  const MINSTRTABSIZE: nat := 32
  const NUM_TAGS: nat := 9
  const MAX_INT: nat := 0x7fff_ffff

  /** How many strings the table holds, which the original counts as it goes. */
  function Nuse(strt: seq<seq<Id>>): nat {
    if strt == [] then 0 else |strt[0]| + Nuse(strt[1..])
  }

  predicate Sparse(strt: seq<seq<Id>>) {
    Nuse(strt) < |strt| / 4 && |strt| > MINSTRTABSIZE * 2
  }

  class GlobalState {
    var heap: Heap
    var marked: Marks
    var rootgc: seq<Id>
    var strt: seq<seq<Id>>
    var uvhead: seq<Id>
    var gray: seq<Id>
    var grayagain: seq<Id>
    var currentwhite: White
    var gcstate: Phase
    var sweepstrgc: nat
    var sweepgc: nat
    const mainthread: Id
    const registry: Id
    var running: Id
    var mt: seq<Value>

    ghost function S(): State
      reads this
    {
      State(heap, marked, rootgc, strt, uvhead, gray, grayagain, currentwhite, gcstate, sweepstrgc, sweepgc,
            mainthread, registry, running, mt)
    }

    // ------------------------------------------------------------ marking

    method ReallyMark(o: Id, ghost q: set<Id>, ghost r: set<Id>)
      requires Marking(heap, marked, gray, grayagain)
      requires o in heap && IsWhite(marked[o])
      requires Tri(heap, marked, Elems(gray) + q)
      requires o in r && ClosedUnder(heap, r)
      modifies `marked, `gray
      ensures Marking(heap, marked, gray, grayagain)
      ensures Marked(heap, old(marked), marked, r) && NonWhite(marked, o)
      ensures Tri(heap, marked, Elems(gray) + q)
      ensures |gray| + Whites(marked) <= old(|gray| + Whites(marked))
      ensures Whites(marked) < old(Whites(marked))
      decreases Whites(marked), 0
    {
      hide Tri, GrayLists, ColourOk, Marking, ClosedUnder, Marked, Whites, Elems, Ids;
      InDomain(heap, marked, gray, grayagain);
      ghost var m0 := marked;
      if Listable(heap[o]) {
        PushGray(heap, marked, gray, grayagain, o, q);
        marked := marked[o := Gray];
        gray := [o] + gray;
        MarkedOne(heap, m0, o, r);
      } else {
        var first := if heap[o].Block? && heap[o].kind.Userdata? then Black else Gray;
        PaintLeaf(heap, marked, gray, grayagain, o, first, q);
        marked := marked[o := first];
        ClosedAt(heap, r, o);
        MarkAll(Fields(heap, o), q + {o}, r);
        InDomain(heap, marked, gray, grayagain);
        FinishLeaf(heap, m0, marked, gray, grayagain, o, first, q, r);
        if heap[o].Block? {
          marked := marked[o := Black];
        } else {
          assert marked[o := Gray] == marked;
        }
      }
    }

    method MarkAll(vs: seq<Value>, ghost q: set<Id>, ghost r: set<Id>)
      requires Marking(heap, marked, gray, grayagain)
      requires Ids(vs) <= heap.Keys && Ids(vs) <= r
      requires Tri(heap, marked, Elems(gray) + q)
      requires ClosedUnder(heap, r)
      modifies `marked, `gray
      ensures Marking(heap, marked, gray, grayagain)
      ensures Marked(heap, old(marked), marked, r)
      ensures forall x | x in Ids(vs) :: NonWhite(marked, x)
      ensures Tri(heap, marked, Elems(gray) + q)
      ensures |gray| + Whites(marked) <= old(|gray| + Whites(marked))
      ensures Whites(marked) <= old(Whites(marked))
      decreases Whites(marked), 1
    {
      hide Tri, GrayLists, ColourOk, Marking, Whites, Elems;
      for i := 0 to |vs|
        invariant Marking(heap, marked, gray, grayagain)
        invariant Marked(heap, old(marked), marked, r)
        invariant forall j | 0 <= j < i && vs[j].Ref? :: NonWhite(marked, vs[j].id)
        invariant Tri(heap, marked, Elems(gray) + q)
        invariant |gray| + Whites(marked) <= old(|gray| + Whites(marked))
        invariant Whites(marked) <= old(Whites(marked))
      {
        if vs[i].Ref? {
          assert vs[i].id in Ids(vs);
          InDomain(heap, marked, gray, grayagain);
          if IsWhite(marked[vs[i].id]) {
            ReallyMark(vs[i].id, q, r);
          }
        }
      }
    }

    /** Traverses one gray object. A thread stays gray and waits on `grayagain`. */
    method PropagateMark(ghost q: set<Id>, ghost r: set<Id>)
      requires Marking(heap, marked, gray, grayagain) && LeavesOk(heap, marked)
      requires gray != [] && gray[0] in r && ClosedUnder(heap, r)
      requires Tri(heap, marked, Elems(gray) + q)
      modifies `marked, `gray, `grayagain
      ensures Marking(heap, marked, gray, grayagain) && LeavesOk(heap, marked)
      ensures Progress(old(marked), marked, r)
      ensures Tri(heap, marked, Elems(gray) + q)
      ensures Elems(old(grayagain)) <= Elems(grayagain)
      ensures |gray| + Whites(marked) < old(|gray| + Whites(marked))
    {
      hide Tri, GrayLists, ColourOk, Marking, ClosedUnder, Marked, Whites, LeavesOk, Ids;
      var o := gray[0];
      PopGray(heap, marked, gray, grayagain, q);
      InDomain(heap, marked, gray, grayagain);
      gray := gray[1..];
      if heap[o].Thread? {
        grayagain := [o] + grayagain;
      } else {
        marked := marked[o := Black];
      }
      ghost var m1 := marked;
      ClosedAt(heap, r, o);
      MarkAll(Fields(heap, o), q + {o}, r);
      FinishTraverse(heap, marked, gray, o, q);
      MarkedProgress(heap, old(marked), m1, marked, o, r);
    }

    method PropagateAll(ghost q: set<Id>, ghost r: set<Id>)
      requires Marking(heap, marked, gray, grayagain) && LeavesOk(heap, marked)
      requires ClosedUnder(heap, r) && forall x | NonWhite(marked, x) :: x in r
      requires Tri(heap, marked, Elems(gray) + q)
      modifies `marked, `gray, `grayagain
      ensures Marking(heap, marked, gray, grayagain) && LeavesOk(heap, marked)
      ensures Progress(old(marked), marked, r)
      ensures forall x | NonWhite(marked, x) :: x in r
      ensures gray == [] && Tri(heap, marked, q)
      ensures Elems(old(grayagain)) <= Elems(grayagain)
    {
      hide Tri, GrayLists, ColourOk, Marking, Whites, LeavesOk;
      while gray != []
        invariant Marking(heap, marked, gray, grayagain) && LeavesOk(heap, marked)
        invariant Progress(old(marked), marked, r)
        invariant forall x | NonWhite(marked, x) :: x in r
        invariant Tri(heap, marked, Elems(gray) + q)
        invariant Elems(old(grayagain)) <= Elems(grayagain)
        decreases |gray| + Whites(marked)
      {
        GrayHead(heap, marked, gray, grayagain);
        PropagateMark(q, r);
      }
      assert Elems(gray) + q == q;
    }

    method Mark(vs: seq<Value>, ghost q: set<Id>, ghost r: set<Id>)
      requires Marking(heap, marked, gray, grayagain) && LeavesOk(heap, marked)
      requires Ids(vs) <= r <= heap.Keys && ClosedUnder(heap, r)
      requires Tri(heap, marked, Elems(gray) + q)
      modifies `marked, `gray
      ensures Marking(heap, marked, gray, grayagain) && LeavesOk(heap, marked)
      ensures Progress(old(marked), marked, r)
      ensures forall x | x in Ids(vs) :: NonWhite(marked, x)
      ensures Tri(heap, marked, Elems(gray) + q)
    {
      hide Marking, LeavesOk, Tri, Marked, Progress, ClosedUnder, Whites, Elems, Ids;
      MarkAll(vs, q, r);
      MarkedIsProgress(heap, old(marked), marked, r);
    }

    /** Marks the main thread, the globals, the registry and the basic metatables. */
    method MarkRootSet(ghost r: set<Id>)
      requires Marking(heap, marked, gray, grayagain) && LeavesOk(heap, marked)
      requires mainthread in heap && heap[mainthread].Thread?
      requires ClosedUnder(heap, r) && mainthread in r && registry in r && Ids(mt) <= r <= heap.Keys
      requires Tri(heap, marked, Elems(gray) + {})
      modifies `marked, `gray
      ensures Marking(heap, marked, gray, grayagain) && LeavesOk(heap, marked)
      ensures Progress(old(marked), marked, r) && NonWhite(marked, mainthread) && NonWhite(marked, registry)
      ensures Tri(heap, marked, Elems(gray) + {})
    {
      hide Marking, Tri, Progress, Elems, LeavesOk, ClosedUnder, Ids, NonWhite;
      OneId(mainthread);
      Mark([Ref(mainthread)], {}, r);
      ghost var m1 := marked;
      Globals(heap, mainthread, r);
      Mark(heap[mainthread].stack[..if heap[mainthread].stack == [] then 0 else 1], {}, r);
      ProgressTrans(old(marked), m1, marked, r);
      KeepMark(m1, marked, r, mainthread);
      ghost var m2 := marked;
      OneId(registry);
      Mark([Ref(registry)], {}, r);
      ProgressTrans(old(marked), m2, marked, r);
      KeepMark(m2, marked, r, mainthread);
      ghost var m3 := marked;
      Mark(mt, {}, r);
      ProgressTrans(old(marked), m3, marked, r);
      KeepMark(m3, marked, r, mainthread);
      KeepMark(m3, marked, r, registry);
    }

    method MarkRoot(ghost r: set<Id>)
      requires Core(S()) && AllWhite(marked, currentwhite)
      requires Roots(S()) <= r <= heap.Keys && ClosedUnder(heap, r)
      modifies `marked, `gray, `grayagain, `gcstate
      ensures Inv(S()) && gcstate == Propagate
      ensures forall x | NonWhite(marked, x) :: x in r
    {
      hide Core, Inv, Marking, Tri, Progress, Elems, NoDead, LeavesOk, Opens, ClosedUnder, AllWhite, Ids, NonWhite;
      ghost var s := S();
      StartMark(s);
      MainIsThread(s);
      gray, grayagain := [], [];
      MarkRootSet(r);
      gcstate := Propagate;
      BackToPropagate(s, S(), {}, r);
      AllWhiteIn(s, r);
      ProgressIn(s.marked, marked, r);
    }

    /** An open upvalue may belong to a dead thread: its value is marked again. */
    method RemarkUpvals(ghost q: set<Id>, ghost r: set<Id>)
      requires Marking(heap, marked, gray, grayagain) && LeavesOk(heap, marked)
      requires AllOpen(heap, uvhead)
      requires ClosedUnder(heap, r) && r <= heap.Keys && forall x | NonWhite(marked, x) :: x in r
      requires Tri(heap, marked, Elems(gray) + (q + Opens(heap)))
      modifies `marked, `gray
      ensures Marking(heap, marked, gray, grayagain) && LeavesOk(heap, marked)
      ensures Progress(old(marked), marked, r)
      ensures Tri(heap, marked, Elems(gray) + q)
    {
      hide Marking, LeavesOk, Tri, Progress, ClosedUnder, Elems, Ids, Opens, Children, UpvalValue;
      OpensAre(heap, uvhead);
      ProgressRefl(marked, r);
      assert uvhead[0..] == uvhead;
      for i := 0 to |uvhead|
        invariant Marking(heap, marked, gray, grayagain) && LeavesOk(heap, marked)
        invariant Progress(old(marked), marked, r)
        invariant Tri(heap, marked, Elems(gray) + (q + Elems(uvhead[i..])))
      {
        ghost var m := marked;
        var uv := uvhead[i];
        OpenAt(heap, marked, gray, grayagain, uvhead, i);
        if marked[uv].Gray? {
          ProgressIn(old(marked), marked, r);
          assert NonWhite(marked, uv);
          ClosedAt(heap, r, uv);
          Mark([UpvalValue(heap, uv)], q + Elems(uvhead[i..]), r);
          ProgressTrans(old(marked), m, marked, r);
        }
        DropOpen(heap, marked, gray, q, uvhead, i);
      }
      assert uvhead[|uvhead|..] == [];
      NoElems(Elems(gray), q);
    }

    /** The middle of `atomic`: what the write barriers and the upvalues brought
        back is traversed, then the running thread and the basic metatables. */
    method RemarkRoots(ghost again: set<Id>, ghost r: set<Id>)
      requires Marking(heap, marked, gray, grayagain) && LeavesOk(heap, marked)
      requires ClosedUnder(heap, r) && r <= heap.Keys && running in r && Ids(mt) <= r
      requires forall x | NonWhite(marked, x) :: x in r
      requires Tri(heap, marked, Elems(gray) + again)
      modifies `marked, `gray, `grayagain
      ensures Marking(heap, marked, gray, grayagain) && LeavesOk(heap, marked)
      ensures Progress(old(marked), marked, r)
      ensures gray == [] && Tri(heap, marked, again) && Elems(old(grayagain)) <= Elems(grayagain)
      ensures NonWhite(marked, running) && forall x | x in Ids(mt) :: NonWhite(marked, x)
    {
      hide Marking, LeavesOk, Tri, Progress, ClosedUnder, Elems, Ids, NonWhite;
      PropagateAll(again, r);
      ghost var m2 := marked;
      NoElems(again, {});
      OneId(running);
      Mark([Ref(running)], again, r);
      ProgressTrans(old(marked), m2, marked, r);
      ghost var m3 := marked;
      Mark(mt, again, r);
      ProgressTrans(old(marked), m3, marked, r);
      KeepMark(m3, marked, r, running);
      ghost var m4 := marked;
      ProgressIn(old(marked), marked, r);
      PropagateAll(again, r);
      ProgressTrans(old(marked), m4, marked, r);
      KeepMark(m4, marked, r, running);
      KeepAll(m4, marked, r, Ids(mt));
    }

    method RemarkGrayAgain(ghost again: set<Id>, ghost r: set<Id>)
      requires Marking(heap, marked, gray, grayagain) && LeavesOk(heap, marked)
      requires ClosedUnder(heap, r) && r <= heap.Keys && forall x | NonWhite(marked, x) :: x in r
      requires gray == [] && Tri(heap, marked, again) && again <= Elems(grayagain)
      modifies `marked, `gray, `grayagain
      ensures ColourOk(heap, marked) && Progress(old(marked), marked, r)
      ensures Tri(heap, marked, {})
    {
      hide Marking, LeavesOk, Tri, Progress, ClosedUnder, Elems, NonWhite, ColourOk;
      AgainToGray(heap, marked, grayagain, again);
      gray := grayagain;
      grayagain := [];
      PropagateAll({}, r);
      MarkingColour(heap, marked, gray, grayagain);
    }

    method AtomicMark(ghost r: set<Id>)
      requires Inv(S()) && gcstate == Propagate && gray == []
      requires Roots(S()) <= r <= heap.Keys && ClosedUnder(heap, r)
      requires forall x | NonWhite(marked, x) :: x in r
      modifies `marked, `gray, `grayagain
      ensures ColourOk(heap, marked) && Progress(old(marked), marked, r)
      ensures Tri(heap, marked, {}) && forall x | x in Roots(S()) :: NonWhite(marked, x)
    {
      hide Inv, Marking, LeavesOk, Tri, Progress, ClosedUnder, Elems, Ids, Opens, NoDead, ColourOk, NonWhite, AllOpen;
      ghost var m0 := marked;
      InMarking(S());
      InCore(S());
      ghost var again := Elems(grayagain);
      RemarkUpvals(again, r);
      ProgressIn(m0, marked, r);
      ghost var m1 := marked;
      RemarkRoots(again, r);
      ProgressTrans(m0, m1, marked, r);
      ProgressIn(m0, marked, r);
      ghost var m2 := marked;
      RemarkGrayAgain(again, r);
      ProgressTrans(m0, m2, marked, r);
      KeepMark(m2, marked, r, running);
      KeepAll(m2, marked, r, Ids(mt));
      KeepMark(m0, marked, r, mainthread);
      KeepMark(m0, marked, r, registry);
    }

    method Atomic(ghost r: set<Id>)
      requires Inv(S()) && gcstate == Propagate && gray == []
      requires Roots(S()) <= r <= heap.Keys && ClosedUnder(heap, r)
      requires forall x | NonWhite(marked, x) :: x in r
      modifies `marked, `gray, `grayagain, `currentwhite, `gcstate, `sweepstrgc, `sweepgc
      ensures Inv(S()) && gcstate == SweepString
      ensures currentwhite == OtherWhite(old(currentwhite))
      ensures forall x | Live(marked, currentwhite, x) :: x in r
    {
      hide Inv, Tri, Progress, ClosedUnder, NoDead, ColourOk, NonWhite, Core, Live, Roots, OtherWhite;
      ghost var s := S();
      InMarking(s);
      InCore(s);
      AtomicMark(r);
      ProgressIn(s.marked, marked, r);
      ghost var s1 := S();
      SameRoots(s, s1);
      ProgressCore(s, marked, r);
      CoreLists(s.(marked := marked), s1);
      currentwhite := OtherWhite(currentwhite);
      sweepstrgc := 0;
      sweepgc := 0;
      gcstate := SweepString;
      Flip(s1, S());
    }

    // ------------------------------------------------------------ barriers

    /** `o` is black and was given the white object `v`. */
    method BarrierForward(o: Id, v: Id)
      requires Core(S()) && PhaseOk(S(), {o})
      requires o in heap && marked[o] == Black && v in heap && IsWhite(marked[v])
      requires gcstate == Propagate ==> forall y | y in Children(heap, o) :: y == v || NonWhite(marked, y)
      modifies `marked, `gray
      ensures Inv(S())
    {
      hide Core, PhaseOk, Inv, Marking, Tri, Marked, LeavesOk, Whites, Elems, Opens, NoDead, Progress, ClosedUnder;
      ghost var s := S();
      if gcstate == Propagate {
        ForwardReady(s, o, v);
        ReallyMark(v, Elems(grayagain) + Opens(heap) + {o}, heap.Keys);
        ForwardDone(s, S(), o, v);
      } else {
        marked := marked[o := currentwhite];
        BarrierWhiteOk(s, o);
      }
    }

    method BarrierBack(t: Id)
      requires Core(S()) && PhaseOk(S(), {t})
      requires t in heap && heap[t].Block? && heap[t].kind.Table? && marked[t] == Black
      modifies `marked, `grayagain
      ensures Inv(S())
    {
      hide Core, PhaseOk, Inv;
      BarrierBackOk(S(), t);
      marked := marked[t := Gray];
      grayagain := [t] + grayagain;
    }

    // ------------------------------------------------------------ the program's steps

    /** Storing into a table, closure, prototype, userdata or closed upvalue, with
        the barrier that the kind of object asks for. */
    method SetField(o: Id, i: nat, v: Value)
      requires Inv(S())
      requires o in heap && heap[o].Block? && (i < |heap[o].fields| || (heap[o].kind.Table? && i == |heap[o].fields|))
      requires v.Ref? ==> Live(marked, currentwhite, v.id)
      modifies `heap, `marked, `gray, `grayagain
      ensures Inv(S())
      ensures heap == old(heap)[o := Block(old(heap)[o].kind, PutField(old(heap)[o].fields, i, v))]
    {
      hide Core, PhaseOk, Inv, Ids, Children;
      ghost var s := S();
      InvCore(s);
      var fields := PutField(heap[o].fields, i, v);
      FieldsAfter(heap, o, i, v);
      StoreFields(s, o, fields);
      heap := heap[o := heap[o].(fields := fields)];
      LiveExists(s);
      if v.Ref? && IsWhite(marked[v.id]) && marked[o] == Black {
        if heap[o].kind.Table? {
          BarrierBack(o);
        } else {
          OldMarked(s, o);
          BarrierForward(o, v.id);
        }
      } else {
        OldMarked(s, o);
        NoBarrierNeeded(s, S(), o, v);
      }
    }

    /** The running program moves values between its slots without a barrier. */
    method SetStack(t: Id, stack: seq<Value>)
      requires Inv(S()) && t in heap && heap[t].Thread?
      requires forall y | y in Ids(stack) :: Live(marked, currentwhite, y)
      requires forall u | u in heap[t].openupval :: IsOpen(heap, u) && heap[u].slot < |stack|
      modifies `heap
      ensures Inv(S())
      ensures heap == old(heap)[t := Thread(stack, old(heap)[t].openupval)]
    {
      hide Core, PhaseOk, Inv, Ids;
      StoreStack(S(), t, stack);
      heap := heap[t := heap[t].(stack := stack)];
    }

    /** Links a new object, white, at the head of the root list; userdata go
        right after the main thread. */
    method Link(x: Id, o: Object)
      requires Inv(S()) && x !in heap
      requires o.Block? || (o.Thread? && o.openupval == [])
      requires forall y | y in Ids(if o.Block? then o.fields else o.stack) :: Live(marked, currentwhite, y)
      modifies `heap, `marked, `rootgc, `sweepgc
      ensures Inv(S())
      ensures heap == old(heap)[x := o] && marked == old(marked)[x := currentwhite]
    {
      hide Core, PhaseOk, Inv, Ids;
      ghost var s := S();
      var pos := 0;
      if o.Block? && o.kind.Userdata? {
        MainListed(s);
        while rootgc[pos] != mainthread
          invariant unchanged(this)
          invariant pos < |rootgc| && mainthread !in rootgc[..pos]
          decreases |rootgc| - pos
        {
          MainAfter(rootgc, mainthread, pos);
          pos := pos + 1;
        }
        pos := pos + 1;
      }
      Allocate(s, x, o, pos);
      heap := heap[x := o];
      marked := marked[x := currentwhite];
      rootgc := Insert(rootgc, pos, x);
      if sweepgc > pos {
        sweepgc := sweepgc + 1;
      }
    }

    method NewString(x: Id, hash: nat)
      requires Inv(S()) && x !in heap
      modifies `heap, `marked, `strt
      ensures Inv(S())
      ensures heap == old(heap)[x := String(hash, false)] && marked == old(marked)[x := currentwhite]
    {
      hide Core, PhaseOk, Inv;
      InternNew(S(), x, hash);
      var b := hash % |strt|;
      strt := strt[b := [x] + strt[b]];
      heap := heap[x := String(hash, false)];
      marked := marked[x := currentwhite];
      if Nuse(strt) > |strt| && |strt| <= MAX_INT / 2 {
        ResizeStrings(|strt| * 2);
      }
    }

    /** Interning finds a string that may be dead but is not swept yet. */
    method FindString(x: Id)
      requires Inv(S()) && x in heap && heap[x].String?
      modifies `marked
      ensures Inv(S()) && Live(marked, currentwhite, x)
      ensures forall y :: y == x || (Live(marked, currentwhite, y) <==> old(Live(marked, currentwhite, y)))
    {
      hide Core, PhaseOk, Inv;
      InvColour(S());
      assert Children(heap, x) == {};
      if marked[x] == OtherWhite(currentwhite) {
        Resurrect(S(), x);
        marked := marked[x := currentwhite];
      }
    }

    /** Finds the open upvalue of a stack slot, or opens a new one, `x`. */
    method FindUpval(t: Id, level: nat, x: Id) returns (u: Id)
      requires Inv(S()) && t in heap && heap[t].Thread? && level < |heap[t].stack|
      requires Live(marked, currentwhite, t) && x !in heap
      modifies `heap, `marked, `uvhead
      ensures Inv(S()) && u in heap && heap[u] == OpenUpval(t, level) && Live(marked, currentwhite, u)
      ensures u in old(heap) ==> heap == old(heap)
      ensures u !in old(heap) ==>
                && u == x && (forall v | v in old(heap) :: old(heap)[v] != OpenUpval(t, level))
                && heap.Keys == old(heap).Keys + {u}
      ensures t in heap && heap[t].Thread? && heap[t].stack == old(heap)[t].stack
      ensures forall y | y in old(heap) && y != t :: y in heap && heap[y] == old(heap)[y]
      ensures forall y | old(Live(marked, currentwhite, y)) :: Live(marked, currentwhite, y)
    {
      hide Core, PhaseOk, Inv, Live, Ids, Children, Splits;
      ghost var s := S();
      var k := 0;
      ThreadList(s, t);
      while k < |heap[t].openupval| && heap[heap[t].openupval[k]].slot >= level
        invariant k <= |heap[t].openupval|
        invariant S() == s && unchanged(this)
        invariant forall i | 0 <= i < k :: heap[heap[t].openupval[i]].slot > level
      {
        var p := heap[t].openupval[k];
        if heap[p].slot == level {
          InvColour(s);
          OpenSees(s, t, k);
          if marked[p] == OtherWhite(currentwhite) {
            Resurrect(s, p);
            marked := marked[p := currentwhite];
          }
          LiveNow(s.marked, marked, currentwhite, p);
          return p;
        }
        k := k + 1;
      }
      u := x;
      SplitsAt(s, t, k, level);
      CaptureNew(s, u, t, level, k);
      heap := heap[t := heap[t].(openupval := Insert(heap[t].openupval, k, u))][u := OpenUpval(t, level)];
      marked := marked[u := currentwhite];
      uvhead := [u] + uvhead;
      LiveNow(s.marked, marked, currentwhite, u);
    }

    /** `luaF_close` frees an upvalue that is already dead. */
    method FreeHead(t: Id)
      requires Inv(S()) && t in heap && heap[t].Thread? && heap[t].openupval != []
      requires marked.Keys == heap.Keys && heap[t].openupval[0] in heap
      requires marked[heap[t].openupval[0]] == OtherWhite(currentwhite)
      modifies `heap, `marked, `uvhead
      ensures Inv(S()) && CloseStep(old(S()), S(), t)
    {
      hide Core, PhaseOk, Inv, Swept, Kept, Fields, Children, Ids, UpvalValue;
      ghost var s := S();
      var u := heap[t].openupval[0];
      CloseDead(s, t, 0);
      assert Cut(heap[t].openupval, 0) == heap[t].openupval[1..];
      heap := heap[t := heap[t].(openupval := heap[t].openupval[1..])] - {u};
      marked := marked - {u};
      uvhead := Remove(uvhead, u);
      SweptKept(s.heap, s.marked, heap, marked, currentwhite, mainthread);
    }

    /** The value of the first open upvalue moves out of the stack, and the upvalue
        leaves the open list for the root list. */
    method MoveOut(t: Id)
      requires t in heap && heap[t].Thread? && heap[t].openupval != []
      requires heap[t].openupval[0] in marked
      modifies `heap, `marked, `rootgc, `uvhead, `sweepgc
      ensures S() == CloseAt(old(S()), t)
    {
      var u := heap[t].openupval[0];
      var v := UpvalValue(heap, u);
      heap := heap[t := heap[t].(openupval := heap[t].openupval[1..])][u := Block(Upval, [v])];
      uvhead := Remove(uvhead, u);
      rootgc := [u] + rootgc;
      if sweepgc > 0 {
        sweepgc := sweepgc + 1;
      }
      if marked[u] == Gray {
        marked := marked[u := if gcstate == Propagate then Black else currentwhite];
      }
    }

    /** `luaF_close` moves a live upvalue out of the stack; `luaC_linkupval` applies
        a barrier if it was marked. */
    method MoveHead(t: Id)
      requires Inv(S()) && t in heap && heap[t].Thread? && heap[t].openupval != []
      requires marked.Keys == heap.Keys && heap[t].openupval[0] in heap && heap[t].openupval[0] != t
      requires IsOpen(heap, heap[t].openupval[0])
      requires marked[heap[t].openupval[0]] != OtherWhite(currentwhite)
      modifies `heap, `marked, `rootgc, `uvhead, `sweepgc, `gray
      ensures Inv(S()) && CloseStep(old(S()), S(), t)
    {
      hide Core, PhaseOk, Inv, Swept, Kept, Fields, Children, Ids, UpvalValue, CloseStep, Remove, IsWhite;
      ghost var s := S();
      var u := heap[t].openupval[0];
      var v := UpvalValue(heap, u);
      CloseLive(s, t);
      CloseChildren(s, t);
      CloseAtStep(s, t);
      MoveOut(t);
      ghost var s1 := S();
      InvCoreOnly(s1);
      if gcstate == Propagate && marked[u] == Black && v.Ref? && IsWhite(marked[v.id]) {
        BarrierForward(u, v.id);
        LiveKept(s1, S());
        StepThenMark(s, s1, S(), t);
      } else {
        NoBarrierOnClose(s1, u, v);
      }
    }

    /** One round of `luaF_close`. */
    method CloseHead(t: Id)
      requires Inv(S()) && t in heap && heap[t].Thread? && heap[t].openupval != []
      modifies `heap, `marked, `rootgc, `uvhead, `sweepgc, `gray
      ensures Inv(S()) && CloseStep(old(S()), S(), t)
    {
      hide Core, PhaseOk, Inv, CloseStep;
      InvCore(S());
      InvColour(S());
      HeadIsOpen(S(), t);
      if marked[heap[t].openupval[0]] == OtherWhite(currentwhite) {
        FreeHead(t);
      } else {
        MoveHead(t);
      }
    }

    /** Closes the open upvalues of `t` at or above `level`, and no others; every
        upvalue that is live still reads the value it read before. */
    method Close(t: Id, level: nat)
      requires Inv(S()) && t in heap && heap[t].Thread?
      modifies `heap, `marked, `rootgc, `uvhead, `sweepgc, `gray
      ensures Inv(S()) && Kept(old(heap), old(marked), heap, marked, currentwhite)
      ensures t in heap && heap[t].Thread? && heap[t].stack == old(heap)[t].stack
      ensures forall u | IsOpen(old(heap), u) && old(heap)[u].thread == t ::
                IsOpen(heap, u) <==> old(heap)[u].slot < level
      ensures forall u | old(Live(marked, currentwhite, u)) :: UpvalValue(heap, u) == UpvalValue(old(heap), u)
      ensures forall x | x in old(heap) && !(IsOpen(old(heap), x) && old(heap)[x].thread == t) && x != t ::
                x in heap && heap[x] == old(heap)[x]
      ensures ClosedOnly(old(heap), heap, t, level)
      ensures gcstate == Sweep ==> SweptClose(old(S()), S(), t)
    {
      hide Core, PhaseOk, Inv, Kept, UpvalValue, Live, SweptClose, ClosedTo, CloseStep;
      ghost var s := S();
      ghost var k := 0;
      ThreadList(s, t);
      ClosedNone(s, t);
      while heap[t].openupval != [] && heap[heap[t].openupval[0]].slot >= level
        invariant Inv(S()) && t in heap && heap[t].Thread?
        invariant Kept(s.heap, s.marked, heap, marked, currentwhite)
        invariant ClosedTo(s.heap, heap, t, k)
        invariant OpenList(heap, t, heap[t].openupval)
        invariant AllAbove(s.heap, s.heap[t].openupval, k, level)
        invariant gcstate == Sweep ==> SweptClose(s, S(), t)
        decreases |heap[t].openupval|
      {
        ghost var s1 := S();
        CloseHead(t);
        ClosedOne(s, s1, S(), t, k, level);
        if gcstate == Sweep {
          SweptCloseStep(s, s1, S(), t, k);
        }
        ThreadList(S(), t);
        k := k + 1;
      }
      ClosedAll(s, S(), t, k, level);
      ReadsKept(s, S());
    }

    // ------------------------------------------------------------ sweeping

    /** One string of the bucket that is swept. */
    method SweepStringAt(i: nat) returns (next: nat)
      requires Inv(S()) && gcstate == SweepString && sweepstrgc < |strt| && i < |strt[sweepstrgc]|
      modifies `heap, `marked, `strt
      ensures Inv(S()) && Swept(old(heap), old(marked), heap, marked, currentwhite, mainthread)
      ensures if next == i then strt == old(strt)[sweepstrgc := Cut(old(strt)[sweepstrgc], i)]
              else next == i + 1 && strt == old(strt) && marked == old(marked)[strt[sweepstrgc][i] := currentwhite]
    {
      hide Core, PhaseOk, Inv, Swept, IsCurrent, Live;
      var curr := strt[sweepstrgc][i];
      InBucket(S(), i);
      if marked[curr] == OtherWhite(currentwhite) && !heap[curr].fixed {
        DeadNow(marked, currentwhite, curr);
        SweepStringFree(S(), i);
        heap := heap - {curr};
        marked := marked - {curr};
        strt := strt[sweepstrgc := Cut(strt[sweepstrgc], i)];
        return i;
      } else {
        SurvivesNow(S(), curr);
        Whiten(S(), curr);
        marked := marked[curr := currentwhite];
        return i + 1;
      }
    }

    /** Sweeps one string bucket. */
    method SweepBucket()
      requires Inv(S()) && gcstate == SweepString
      modifies `heap, `marked, `strt, `sweepstrgc, `gcstate
      ensures Inv(S()) && Swept(old(heap), old(marked), heap, marked, currentwhite, mainthread)
      ensures |strt| == |old(strt)| && sweepstrgc == old(sweepstrgc) + 1
      ensures gcstate == (if sweepstrgc < |strt| then SweepString else Sweep)
    {
      hide Core, PhaseOk, Inv, Swept, IsCurrent, Live;
      ghost var s := S();
      var b, i := sweepstrgc, 0;
      KeptRefl(s);
      InSweepString(s);
      while i < |strt[b]|
        invariant Inv(S()) && gcstate == SweepString && sweepstrgc == b && |strt| == |s.strt| && b < |strt|
        invariant 0 <= i <= |strt[b]| && forall j | 0 <= j < i :: IsCurrent(marked, currentwhite, strt[b][j])
        invariant Swept(s.heap, s.marked, heap, marked, currentwhite, mainthread)
        decreases |strt[b]| - i
      {
        ghost var s1 := S();
        ghost var curr := strt[b][i];
        i := SweepStringAt(i);
        SweptOn(s, s1, S());
        PrefixStays(s1, S(), b, i, curr);
      }
      assert forall x | x in strt[b] :: exists j | 0 <= j < i :: strt[b][j] == x;
      NextBucket(S());
      sweepstrgc := sweepstrgc + 1;
      if sweepstrgc >= |strt| {
        gcstate := Sweep;
      }
    }

    /** Sweeps the open upvalues of a thread. */
    method SweepOpen(t: Id)
      requires Inv(S()) && gcstate == Sweep && t in heap && heap[t].Thread?
      modifies `heap, `marked, `uvhead
      ensures Inv(S()) && Swept(old(heap), old(marked), heap, marked, currentwhite, mainthread)
      ensures t in heap && heap[t].Thread?
      ensures forall u | u in heap[t].openupval :: IsCurrent(marked, currentwhite, u)
    {
      hide Core, PhaseOk, Inv, Swept, IsCurrent, Live, Fields;
      ghost var s := S();
      var i := 0;
      KeptRefl(s);
      while i < |heap[t].openupval|
        invariant Inv(S()) && t in heap && heap[t].Thread?
        invariant i <= |heap[t].openupval| && forall j | 0 <= j < i :: IsCurrent(marked, currentwhite, heap[t].openupval[j])
        invariant Swept(s.heap, s.marked, heap, marked, currentwhite, mainthread)
        decreases |heap[t].openupval| - i
      {
        ghost var s1 := S();
        var open := heap[t].openupval;
        var u := open[i];
        InOpenList(s1, t, i);
        if marked[u] == OtherWhite(currentwhite) {
          DeadNow(marked, currentwhite, u);
          CloseDead(s1, t, i);
          heap := heap[t := heap[t].(openupval := Cut(open, i))] - {u};
          marked := marked - {u};
          uvhead := Remove(uvhead, u);
        } else {
          SurvivesNow(s1, u);
          Whiten(s1, u);
          marked := marked[u := currentwhite];
          i := i + 1;
        }
        SweptOn(s, s1, S());
        OpenPrefixStays(s1, S(), t, i, u);
      }
      assert forall u | u in heap[t].openupval :: exists j | 0 <= j < i :: heap[t].openupval[j] == u;
    }

    /** Sweeps one object of the root list. Freeing a thread first closes what is
        left of its open upvalues, which are live and join the root list. */
    method SweepOne()
      requires Inv(S()) && gcstate == Sweep && sweepgc < |rootgc|
      modifies `heap, `marked, `rootgc, `uvhead, `sweepgc, `gray
      ensures Inv(S()) && Swept(old(heap), old(marked), heap, marked, currentwhite, mainthread)
      ensures |heap| < old(|heap|) || (|heap| == old(|heap|) && |rootgc| - sweepgc < old(|rootgc| - sweepgc))
    {
      hide Core, PhaseOk, Inv, Swept, IsCurrent, Live, Fields, Kept;
      ghost var s := S();
      var curr := rootgc[sweepgc];
      InRootList(s, sweepgc);
      KeptRefl(s);
      if heap[curr].Thread? {
        SweepOpen(curr);
      }
      ghost var s1 := S();
      InRootList(s1, sweepgc);
      if marked[curr] != OtherWhite(currentwhite) || curr == mainthread {
        SurvivesNow(s1, curr);
        Whiten(s1, curr);
        marked := marked[curr := currentwhite];
        SweptOn(s, s1, S());
        NowSwept(s1, S(), curr);
        SweepRootKeep(S());
        sweepgc := sweepgc + 1;
        SweptSize(s, S());
      } else {
        var before, at := |rootgc|, sweepgc;
        if heap[curr].Thread? {
          Close(curr, 0);
        }
        var pos := at + (|rootgc| - before);
        ghost var s2 := S();
        DeadThread(s1, s2, curr, pos);
        SweptOn(s, s1, s2);
        SweepRootFree(s2, pos);
        heap := heap - {curr};
        marked := marked - {curr};
        rootgc := Cut(rootgc, pos);
        SweptOn(s, s2, S());
        SweptSmaller(s, S(), curr);
      }
    }

    /** Sweeps at most `GCSWEEPMAX` objects of the root list. */
    method SweepRoots()
      requires Inv(S()) && gcstate == Sweep
      modifies `heap, `marked, `rootgc, `strt, `uvhead, `sweepgc, `gray, `gcstate
      ensures Inv(S()) && Swept(old(heap), old(marked), heap, marked, currentwhite, mainthread)
      ensures gcstate == Finalize ||
              (gcstate == Sweep &&
                 (|heap| < old(|heap|) || (|heap| == old(|heap|) && |rootgc| - sweepgc < old(|rootgc| - sweepgc))))
    {
      hide Core, PhaseOk, Inv, Swept;
      ghost var s := S();
      KeptRefl(s);
      InSweep(s);
      var count := 0;
      while sweepgc < |rootgc| && count < GCSWEEPMAX
        invariant Inv(S()) && gcstate == Sweep && sweepgc <= |rootgc|
        invariant Swept(s.heap, s.marked, heap, marked, currentwhite, mainthread)
        invariant count == 0 ==> S() == s
        invariant count > 0 ==>
                    || |heap| < |s.heap|
                    || (|heap| == |s.heap| && |rootgc| - sweepgc < |s.rootgc| - s.sweepgc)
        decreases |heap|, |rootgc| - sweepgc
      {
        ghost var s1 := S();
        SweepOne();
        SweptOn(s, s1, S());
        InSweep(S());
        count := count + 1;
      }
      if sweepgc == |rootgc| {
        CheckSizes();
        SweepDone(S());
        gcstate := Finalize;
      }
    }

    /** At the end of a sweep, a string table that has become too sparse is halved. */
    method CheckSizes()
      requires Inv(S()) && gcstate == Sweep
      modifies `strt
      ensures Inv(S()) && |strt| == if Sparse(old(strt)) then |old(strt)| / 2 else |old(strt)|
    {
      hide Inv;
      if Sparse(strt) {
        ResizeStrings(|strt| / 2);
      }
    }

    // ------------------------------------------------------------ the collector's steps

    /** One step of the collector. Nothing reachable is freed or changed; if the
        marks lie in a closed set `r` that holds the roots, they stay in it. */
    method SingleStep(ghost r: set<Id>)
      requires Inv(S())
      requires gcstate == Pause || gcstate == Propagate ==> Roots(S()) <= r <= heap.Keys && ClosedUnder(heap, r)
      requires gcstate == Propagate ==> forall x | NonWhite(marked, x) :: x in r
      modifies `heap, `marked, `rootgc, `strt, `uvhead, `gray, `grayagain, `currentwhite, `gcstate, `sweepstrgc, `sweepgc
      ensures Inv(S()) && StepOf(old(S()), S(), r) && Nearer(old(S()), S())
      ensures SameWorld(old(S()), S(), ReachSet(old(S())))
    {
      hide Inv, Core, PhaseOk, Swept, ClosedUnder, NonWhite, Reach, Fields, Whites, Live, AllWhite, ReachSet, SameWorld, Elems,
           Roots, Ids, Opens, Marking, LeavesOk, Tri, Progress;
      ghost var s := S();
      match gcstate {
        case Pause =>
          InPause(s);
          MarkRoot(r);
        case Propagate =>
          if gray != [] {
            InMarking(s);
            InCore(s);
            GrayHead(heap, marked, gray, grayagain);
            PropagateMark(Elems(grayagain) + Opens(heap), r);
            AfterPropagate(s, S(), r);
          } else {
            Atomic(r);
          }
        case SweepString =>
          InSweepString(s);
          SweepBucket();
        case Sweep =>
          InSweep(s);
          SweepRoots();
          InSweepStill(S());
        case Finalize =>
          gcstate := Pause;
          EndCycle(s);
      }
      SameRootsNow(s, S());
      StepKeepsWorld(s, S(), r);
    }

    /** The first half of a full collection: abandons a mark phase, or finishes a
        sweep, until everything is of the current white. */
    method FinishCycle()
      requires Inv(S())
      modifies `heap, `marked, `rootgc, `strt, `uvhead, `gray, `grayagain, `currentwhite, `gcstate, `sweepstrgc, `sweepgc
      ensures Inv(S()) && gcstate == Finalize
      ensures SameWorld(old(S()), S(), ReachSet(old(S())))
      ensures old(gcstate) == Pause || old(gcstate) == Propagate ==> heap.Keys == old(heap.Keys)
    {
      hide Inv, Core, PhaseOk, Swept, ClosedUnder, NonWhite, Reach, Fields, Whites, Live, Nearer, StepOf, Roots,
           SameWorld, ReachSet, Work, Rest, Elems, Ids, NoDead;
      ghost var s := S();
      WorldRefl(s);
      if gcstate == Pause || gcstate == Propagate {
        sweepstrgc := 0;
        sweepgc := 0;
        gray := [];
        grayagain := [];
        gcstate := SweepString;
        Abandon(s, S());
      }
      while gcstate != Finalize
        invariant Inv(S()) && SameWorld(s, S(), ReachSet(s))
        invariant gcstate == SweepString || gcstate == Sweep || gcstate == Finalize
        invariant s.gcstate == Pause || s.gcstate == Propagate ==> NoDead(marked, currentwhite) && heap.Keys == s.heap.Keys
        decreases PhaseRank(gcstate), Work(S()), Rest(S())
      {
        ghost var s1 := S();
        SingleStep({});
        Sweeping(s, s1, S());
        NothingFreed(s1, S());
      }
    }

    /** The second half: a whole cycle without interruption. */
    method RunCycle()
      requires Inv(S()) && gcstate == Finalize
      modifies `heap, `marked, `rootgc, `strt, `uvhead, `gray, `grayagain, `currentwhite, `gcstate, `sweepstrgc, `sweepgc
      ensures Inv(S()) && gcstate == Pause && Cycle(old(S()), S())
    {
      hide Inv, Core, PhaseOk, Swept, ClosedUnder, NonWhite, Reach, Fields, Whites, Live, AllWhite, Nearer, StepOf, Roots,
           SameWorld, ReachSet, Cycle, Work, Rest, Elems, Ids;
      ghost var s := S();
      Finished(s);
      MarkRoot(ReachSet(s));
      Restarted(s, S());
      while gcstate != Pause
        invariant Inv(S()) && Cycle(s, S())
        decreases PhaseRank(gcstate), Work(S()), Rest(S())
      {
        ghost var s1 := S();
        InCycle(s, s1);
        SingleStep(ReachSet(s));
        CycleStep(s, s1, S());
        IsNearer(s1, S());
      }
    }

    /** A full collection from any state leaves exactly the objects that were
        reachable, and the fixed ones, all white, between two cycles. */
    method FullGC()
      requires Inv(S())
      modifies `heap, `marked, `rootgc, `strt, `uvhead, `gray, `grayagain, `currentwhite, `gcstate, `sweepstrgc, `sweepgc
      ensures Inv(S()) && gcstate == Pause && AllWhite(marked, currentwhite)
      ensures heap.Keys == set x | x in old(heap) &&
                (Reach(old(heap), old(Roots(S())), x) || Fixed(old(heap), mainthread, x))
      ensures SameWorld(old(S()), S(), ReachSet(old(S())))
    {
      hide Inv, Core, PhaseOk, Reach, Fields, AllWhite, Roots, SameWorld, ReachSet, Cycle;
      ghost var s := S();
      FinishCycle();
      ghost var s2 := S();
      RunCycle();
      CycleDone(s2, S());
      CycleWorld(s2, S());
      BothCycles(s, s2, S());
    }

    // ------------------------------------------------------------ runs

    /** A new state: the main thread, its globals and the registry. */
    constructor ()
      ensures Inv(S()) && gcstate == Pause
    {
      heap := map[0 := Thread([Ref(1)], []), 1 := Block(Table, []), 2 := Block(Table, [])];
      marked := map[0 := White0, 1 := White0, 2 := White0];
      rootgc := [2, 1, 0];
      strt := seq(MINSTRTABSIZE, i => []);
      uvhead, gray, grayagain := [], [], [];
      currentwhite, gcstate := White0, Pause;
      sweepstrgc, sweepgc := 0, 0;
      mainthread, registry, running := 0, 2, 0;
      mt := seq(NUM_TAGS, i => Plain);
      new;
      FreshState(S());
    }

    method Push(v: Value)
      requires Inv(S()) && (v.Ref? ==> Live(marked, currentwhite, v.id))
      modifies `heap
      ensures Inv(S()) && heap == Pushed(old(heap), running, v)
    {
      hide Inv, Core, PhaseOk, Live, Ids;
      InRunning(S());
      PushIds(S(), v);
      SetStack(running, heap[running].stack + [v]);
    }

    /** Pushes a field of the object in a stack slot. */
    method Get(slot: nat, field: nat)
      requires Inv(S())
      modifies `heap
      ensures Inv(S())
      ensures heap == AfterGet(old(heap), running, slot, field)
    {
      hide Inv, Core, PhaseOk, Live, Ids, Children;
      InRunning(S());
      var stack := heap[running].stack;
      if slot < |stack| && stack[slot].Ref? {
        SlotLive(S(), slot);
        var fields := Fields(heap, stack[slot].id);
        if field < |fields| {
          FieldLive(S(), stack[slot].id, field);
          Push(fields[field]);
        }
      }
    }

    /** Stores the value of one stack slot into the object in another; an upvalue
        that is open writes through to the stack of its thread. */
    method Set(slot: nat, field: nat, from: nat)
      requires Inv(S())
      modifies `heap, `marked, `gray, `grayagain
      ensures Inv(S())
      ensures heap == AfterSet(old(heap), running, slot, field, from)
    {
      hide Inv, Core, PhaseOk, Live, Ids, Children;
      InRunning(S());
      var stack := heap[running].stack;
      if slot < |stack| && from < |stack| && stack[slot].Ref? {
        SlotLive(S(), slot);
        SlotLive(S(), from);
        var o := stack[slot].id;
        match heap[o]
        case Block(kind, fields) =>
          if field < |fields| || (kind.Table? && field == |fields|) {
            SetField(o, field, stack[from]);
          }
        case OpenUpval(t, level) =>
          InHome(S(), o);
          StoreSlot(S(), t, level, stack[from]);
          heap := heap[t := heap[t].(stack := heap[t].stack[level := stack[from]])];
        case _ =>
      }
    }

    /** Removes the top of the stack, if no open upvalue reads it. */
    method Pop()
      requires Inv(S())
      modifies `heap
      ensures Inv(S())
      ensures heap == AfterPop(old(heap), running)
    {
      hide Inv, Core, PhaseOk, Live, Ids;
      InRunning(S());
      var n := |heap[running].stack|;
      if n > 0 && (heap[running].openupval == [] || heap[heap[running].openupval[0]].slot + 1 < n) {
        PopIds(S());
        SetStack(running, heap[running].stack[..n - 1]);
      }
    }

    /** Creates an object whose fields are copied from the stack, and pushes it. */
    method NewBlock(x: Id, kind: Kind, slots: seq<nat>)
      requires Inv(S())
      modifies `heap, `marked, `rootgc, `sweepgc
      ensures Inv(S())
      ensures heap == AfterNewBlock(old(heap), running, x, kind, slots)
    {
      hide Inv, Core, PhaseOk, Live, Ids;
      InRunning(S());
      var stack := heap[running].stack;
      if x !in heap && forall i | 0 <= i < |slots| :: slots[i] < |stack| {
        var fields := seq(|slots|, i requires 0 <= i < |slots| => stack[slots[i]]);
        CopyIds(S(), slots, fields);
        Link(x, Block(kind, fields));
        NowLive(marked, currentwhite, x);
        Push(Ref(x));
      }
    }

    /** A new coroutine shares the table of globals. */
    method NewThread(x: Id)
      requires Inv(S())
      modifies `heap, `marked, `rootgc, `sweepgc
      ensures Inv(S())
      ensures heap == AfterNewThread(old(heap), running, x)
    {
      hide Inv, Core, PhaseOk, Live, Ids;
      InRunning(S());
      var stack := heap[running].stack;
      if x !in heap && |stack| > 0 {
        var globals := [stack[0]];
        CopyIds(S(), [0], globals);
        Link(x, Thread(globals, []));
        NowLive(marked, currentwhite, x);
        Push(Ref(x));
      }
    }

    /** Interning a string: `x` is the string if it exists, else the new one. */
    method Intern(x: Id, hash: nat)
      requires Inv(S())
      modifies `heap, `marked, `strt
      ensures Inv(S())
      ensures heap == AfterIntern(old(heap), running, x, hash)
    {
      hide Inv, Core, PhaseOk, Live;
      if x !in heap {
        NewString(x, hash);
        NowLive(marked, currentwhite, x);
        Push(Ref(x));
      } else if heap[x].String? {
        FindString(x);
        Push(Ref(x));
      }
    }

    /** Captures a stack slot of the running thread and pushes the upvalue. */
    method Capture(slot: nat, x: Id)
      requires Inv(S())
      modifies `heap, `marked, `uvhead
      ensures Inv(S())
      ensures Captured(old(heap), heap, running, slot, x)
    {
      hide Inv, Core, PhaseOk, Live;
      InRunning(S());
      if x !in heap && slot < |heap[running].stack| {
        ghost var h := heap;
        var u := FindUpval(running, slot, x);
        ghost var h1 := heap;
        Push(Ref(u));
        CapturePushed(h, h1, heap, running, slot, x, u);
      }
    }

    /** Resumes the coroutine in a stack slot. */
    method Resume(slot: nat)
      requires Inv(S())
      modifies `running
      ensures Inv(S())
      ensures Effect(Op.Resume(slot), old(S()), S())
    {
      hide Inv, Core, PhaseOk, Live, Ids;
      InRunning(S());
      var stack := heap[running].stack;
      if slot < |stack| && stack[slot].Ref? {
        SlotLive(S(), slot);
        if heap[stack[slot].id].Thread? {
          NewRunning(S(), stack[slot].id);
          running := stack[slot].id;
        }
      }
    }

    /** Sets the metatable of a basic type, with no barrier. */
    method SetTypeMetatable(tag: nat, slot: nat)
      requires Inv(S())
      modifies `mt
      ensures Inv(S())
      ensures Effect(Op.SetTypeMetatable(tag, slot), old(S()), S())
    {
      hide Inv, Core, PhaseOk, Live, Ids;
      InRunning(S());
      var stack := heap[running].stack;
      if slot < |stack| && tag < |mt| {
        SlotLive(S(), slot);
        NewMt(S(), tag, stack[slot]);
        mt := mt[tag := stack[slot]];
      }
    }

    /** Rebuilds the string table with another number of buckets, but not while
        the buckets are being swept. */
    method ResizeStrings(newsize: nat)
      requires Inv(S())
      modifies `strt
      ensures Inv(S())
      ensures |strt| == if gcstate == SweepString || newsize == 0 then |old(strt)| else newsize
    {
      hide Inv, Core, PhaseOk, Interned, Rechained;
      if gcstate == SweepString || newsize == 0 {
        return;
      }
      ghost var s := S();
      InStrings(S());
      var newhash := seq(newsize, b => []);
      ChainNone(heap, strt, newhash);
      var i := 0;
      while i < |strt|
        invariant S() == s && i <= |strt| && |newhash| == newsize
        invariant Rechained(heap, strt, newhash, i, 0)
      {
        var j := 0;
        while j < |strt[i]|
          invariant S() == s && j <= |strt[i]| && |newhash| == newsize
          invariant Rechained(heap, strt, newhash, i, j)
        {
          var p := strt[i][j];
          InChain(heap, strt, i, j);
          var h1 := heap[p].hash % newsize;
          Rechain(heap, strt, newhash, i, j);
          newhash := newhash[h1 := [p] + newhash[h1]];
          j := j + 1;
        }
        NextChain(heap, strt, newhash, i);
        i := i + 1;
      }
      Resized(S(), newhash);
      strt := newhash;
    }

    /** Any operation of a program, or a step of the collector. What does not apply
        to the state does nothing. */
    method Execute(op: Op)
      requires Inv(S())
      modifies this
      ensures Inv(S())
      ensures Effect(op, old(S()), S())
    {
      hide Inv, SameWorld, ReachSet, Core, PhaseOk, StepOf, Nearer, Kept, SweptClose, UpvalValue, Closed, ClosedOnly, Captured,
           AfterGet, AfterSet, AfterPop, AfterNewBlock, AfterNewThread, AfterIntern, Pushed, StackOf;
      match op
      case Step =>
        AnyMark(S());
        SingleStep(heap.Keys);
      case Full => FullGC();
      case Get(slot, field) => Get(slot, field);
      case Set(slot, field, from) => Set(slot, field, from);
      case Pop => Pop();
      case PushRegistry =>
        RegistryLive(S());
        Push(Ref(registry));
      case NewBlock(x, kind, slots) => NewBlock(x, kind, slots);
      case NewThread(x) => NewThread(x);
      case Intern(x, hash) => Intern(x, hash);
      case ResizeStrings(n) => ResizeStrings(n);
      case Capture(slot, x) => Capture(slot, x);
      case Close(level) =>
        ghost var s := S();
        InRunning(s);
        Close(running, level);
        ClosedEffect(s, S(), level);
      case Resume(slot) => Resume(slot);
      case SetTypeMetatable(tag, slot) => SetTypeMetatable(tag, slot);
    }

    /** Safety over whole runs: however program steps and collector steps
        interleave, every reachable object exists in every state of the run, and
        a collector step changes nothing the program can see. */
    method Run(script: seq<Op>) returns (ghost states: seq<State>)
      requires Inv(S())
      modifies this
      ensures |states| == |script| + 1 && states[0] == old(S()) && states[|script|] == S()
      ensures forall i | 0 <= i <= |script| :: Inv(states[i])
      ensures forall i, x | 0 <= i <= |script| && Reach(states[i].heap, Roots(states[i]), x) :: x in states[i].heap
      ensures forall i | 0 <= i < |script| :: Effect(script[i], states[i], states[i + 1])
    {
      hide Inv, Effect, Core, PhaseOk, Reach, Roots;
      states := [S()];
      for i := 0 to |script|
        invariant Inv(S())
        invariant |states| == i + 1 && states[0] == old(S()) && states[i] == S()
        invariant forall k | 0 <= k <= i :: Inv(states[k])
        invariant forall k | 0 <= k < i :: Effect(script[k], states[k], states[k + 1])
      {
        Execute(script[i]);
        states := states + [S()];
      }
      forall i, x | 0 <= i <= |script| && Reach(states[i].heap, Roots(states[i]), x) ensures x in states[i].heap {
        InvSafe(states[i], x);
      }
    }
  }

  lemma CapturePushed(h: Heap, h1: Heap, h2: Heap, t: Id, slot: nat, x: Id, u: Id)
    requires t in h && h[t].Thread? && slot < |h[t].stack| && x !in h
    requires u in h1 && h1[u] == OpenUpval(t, slot) && t in h1 && h1[t].Thread? && h1[t].stack == h[t].stack
    requires if u in h then h1 == h
             else u == x && (forall v | v in h :: h[v] != OpenUpval(t, slot)) && h1.Keys == h.Keys + {u}
    requires forall y | y in h && y != t :: y in h1 && h1[y] == h[y]
    requires h2 == Pushed(h1, t, Ref(u))
    ensures Captured(h, h2, t, slot, x)
  {
    assert CapturedAs(h, h2, t, slot, x, u);
  }

  lemma ClosedEffect(s: State, s': State, level: nat)
    requires s' == s.(heap := s'.heap, marked := s'.marked, rootgc := s'.rootgc, uvhead := s'.uvhead, sweepgc := s'.sweepgc,
                      gray := s'.gray)
    requires ClosedOnly(s.heap, s'.heap, s.running, level) && Kept(s.heap, s.marked, s'.heap, s'.marked, s.currentwhite)
    requires forall u | Live(s.marked, s.currentwhite, u) :: UpvalValue(s'.heap, u) == UpvalValue(s.heap, u)
    ensures Effect(Op.Close(level), s, s')
  {
    hide UpvalValue, Fields;
    forall u | OpenOf(s.heap, s.running, u) && Live(s.marked, s.currentwhite, u) && s.heap[u].slot >= level
      ensures u in s'.heap && s'.heap[u] == Block(Upval, [UpvalValue(s.heap, u)])
    {
      OpenFields(s.heap, s'.heap, u);
    }
  }

  /** An open upvalue that was closed with its references kept. */
  lemma OpenFields(h: Heap, h': Heap, u: Id)
    requires IsOpen(h, u) && u in h' && !IsOpen(h', u) && SameObject(h[u], h'[u]) && Fields(h', u) == Fields(h, u)
    ensures h'[u] == Block(Upval, [UpvalValue(h, u)])
  {
  }

  lemma MainIsThread(s: State)
    requires Core(s)
    ensures s.mainthread in s.heap && s.heap[s.mainthread].Thread?
  {
  }

  lemma Globals(h: Heap, main: Id, r: set<Id>)
    requires main in h && h[main].Thread? && main in r && ClosedUnder(h, r)
    ensures Ids(h[main].stack[..if h[main].stack == [] then 0 else 1]) <= r
  {
    var stack := h[main].stack;
    assert Ids(stack[..if stack == [] then 0 else 1]) <= Ids(stack) == Children(h, main);
  }

  lemma OneId(x: Id)
    ensures Ids([Ref(x)]) == {x}
  {
    assert [Ref(x)][0].Ref?;
  }

  lemma KeepMark(m: Marks, m': Marks, r: set<Id>, x: Id)
    requires Progress(m, m', r) && NonWhite(m, x)
    ensures NonWhite(m', x)
  {
  }

  lemma SameRoots(s: State, s': State)
    requires s' == s.(marked := s'.marked, gray := s'.gray, grayagain := s'.grayagain)
    ensures Roots(s') == Roots(s)
  {
  }

  lemma KeepAll(m: Marks, m': Marks, r: set<Id>, xs: set<Id>)
    requires Progress(m, m', r) && forall x | x in xs :: NonWhite(m, x)
    ensures forall x | x in xs :: NonWhite(m', x)
  {
  }

  lemma ProgressRefl(m: Marks, r: set<Id>)
    ensures Progress(m, m, r)
  {
  }

  lemma OpensAre(h: Heap, uvhead: seq<Id>)
    requires AllOpen(h, uvhead)
    ensures Opens(h) == Elems(uvhead)
  {
    assert forall x :: x in uvhead <==> IsOpen(h, x);
  }

  lemma OpenAt(h: Heap, m: Marks, gray: seq<Id>, grayagain: seq<Id>, uvhead: seq<Id>, i: nat)
    requires Marking(h, m, gray, grayagain) && AllOpen(h, uvhead) && i < |uvhead|
    ensures IsOpen(h, uvhead[i]) && uvhead[i] in m && m[uvhead[i]] != Black
    ensures Children(h, uvhead[i]) == Ids([UpvalValue(h, uvhead[i])])
  {
    assert uvhead[i] in uvhead;
  }

  /** An open upvalue that is white, or whose value is marked, is not pending. */
  lemma DropOpen(h: Heap, m: Marks, gray: seq<Id>, q: set<Id>, uvhead: seq<Id>, i: nat)
    requires i < |uvhead| && Tri(h, m, Elems(gray) + (q + Elems(uvhead[i..])))
    requires !NonWhite(m, uvhead[i]) || forall y | y in Children(h, uvhead[i]) :: NonWhite(m, y)
    ensures Tri(h, m, Elems(gray) + (q + Elems(uvhead[i + 1..])))
  {
    hide Children;
    assert uvhead[i..] == [uvhead[i]] + uvhead[i + 1..];
  }

  lemma NoElems(a: set<Id>, q: set<Id>)
    ensures a + (q + Elems([])) == a + q
    ensures Elems([]) + a == a
  {
  }

  lemma InCore(s: State)
    requires Inv(s)
    ensures Core(s) && AllOpen(s.heap, s.uvhead)
  {
  }

  lemma AgainToGray(h: Heap, m: Marks, grayagain: seq<Id>, again: set<Id>)
    requires Marking(h, m, [], grayagain) && Tri(h, m, again) && again <= Elems(grayagain)
    ensures Marking(h, m, grayagain, []) && Tri(h, m, Elems(grayagain) + {})
  {
    hide Children;
  }

  lemma MarkingColour(h: Heap, m: Marks, gray: seq<Id>, grayagain: seq<Id>)
    requires Marking(h, m, gray, grayagain)
    ensures ColourOk(h, m)
  {
  }

  /** The invariant of every phase does not speak of the gray lists. */
  lemma CoreLists(s: State, s': State)
    requires Core(s) && s' == s.(gray := s'.gray, grayagain := s'.grayagain, gcstate := s'.gcstate)
    ensures Core(s')
  {
    assert Roots(s') == Roots(s);
  }

  lemma InvCore(s: State)
    requires Inv(s)
    ensures Core(s)
    ensures forall x | x in s.marked :: x in s.heap
    ensures forall x | x in s.heap :: x in s.marked
  {
  }

  lemma InvColour(s: State)
    requires Inv(s)
    ensures s.marked.Keys == s.heap.Keys
  {
  }

  lemma LiveExists(s: State)
    requires Inv(s)
    ensures forall x | Live(s.marked, s.currentwhite, x) :: x in s.heap && x in s.marked
  {
  }

  lemma FieldsAfter(h: Heap, o: Id, i: nat, v: Value)
    requires o in h && h[o].Block? && i <= |h[o].fields|
    ensures var fields := PutField(h[o].fields, i, v);
            && (forall y | y in Ids(fields) :: y in Children(h, o) || (v.Ref? && y == v.id))
            && Children(h[o := h[o].(fields := fields)], o) == Ids(fields)
  {
  }

  /** A black object of the mark phase has no white reference. */
  lemma OldMarked(s: State, o: Id)
    requires Inv(s) && o in s.heap
    ensures s.gcstate.Propagate? && s.marked[o].Black? ==> forall y | y in Children(s.heap, o) :: NonWhite(s.marked, y)
  {
    hide Children;
    if s.gcstate.Propagate? && s.marked[o].Black? {
      forall y | y in Children(s.heap, o) ensures NonWhite(s.marked, y) { TriColour(s, o, y); }
    }
  }

  lemma NoBarrierNeeded(s: State, s': State, o: Id, v: Value)
    requires Inv(s) && o in s.heap && s.heap[o].Block? && Core(s') && PhaseOk(s', {o})
    requires s'.marked == s.marked && s'.gcstate == s.gcstate && o in s'.heap && s'.heap[o].Block?
    requires forall y | y in Ids(s'.heap[o].fields) :: y in Children(s.heap, o) || (v.Ref? && y == v.id)
    requires s.gcstate.Propagate? && s.marked[o].Black? ==> forall y | y in Children(s.heap, o) :: NonWhite(s.marked, y)
    requires !(v.Ref? && v.id in s.marked && IsWhite(s.marked[v.id]) && s.marked[o].Black?)
    requires v.Ref? ==> v.id in s.marked
    ensures Inv(s')
  {
    hide Owned, LiveClosed, Tri, GrayLists;
    if s.gcstate.Propagate? && s.marked[o].Black? {
      forall y | y in Children(s'.heap, o) ensures NonWhite(s'.marked, y) {}
      NoBarrier(s', o);
    } else if s.marked[o].Black? {
    } else {
      NoBarrier(s', o);
    }
  }

  lemma ForwardReady(s: State, o: Id, v: Id)
    requires Core(s) && PhaseOk(s, {o}) && s.gcstate.Propagate?
    ensures Marking(s.heap, s.marked, s.gray, s.grayagain)
    ensures Tri(s.heap, s.marked, Elems(s.gray) + (Elems(s.grayagain) + Opens(s.heap) + {o}))
    ensures ClosedUnder(s.heap, s.heap.Keys)
  {
    NoDeadClosed(s);
  }

  lemma ForwardDone(s: State, s': State, o: Id, v: Id)
    requires Core(s) && PhaseOk(s, {o}) && s.gcstate.Propagate? && o in s.heap && s.marked[o].Black?
    requires forall y | y in Children(s.heap, o) :: y == v || NonWhite(s.marked, y)
    requires s' == s.(marked := s'.marked, gray := s'.gray)
    requires Marking(s'.heap, s'.marked, s'.gray, s'.grayagain)
    requires Marked(s.heap, s.marked, s'.marked, s.heap.Keys) && NonWhite(s'.marked, v)
    requires Tri(s'.heap, s'.marked, Elems(s'.gray) + (Elems(s'.grayagain) + Opens(s'.heap) + {o}))
    ensures Inv(s')
  {
    hide Owned, Children, GrayLists;
    MarkedIsProgress(s.heap, s.marked, s'.marked, s.heap.Keys);
    var q := Elems(s'.grayagain) + Opens(s'.heap);
    assert q + {o} == Elems(s'.grayagain) + Opens(s'.heap) + {o};
    FinishTraverse(s'.heap, s'.marked, s'.gray, o, q);
    BackToPropagate(s, s', q, s.heap.Keys);
  }

  lemma MainListed(s: State)
    requires Inv(s)
    ensures s.mainthread in s.rootgc && |s.rootgc| > 0
  {
    assert IsRoot(s.heap, s.mainthread);
  }

  lemma MainAfter(rootgc: seq<Id>, main: Id, pos: nat)
    requires main in rootgc && pos < |rootgc| && main !in rootgc[..pos] && rootgc[pos] != main
    ensures pos + 1 < |rootgc| && main !in rootgc[..pos + 1]
  {
    assert rootgc == rootgc[..pos] + [rootgc[pos]] + rootgc[pos + 1..];
  }

  lemma ThreadList(s: State, t: Id)
    requires Inv(s) && t in s.heap && s.heap[t].Thread?
    ensures OpenList(s.heap, t, s.heap[t].openupval)
  {
  }

  lemma OpenSees(s: State, t: Id, k: nat)
    requires Inv(s) && t in s.heap && s.heap[t].Thread? && k < |s.heap[t].openupval|
    requires Live(s.marked, s.currentwhite, t)
    ensures var p := s.heap[t].openupval[k];
            && IsOpen(s.heap, p) && s.heap[p].thread == t && p in s.marked
            && forall y | y in Children(s.heap, p) :: Live(s.marked, s.currentwhite, y)
  {
    var p := s.heap[t].openupval[k];
    assert OpenList(s.heap, t, s.heap[t].openupval) && p in s.heap[t].openupval;
    forall y | y in Children(s.heap, p) ensures Live(s.marked, s.currentwhite, y) {
      assert y in Children(s.heap, t);
    }
  }

  lemma SplitsAt(s: State, t: Id, k: nat, level: nat)
    requires Inv(s) && t in s.heap && s.heap[t].Thread? && k <= |s.heap[t].openupval|
    requires OpenList(s.heap, t, s.heap[t].openupval)
    requires forall i | 0 <= i < k :: s.heap[s.heap[t].openupval[i]].slot > level
    requires k < |s.heap[t].openupval| ==> s.heap[s.heap[t].openupval[k]].slot < level
    ensures Splits(s.heap, s.heap[t].openupval, k, level)
    ensures forall v | v in s.heap :: s.heap[v] != OpenUpval(t, level)
  {
    var open := s.heap[t].openupval;
    assert Splits(s.heap, open, k, level);
    forall v | v in s.heap ensures s.heap[v] != OpenUpval(t, level) {
      if IsOpen(s.heap, v) && s.heap[v].thread == t {
        assert v in open;
      }
    }
  }

  lemma LiveNow(m: Marks, m': Marks, cw: White, x: Id)
    requires m' == m[x := cw] || (m' == m && x in m && m[x] != OtherWhite(cw))
    ensures Live(m', cw, x) && forall y | Live(m, cw, y) :: Live(m', cw, y)
  {
  }

  /** Live objects survive, stay live, and keep their references. */
  ghost predicate Kept(h: Heap, m: Marks, h': Heap, m': Marks, cw: White) {
    forall x | x in h && Live(m, cw, x) ::
      x in h' && Live(m', cw, x) && SameObject(h[x], h'[x]) && Fields(h', x) == Fields(h, x)
  }

  lemma KeptTrans(h0: Heap, m0: Marks, h1: Heap, m1: Marks, h2: Heap, m2: Marks, cw: White)
    requires Kept(h0, m0, h1, m1, cw) && Kept(h1, m1, h2, m2, cw)
    ensures Kept(h0, m0, h2, m2, cw)
  {
    hide Fields;
  }

  lemma KeptRefl(s: State)
    requires Inv(s)
    ensures Kept(s.heap, s.marked, s.heap, s.marked, s.currentwhite)
    ensures Swept(s.heap, s.marked, s.heap, s.marked, s.currentwhite, s.mainthread)
  {
    hide Fields;
  }

  lemma SweptKept(h: Heap, m: Marks, h': Heap, m': Marks, cw: White, main: Id)
    requires Swept(h, m, h', m', cw, main)
    ensures Kept(h, m, h', m', cw)
  {
    hide Fields;
  }

  /** Marking alone keeps every live object live. */
  lemma LiveKept(s: State, s': State)
    requires s'.heap == s.heap && s'.currentwhite == s.currentwhite && Inv(s') && s'.gcstate.Propagate?
    ensures Kept(s.heap, s.marked, s'.heap, s'.marked, s.currentwhite)
  {
    hide Fields, Owned, LiveClosed;
  }

  lemma InvCoreOnly(s: State)
    requires Core(s)
    ensures forall x | x in s.marked :: x in s.heap
    ensures forall x | x in s.heap :: x in s.marked
  {
  }

  lemma CloseChildren(s: State, t: Id)
    requires Inv(s) && t in s.heap && s.heap[t].Thread? && s.heap[t].openupval != []
    requires var u := s.heap[t].openupval[0]; IsOpen(s.heap, u) && Live(s.marked, s.currentwhite, u)
    ensures var u := s.heap[t].openupval[0];
            var v := UpvalValue(s.heap, u);
            && (v.Ref? ==> v.id in s.heap && v.id in s.marked)
            && forall y | y in Ids([v]) :: v.Ref? && y == v.id
    ensures var s' := CloseAt(s, t);
            var u := s.heap[t].openupval[0];
            Children(s'.heap, u) == Ids([UpvalValue(s.heap, u)])
  {
    var u := s.heap[t].openupval[0];
    var v := UpvalValue(s.heap, u);
    assert Fields(s.heap, u) == [v];
    if v.Ref? {
      assert [v][0].Ref? && v.id in Children(s.heap, u);
    }
  }

  lemma NoBarrierOnClose(s: State, u: Id, v: Value)
    requires Core(s) && PhaseOk(s, {u}) && u in s.heap && s.heap[u] == Block(Upval, [v])
    requires v.Ref? ==> v.id in s.marked
    requires !(s.gcstate.Propagate? && s.marked[u].Black? && v.Ref? && IsWhite(s.marked[v.id]))
    ensures Inv(s)
  {
    if s.gcstate.Propagate? {
      NoBarrier(s, u);
    }
  }

  ghost predicate ClosedHead(h: Heap, h': Heap, t: Id)
    requires t in h && h[t].Thread? && h[t].openupval != []
  {
    var u := h[t].openupval[0];
    && t in h' && h'[t] == Thread(h[t].stack, h[t].openupval[1..])
    && h'.Keys <= h.Keys && !IsOpen(h', u)
    && forall x | x in h && x != t && x != u :: x in h' && h'[x] == h[x]
  }

  /** One round of closing, in any phase, and what it does to a sweep under way. */
  ghost predicate CloseStep(s: State, s': State, t: Id) {
    && s' == s.(heap := s'.heap, marked := s'.marked, rootgc := s'.rootgc, uvhead := s'.uvhead, sweepgc := s'.sweepgc,
                gray := s'.gray)
    && t in s.heap && s.heap[t].Thread? && s.heap[t].openupval != []
    && Kept(s.heap, s.marked, s'.heap, s'.marked, s.currentwhite)
    && ClosedHead(s.heap, s'.heap, t)
    && (s.gcstate == Sweep ==>
          && Swept(s.heap, s.marked, s'.heap, s'.marked, s.currentwhite, s.mainthread)
          && var u := s.heap[t].openupval[0];
             (IsCurrent(s.marked, s.currentwhite, u) ==> s'.heap.Keys == s.heap.Keys && RootsAhead(s, s')))
  }

  /** The root list grew at its head only, and the sweep position moved along. */
  ghost predicate RootsAhead(s: State, s': State) {
    && |s'.rootgc| >= |s.rootgc| && s'.rootgc[|s'.rootgc| - |s.rootgc|..] == s.rootgc
    && s'.sweepgc == if s.sweepgc > 0 then s.sweepgc + |s'.rootgc| - |s.rootgc| else 0
  }

  lemma CloseAtStep(s: State, t: Id)
    requires t in s.heap && s.heap[t].Thread? && s.heap[t].openupval != []
    requires var u := s.heap[t].openupval[0]; IsOpen(s.heap, u) && u in s.marked && u != t
    requires Swept(s.heap, s.marked, CloseAt(s, t).heap, CloseAt(s, t).marked, s.currentwhite, s.mainthread)
    ensures CloseStep(s, CloseAt(s, t), t)
  {
    hide Fields, UpvalValue;
    SweptKept(s.heap, s.marked, CloseAt(s, t).heap, CloseAt(s, t).marked, s.currentwhite, s.mainthread);
  }

  lemma StepThenMark(s: State, s1: State, s2: State, t: Id)
    requires CloseStep(s, s1, t) && s.gcstate.Propagate?
    requires s2 == s1.(marked := s2.marked, gray := s2.gray)
    requires Kept(s1.heap, s1.marked, s2.heap, s2.marked, s.currentwhite)
    ensures CloseStep(s, s2, t)
  {
    hide Fields, Swept;
    KeptTrans(s.heap, s.marked, s1.heap, s1.marked, s2.heap, s2.marked, s.currentwhite);
  }

  /** What closing does to a sweep under way: if all upvalues of the thread were
      already swept over, nothing is freed. */
  ghost predicate SweptClose(s: State, s': State, t: Id) {
    && Swept(s.heap, s.marked, s'.heap, s'.marked, s.currentwhite, s.mainthread)
    && (t in s.heap && s.heap[t].Thread? && (forall u | u in s.heap[t].openupval :: IsCurrent(s.marked, s.currentwhite, u)) ==>
          s'.heap.Keys == s.heap.Keys && RootsAhead(s, s'))
  }

  lemma SweptCloseStep(s: State, s1: State, s2: State, t: Id, k: nat)
    requires Inv(s) && Inv(s1) && Inv(s2) && s1.currentwhite == s.currentwhite && s1.mainthread == s.mainthread
    requires t in s.heap && s.heap[t].Thread? && k < |s.heap[t].openupval|
    requires t in s1.heap && s1.heap[t] == Thread(s.heap[t].stack, s.heap[t].openupval[k..])
    requires SweptClose(s, s1, t) && CloseStep(s1, s2, t) && s1.gcstate == Sweep
    ensures SweptClose(s, s2, t)
  {
    hide Fields, Inv, Swept, Kept, RootsAhead, ClosedHead;
    InvColour(s);
    InvColour(s1);
    InvColour(s2);
    SweptTrans(s.heap, s.marked, s1.heap, s1.marked, s2.heap, s2.marked, s.currentwhite, s.mainthread);
    CurrentStays(s.heap, s.marked, s1.heap, s1.marked, s.currentwhite, s.mainthread);
    assert s.heap[t].openupval[k..][0] == s.heap[t].openupval[k];
    if RootsAhead(s, s1) && RootsAhead(s1, s2) {
      RootsAheadTrans(s, s1, s2);
    }
  }

  lemma RootsAheadTrans(s: State, s1: State, s2: State)
    requires RootsAhead(s, s1) && RootsAhead(s1, s2)
    ensures RootsAhead(s, s2)
  {
    assert s2.rootgc[|s2.rootgc| - |s.rootgc|..] == s2.rootgc[|s2.rootgc| - |s1.rootgc|..][|s1.rootgc| - |s.rootgc|..];
  }

  /** The first `k` open upvalues of `t` are closed, the rest of the heap is as it was. */
  ghost predicate ClosedTo(h: Heap, h': Heap, t: Id, k: nat) {
    && t in h && h[t].Thread? && k <= |h[t].openupval|
    && t in h' && h'[t] == Thread(h[t].stack, h[t].openupval[k..])
    && h'.Keys <= h.Keys
    && (forall i | 0 <= i < k :: !IsOpen(h', h[t].openupval[i]))
    && forall x | x in h && x != t && x !in h[t].openupval[..k] :: x in h' && h'[x] == h[x]
  }

  ghost predicate AllAbove(h: Heap, open: seq<Id>, k: nat, level: nat) {
    k <= |open| && forall i | 0 <= i < k :: IsOpen(h, open[i]) && h[open[i]].slot >= level
  }

  lemma ClosedNone(s: State, t: Id)
    requires Inv(s) && t in s.heap && s.heap[t].Thread?
    ensures ClosedTo(s.heap, s.heap, t, 0)
    ensures Kept(s.heap, s.marked, s.heap, s.marked, s.currentwhite)
    ensures SweptClose(s, s, t)
  {
    KeptRefl(s);
    hide Inv, Fields, Kept, Swept;
    assert s.rootgc[|s.rootgc| - |s.rootgc|..] == s.rootgc;
  }

  lemma ClosedOne(s: State, s1: State, s2: State, t: Id, k: nat, level: nat)
    requires ClosedTo(s.heap, s1.heap, t, k) && OpenList(s.heap, t, s.heap[t].openupval)
    requires CloseStep(s1, s2, t) && s1.currentwhite == s.currentwhite
    requires Kept(s.heap, s.marked, s1.heap, s1.marked, s.currentwhite)
    requires AllAbove(s.heap, s.heap[t].openupval, k, level)
    requires OpenList(s1.heap, t, s1.heap[t].openupval) && s1.heap[s1.heap[t].openupval[0]].slot >= level
    ensures k < |s.heap[t].openupval|
    ensures ClosedTo(s.heap, s2.heap, t, k + 1) && s1.heap[t] == Thread(s.heap[t].stack, s.heap[t].openupval[k..])
    ensures t in s2.heap && s2.heap[t].Thread? && |s2.heap[t].openupval| < |s1.heap[t].openupval|
    ensures Kept(s.heap, s.marked, s2.heap, s2.marked, s.currentwhite)
    ensures AllAbove(s.heap, s.heap[t].openupval, k + 1, level)
  {
    hide Kept, Swept, RootsAhead;
    KeptTrans(s.heap, s.marked, s1.heap, s1.marked, s2.heap, s2.marked, s.currentwhite);
    ClosedHeap(s.heap, s1.heap, s2.heap, t, k);
  }

  lemma ClosedHeap(h: Heap, h1: Heap, h2: Heap, t: Id, k: nat)
    requires ClosedTo(h, h1, t, k) && OpenList(h, t, h[t].openupval)
    requires h1[t].openupval != [] && ClosedHead(h1, h2, t)
    ensures k < |h[t].openupval| && h[t].openupval[k] == h1[t].openupval[0]
    ensures IsOpen(h, h[t].openupval[k]) && h1[h[t].openupval[k]] == h[h[t].openupval[k]]
    ensures ClosedTo(h, h2, t, k + 1)
  {
    hide OpenList;
    var open := h[t].openupval;
    assert open[k..][0] == open[k] && open[k..][1..] == open[k + 1..];
    HeadApart(h, t, open, k);
    forall i | 0 <= i < k ensures !IsOpen(h2, open[i]) {
      StaysClosed(h1, h2, t, open[i]);
    }
  }

  lemma StaysClosed(h: Heap, h': Heap, t: Id, x: Id)
    requires t in h && h[t].Thread? && h[t].openupval != [] && ClosedHead(h, h', t) && !IsOpen(h, x)
    ensures !IsOpen(h', x)
  {
  }

  lemma HeadApart(h: Heap, t: Id, open: seq<Id>, k: nat)
    requires OpenList(h, t, open) && k < |open|
    ensures IsOpen(h, open[k]) && open[k] !in open[..k]
    ensures forall x | x !in open[..k + 1] :: x !in open[..k] && x != open[k]
  {
    assert open[k] in open && open[..k + 1][k] == open[k];
    assert forall i | 0 <= i < k :: h[open[i]].slot > h[open[k]].slot;
  }

  lemma ClosedAll(s: State, s': State, t: Id, k: nat, level: nat)
    requires ClosedTo(s.heap, s'.heap, t, k) && OpenList(s.heap, t, s.heap[t].openupval)
    requires forall i | 0 <= i < k :: s.heap[s.heap[t].openupval[i]].slot >= level
    requires OpenList(s'.heap, t, s'.heap[t].openupval)
    requires s'.heap[t].openupval != [] ==> s'.heap[s'.heap[t].openupval[0]].slot < level
    ensures s'.heap[t].stack == s.heap[t].stack
    ensures forall u | IsOpen(s.heap, u) && s.heap[u].thread == t :: IsOpen(s'.heap, u) <==> s.heap[u].slot < level
    ensures forall x | x in s.heap && !(IsOpen(s.heap, x) && s.heap[x].thread == t) && x != t ::
              x in s'.heap && s'.heap[x] == s.heap[x]
    ensures ClosedOnly(s.heap, s'.heap, t, level)
  {
    var open := s.heap[t].openupval;
    forall u | IsOpen(s.heap, u) && s.heap[u].thread == t ensures IsOpen(s'.heap, u) <==> s.heap[u].slot < level {
      assert u in open;
      var i :| 0 <= i < |open| && open[i] == u;
      if i >= k {
        assert open[k..][i - k] == u && open[k..][0] == open[k];
        assert u != t && forall j | 0 <= j < k :: s.heap[open[j]].slot > s.heap[u].slot;
        assert u !in open[..k];
      }
    }
    assert forall x | x in open[..k] :: x in open;
  }

  lemma CurrentStays(h: Heap, m: Marks, h': Heap, m': Marks, cw: White, main: Id)
    requires Swept(h, m, h', m', cw, main)
    ensures forall x | IsCurrent(m, cw, x) :: IsCurrent(m', cw, x)
  {
    hide Fields;
  }

  /** What an upvalue reads depends only on its references. */
  lemma ReadsKept(s: State, s': State)
    requires Inv(s) && Inv(s') && Kept(s.heap, s.marked, s'.heap, s'.marked, s.currentwhite)
    ensures forall u | Live(s.marked, s.currentwhite, u) :: UpvalValue(s'.heap, u) == UpvalValue(s.heap, u)
  {
    hide Owned, LiveClosed, PhaseOk;
    forall u | Live(s.marked, s.currentwhite, u) ensures UpvalValue(s'.heap, u) == UpvalValue(s.heap, u) {
      assert u in s.heap && SameObject(s.heap[u], s'.heap[u]) && Fields(s'.heap, u) == Fields(s.heap, u);
    }
  }

  lemma InSweepString(s: State)
    requires Inv(s) && s.gcstate.SweepString?
    ensures s.sweepstrgc < |s.strt|
  {
  }

  lemma InSweep(s: State)
    requires Inv(s) && s.gcstate.Sweep?
    ensures s.sweepgc <= |s.rootgc|
  {
  }

  lemma InBucket(s: State, i: nat)
    requires Inv(s) && s.sweepstrgc < |s.strt| && i < |s.strt[s.sweepstrgc]|
    ensures IsString(s.heap, s.strt[s.sweepstrgc][i]) && s.strt[s.sweepstrgc][i] in s.marked
  {
    var b := s.sweepstrgc;
    assert Bucket(s.heap, |s.strt|, b, s.strt[b]) && s.strt[b][i] in s.strt[b];
  }

  lemma InOpenList(s: State, t: Id, i: nat)
    requires Inv(s) && t in s.heap && s.heap[t].Thread? && i < |s.heap[t].openupval|
    ensures IsOpen(s.heap, s.heap[t].openupval[i]) && s.heap[t].openupval[i] in s.marked
    ensures s.heap[t].openupval[i] != t
  {
    assert OpenList(s.heap, t, s.heap[t].openupval) && s.heap[t].openupval[i] in s.heap[t].openupval;
  }

  lemma InRootList(s: State, i: nat)
    requires Inv(s) && i < |s.rootgc|
    ensures IsRoot(s.heap, s.rootgc[i]) && s.rootgc[i] in s.marked
    ensures s.mainthread in s.marked && Live(s.marked, s.currentwhite, s.mainthread)
  {
    assert s.rootgc[i] in s.rootgc;
    assert s.mainthread in Roots(s);
  }

  lemma DeadNow(m: Marks, cw: White, x: Id)
    requires x in m && m[x] == OtherWhite(cw)
    ensures !Live(m, cw, x)
  {
  }

  lemma SurvivesNow(s: State, x: Id)
    requires Inv(s) && x in s.heap && x in s.marked
    requires s.marked[x] != OtherWhite(s.currentwhite) || x == s.mainthread || (s.heap[x].String? && s.heap[x].fixed)
    ensures Live(s.marked, s.currentwhite, x) || s.heap[x].String?
    ensures Live(s.marked, s.currentwhite, x) || Fixed(s.heap, s.mainthread, x)
  {
    assert s.mainthread in Roots(s);
  }

  lemma SweptOn(s: State, s1: State, s2: State)
    requires Inv(s) && Inv(s1) && Inv(s2)
    requires s1.currentwhite == s.currentwhite && s1.mainthread == s.mainthread
    requires Swept(s.heap, s.marked, s1.heap, s1.marked, s.currentwhite, s.mainthread)
    requires Swept(s1.heap, s1.marked, s2.heap, s2.marked, s.currentwhite, s.mainthread)
    ensures Swept(s.heap, s.marked, s2.heap, s2.marked, s.currentwhite, s.mainthread)
  {
    hide Inv, Swept, Fields;
    InvColour(s);
    InvColour(s1);
    InvColour(s2);
    SweptTrans(s.heap, s.marked, s1.heap, s1.marked, s2.heap, s2.marked, s.currentwhite, s.mainthread);
  }

  /** The objects a sweep has passed stay passed. */
  lemma PrefixStays(s: State, s': State, b: nat, i: nat, x: Id)
    requires s'.currentwhite == s.currentwhite && s'.mainthread == s.mainthread
    requires Swept(s.heap, s.marked, s'.heap, s'.marked, s.currentwhite, s.mainthread)
    requires b < |s.strt| && b < |s'.strt|
    requires || (i < |s.strt[b]| && s'.strt[b] == Cut(s.strt[b], i)
                 && forall j | 0 <= j < i :: IsCurrent(s.marked, s.currentwhite, s.strt[b][j]))
             || (0 < i <= |s.strt[b]| && s'.strt == s.strt && s.strt[b][i - 1] == x
                 && s'.marked == s.marked[x := s.currentwhite]
                 && forall j | 0 <= j < i - 1 :: IsCurrent(s.marked, s.currentwhite, s.strt[b][j]))
    ensures i <= |s'.strt[b]| && forall j | 0 <= j < i :: IsCurrent(s'.marked, s'.currentwhite, s'.strt[b][j])
  {
    hide Fields;
    CurrentStays(s.heap, s.marked, s'.heap, s'.marked, s.currentwhite, s.mainthread);
  }

  lemma OpenPrefixStays(s: State, s': State, t: Id, i: nat, x: Id)
    requires s'.currentwhite == s.currentwhite && s'.mainthread == s.mainthread
    requires Swept(s.heap, s.marked, s'.heap, s'.marked, s.currentwhite, s.mainthread)
    requires t in s.heap && s.heap[t].Thread? && t in s'.heap && s'.heap[t].Thread?
    requires var open, open' := s.heap[t].openupval, s'.heap[t].openupval;
             || (i < |open| && open' == Cut(open, i)
                 && forall j | 0 <= j < i :: IsCurrent(s.marked, s.currentwhite, open[j]))
             || (0 < i <= |open| && open' == open && open[i - 1] == x
                 && s'.marked == s.marked[x := s.currentwhite]
                 && forall j | 0 <= j < i - 1 :: IsCurrent(s.marked, s.currentwhite, open[j]))
    ensures i <= |s'.heap[t].openupval|
    ensures forall j | 0 <= j < i :: IsCurrent(s'.marked, s'.currentwhite, s'.heap[t].openupval[j])
  {
    hide Fields;
    CurrentStays(s.heap, s.marked, s'.heap, s'.marked, s.currentwhite, s.mainthread);
  }

  lemma NowSwept(s: State, s': State, x: Id)
    requires x in s.heap && s' == s.(marked := s.marked[x := s.currentwhite])
    requires Swept(s.heap, s.marked, s'.heap, s'.marked, s.currentwhite, s.mainthread)
    requires s.heap[x].Thread? ==> forall u | u in s.heap[x].openupval :: IsCurrent(s.marked, s.currentwhite, u)
    ensures SweptRoot(s'.heap, s'.marked, s'.currentwhite, x)
  {
    hide Fields;
    CurrentStays(s.heap, s.marked, s'.heap, s'.marked, s.currentwhite, s.mainthread);
  }

  lemma SweptSize(s: State, s': State)
    requires Swept(s.heap, s.marked, s'.heap, s'.marked, s.currentwhite, s.mainthread)
    ensures |s'.heap| <= |s.heap|
  {
    hide Fields;
    SubsetSize(s'.heap.Keys, s.heap.Keys);
    assert |s'.heap| == |s'.heap.Keys| && |s.heap| == |s.heap.Keys|;
  }

  lemma SweptSmaller(s: State, s': State, x: Id)
    requires Swept(s.heap, s.marked, s'.heap, s'.marked, s.currentwhite, s.mainthread)
    requires x in s.heap && x !in s'.heap
    ensures |s'.heap| < |s.heap|
  {
    hide Fields;
    SubsetSize(s'.heap.Keys, s.heap.Keys - {x});
    assert |s'.heap| == |s'.heap.Keys| && |s.heap| == |s.heap.Keys|;
  }

  lemma {:induction false} SubsetSize<T>(a: set<T>, b: set<T>)
    requires a <= b
    ensures |a| <= |b|
  {
    if a != {} {
      var x :| x in a;
      SubsetSize(a - {x}, b - {x});
    }
  }

  /** A dead thread whose upvalues are closed can go; it is found again behind
      the upvalues that were linked before it. */
  lemma DeadThread(s: State, s': State, x: Id, pos: int)
    requires Inv(s) && Inv(s') && s.gcstate.Sweep? && s.sweepgc < |s.rootgc| && s.rootgc[s.sweepgc] == x
    requires x in s.heap && x in s.marked && s.marked[x] == OtherWhite(s.currentwhite) && x != s.mainthread
    requires s'.currentwhite == s.currentwhite && s'.mainthread == s.mainthread && s'.gcstate == s.gcstate
    requires pos == s.sweepgc + |s'.rootgc| - |s.rootgc|
    requires if s.heap[x].Thread? then
               && SweptClose(s, s', x) && x in s'.heap && s'.heap[x].Thread?
               && (forall u | u in s.heap[x].openupval :: IsCurrent(s.marked, s.currentwhite, u))
               && (forall u | IsOpen(s.heap, u) && s.heap[u].thread == x :: !IsOpen(s'.heap, u))
             else s' == s
    ensures Swept(s.heap, s.marked, s'.heap, s'.marked, s.currentwhite, s.mainthread)
    ensures s'.sweepgc <= pos < |s'.rootgc| && s'.rootgc[pos] == x
    ensures x in s'.heap && !Live(s'.marked, s'.currentwhite, x)
    ensures s'.heap[x].Thread? ==> s'.heap[x].openupval == []
  {
    hide Fields, Inv;
    KeptRefl(s);
    InRootList(s, s.sweepgc);
    InvColour(s');
    if s.heap[x].Thread? {
      assert s'.rootgc[|s'.rootgc| - |s.rootgc|..][s.sweepgc] == x;
      ThreadList(s', x);
      NothingOpen(s, s', x);
    }
  }

  lemma NothingOpen(s: State, s': State, x: Id)
    requires x in s'.heap && s'.heap[x].Thread? && OpenList(s'.heap, x, s'.heap[x].openupval)
    requires Swept(s.heap, s.marked, s'.heap, s'.marked, s.currentwhite, s.mainthread)
    requires forall u | IsOpen(s.heap, u) && s.heap[u].thread == x :: !IsOpen(s'.heap, u)
    ensures s'.heap[x].openupval == []
  {
    hide Fields;
    assert forall u | u in s'.heap :: SameObject(s.heap[u], s'.heap[u]);
    HeadIn(s'.heap[x].openupval);
  }

  lemma HeadIn(s: seq<Id>)
    ensures s == [] || s[0] in s
  {
  }

  lemma FreshState(s: State)
    requires s.heap == map[0 := Thread([Ref(1)], []), 1 := Block(Table, []), 2 := Block(Table, [])]
    requires s.marked == map[0 := White0, 1 := White0, 2 := White0]
    requires s.rootgc == [2, 1, 0] && s.uvhead == [] && s.gray == [] && s.grayagain == []
    requires |s.strt| > 0 && forall b | 0 <= b < |s.strt| :: s.strt[b] == []
    requires s.currentwhite == White0 && s.gcstate == Pause
    requires s.mainthread == 0 && s.registry == 2 && s.running == 0
    requires forall i | 0 <= i < |s.mt| :: s.mt[i] == Plain
    ensures Inv(s)
  {
    hide Owned, Fields, Ids, ColourOk, Children, LiveClosed;
    FreshOwned(s.heap, s.rootgc, s.strt);
    FreshColour(s.heap, s.marked);
    FreshLive(s.heap, s.marked);
    NoIds(s.mt);
    assert Roots(s) == {0, 2};
  }

  lemma FreshLive(h: Heap, m: Marks)
    requires h == map[0 := Thread([Ref(1)], []), 1 := Block(Table, []), 2 := Block(Table, [])]
    requires m == map[0 := White0, 1 := White0, 2 := White0]
    ensures LiveClosed(h, m, White0)
  {
    hide Children;
    FreshChildren(h);
  }

  lemma NoIds(vs: seq<Value>)
    requires forall i | 0 <= i < |vs| :: vs[i] == Plain
    ensures Ids(vs) == {}
  {
  }

  lemma FreshColour(h: Heap, m: Marks)
    requires m.Keys == h.Keys && forall x | x in m :: m[x] == White0
    ensures ColourOk(h, m)
  {
  }

  lemma FreshChildren(h: Heap)
    requires h == map[0 := Thread([Ref(1)], []), 1 := Block(Table, []), 2 := Block(Table, [])]
    ensures forall x :: Children(h, x) == if x == 0 then {1} else {}
  {
    OneId(1);
    forall x ensures Children(h, x) == if x == 0 then {1} else {} {
      assert x !in {0, 1, 2} ==> x !in h;
    }
  }

  lemma FreshOwned(h: Heap, rootgc: seq<Id>, strt: seq<seq<Id>>)
    requires h == map[0 := Thread([Ref(1)], []), 1 := Block(Table, []), 2 := Block(Table, [])]
    requires rootgc == [2, 1, 0]
    requires |strt| > 0 && forall b | 0 <= b < |strt| :: strt[b] == []
    ensures Owned(h, rootgc, strt, [])
  {
    assert forall x | x in h :: x == 0 || x == 1 || x == 2;
    assert Rooted(h, rootgc) by {
      forall x ensures x in rootgc <==> IsRoot(h, x) {
        assert rootgc[0] == 2 && rootgc[1] == 1 && rootgc[2] == 0;
      }
    }
    assert Interned(h, strt) by {
      forall b | 0 <= b < |strt| ensures Bucket(h, |strt|, b, strt[b]) {}
    }
  }

  lemma InvSafe(s: State, x: Id)
    requires Inv(s) && Reach(s.heap, Roots(s), x)
    ensures x in s.heap
  {
    ReachableIsLive(s, x);
  }

  lemma InRunning(s: State)
    requires Inv(s)
    ensures s.running in s.heap && s.heap[s.running].Thread? && Live(s.marked, s.currentwhite, s.running)
    ensures var open := s.heap[s.running].openupval;
            && (forall u | u in open :: IsOpen(s.heap, u) && s.heap[u].slot < |s.heap[s.running].stack|)
            && forall i | 0 <= i < |open| :: open[i] in s.heap && s.heap[open[i]].OpenUpval?
  {
    ThreadList(s, s.running);
    HomesAreThreads(s.heap);
    assert s.running in Roots(s);
  }

  lemma RunningLive(s: State, y: Id)
    requires Inv(s) && s.running in s.heap && s.heap[s.running].Thread? && y in Ids(s.heap[s.running].stack)
    ensures Live(s.marked, s.currentwhite, y) && y in s.heap
  {
    hide Owned, PhaseOk, Ids;
    assert s.running in Roots(s);
    assert y in Children(s.heap, s.running);
  }

  lemma SlotLive(s: State, slot: nat)
    requires Inv(s) && s.running in s.heap && s.heap[s.running].Thread? && slot < |s.heap[s.running].stack|
    ensures var v := s.heap[s.running].stack[slot];
            v.Ref? ==> Live(s.marked, s.currentwhite, v.id) && v.id in s.heap
  {
    if s.heap[s.running].stack[slot].Ref? {
      RunningLive(s, s.heap[s.running].stack[slot].id);
    }
  }

  lemma FieldLive(s: State, x: Id, i: nat)
    requires Inv(s) && Live(s.marked, s.currentwhite, x) && x in s.heap && i < |Fields(s.heap, x)|
    ensures var v := Fields(s.heap, x)[i]; v.Ref? ==> Live(s.marked, s.currentwhite, v.id)
  {
    hide Owned, PhaseOk, Fields;
    var v := Fields(s.heap, x)[i];
    if v.Ref? {
      assert v.id in Children(s.heap, x);
    }
  }

  lemma PushIds(s: State, v: Value)
    requires Inv(s) && s.running in s.heap && s.heap[s.running].Thread?
    requires v.Ref? ==> Live(s.marked, s.currentwhite, v.id)
    ensures forall y | y in Ids(s.heap[s.running].stack + [v]) :: Live(s.marked, s.currentwhite, y)
  {
    hide Inv, Live;
    forall y | y in Ids(s.heap[s.running].stack + [v]) ensures Live(s.marked, s.currentwhite, y) {
      if y in Ids(s.heap[s.running].stack) {
        RunningLive(s, y);
      }
    }
  }

  lemma PopIds(s: State)
    requires Inv(s) && s.running in s.heap && s.heap[s.running].Thread? && |s.heap[s.running].stack| > 0
    ensures var n := |s.heap[s.running].stack| - 1;
            && (forall y | y in Ids(s.heap[s.running].stack[..n]) :: Live(s.marked, s.currentwhite, y))
            && forall u | u in s.heap[s.running].openupval && s.heap[s.running].openupval[0] in s.heap
                 && IsOpen(s.heap, s.heap[s.running].openupval[0]) ::
                 IsOpen(s.heap, u) && s.heap[u].slot <= s.heap[s.heap[s.running].openupval[0]].slot
  {
    ThreadList(s, s.running);
    hide Inv, Live;
    var n := |s.heap[s.running].stack| - 1;
    forall y | y in Ids(s.heap[s.running].stack[..n]) ensures Live(s.marked, s.currentwhite, y) {
      RunningLive(s, y);
    }
  }

  lemma CopyIds(s: State, slots: seq<nat>, fields: seq<Value>)
    requires Inv(s) && s.running in s.heap && s.heap[s.running].Thread? && |fields| == |slots|
    requires forall i | 0 <= i < |slots| :: slots[i] < |s.heap[s.running].stack|
    requires forall i | 0 <= i < |slots| :: fields[i] == s.heap[s.running].stack[slots[i]]
    ensures forall y | y in Ids(fields) :: Live(s.marked, s.currentwhite, y)
  {
    hide Inv, Live;
    forall y | y in Ids(fields) ensures Live(s.marked, s.currentwhite, y) {
      RunningLive(s, y);
    }
  }

  lemma NowLive(m: Marks, cw: White, x: Id)
    requires x in m && m[x] == cw
    ensures Live(m, cw, x)
  {
  }

  lemma InHome(s: State, u: Id)
    requires Inv(s) && IsOpen(s.heap, u)
    ensures var t := s.heap[u].thread; t in s.heap && s.heap[t].Thread? && s.heap[u].slot < |s.heap[t].stack|
  {
    HomesAreThreads(s.heap);
  }

  lemma NewRunning(s: State, t: Id)
    requires Inv(s) && t in s.heap && s.heap[t].Thread? && Live(s.marked, s.currentwhite, t)
    ensures Inv(s.(running := t))
  {
    hide Owned, LiveClosed, Live;
    assert Roots(s.(running := t)) <= Roots(s) + {t};
  }

  lemma NewMt(s: State, tag: nat, v: Value)
    requires Inv(s) && tag < |s.mt| && (v.Ref? ==> Live(s.marked, s.currentwhite, v.id))
    ensures Inv(s.(mt := s.mt[tag := v]))
  {
    hide Owned, LiveClosed, Live;
    assert Ids(s.mt[tag := v]) <= Ids(s.mt) + (if v.Ref? then {v.id} else {});
  }

  lemma RegistryLive(s: State)
    requires Inv(s)
    ensures Live(s.marked, s.currentwhite, s.registry)
  {
    assert s.registry in Roots(s);
  }

  /** Without a bound on what may be marked, the whole heap serves. */
  lemma AnyMark(s: State)
    requires Inv(s)
    ensures s.gcstate == Pause || s.gcstate == Propagate ==> Roots(s) <= s.heap.Keys && ClosedUnder(s.heap, s.heap.Keys)
    ensures forall x | NonWhite(s.marked, x) :: x in s.heap.Keys
  {
    hide Owned, LiveClosed, Children;
    if s.gcstate == Pause || s.gcstate == Propagate {
      NoDeadClosed(s);
    }
  }

  /** The strings of the first `i` buckets and the first `j` of the next are in
      their new buckets. */
  ghost predicate Rechained(h: Heap, strt: seq<seq<Id>>, newhash: seq<seq<Id>>, i: nat, j: nat) {
    && i <= |strt| && (i < |strt| ==> j <= |strt[i]|) && (i == |strt| ==> j == 0)
    && |newhash| > 0 && |strt| > 0
    && forall b | 0 <= b < |newhash| ::
         && Distinct(newhash[b])
         && forall x :: x in newhash[b] <==>
              && IsString(h, x) && h[x].hash % |newhash| == b
              && (h[x].hash % |strt| < i || (i < |strt| && x in strt[i][..j]))
  }

  lemma InStrings(s: State)
    requires Inv(s)
    ensures Interned(s.heap, s.strt)
  {
  }

  lemma ChainNone(h: Heap, strt: seq<seq<Id>>, newhash: seq<seq<Id>>)
    requires Interned(h, strt) && |newhash| > 0 && forall b | 0 <= b < |newhash| :: newhash[b] == []
    ensures Rechained(h, strt, newhash, 0, 0)
  {
  }

  lemma InChain(h: Heap, strt: seq<seq<Id>>, i: nat, j: nat)
    requires Interned(h, strt) && i < |strt| && j < |strt[i]|
    ensures IsString(h, strt[i][j]) && h[strt[i][j]].hash % |strt| == i && strt[i][j] !in strt[i][..j]
  {
    assert Bucket(h, |strt|, i, strt[i]) && strt[i][j] in strt[i];
  }

  lemma Rechain(h: Heap, strt: seq<seq<Id>>, newhash: seq<seq<Id>>, i: nat, j: nat)
    requires Interned(h, strt) && Rechained(h, strt, newhash, i, j) && i < |strt| && j < |strt[i]|
    requires IsString(h, strt[i][j]) && h[strt[i][j]].hash % |strt| == i && strt[i][j] !in strt[i][..j]
    ensures var h1 := h[strt[i][j]].hash % |newhash|;
            Rechained(h, strt, newhash[h1 := [strt[i][j]] + newhash[h1]], i, j + 1)
  {
    hide Interned;
    var p := strt[i][j];
    assert strt[i][..j + 1] == strt[i][..j] + [p];
  }

  lemma NextChain(h: Heap, strt: seq<seq<Id>>, newhash: seq<seq<Id>>, i: nat)
    requires Interned(h, strt) && i < |strt| && Rechained(h, strt, newhash, i, |strt[i]|)
    ensures Rechained(h, strt, newhash, i + 1, 0)
  {
    assert Bucket(h, |strt|, i, strt[i]);
    assert strt[i][..|strt[i]|] == strt[i];
    assert forall x :: x in strt[i] <==> IsString(h, x) && h[x].hash % |strt| == i;
  }

  lemma Resized(s: State, newhash: seq<seq<Id>>)
    requires Inv(s) && s.gcstate != SweepString && Rechained(s.heap, s.strt, newhash, |s.strt|, 0)
    ensures Inv(s.(strt := newhash))
  {
    assert Roots(s.(strt := newhash)) == Roots(s);
    assert Interned(s.heap, newhash) by {
      forall b | 0 <= b < |newhash| ensures Bucket(s.heap, |newhash|, b, newhash[b]) {
        forall x ensures x in newhash[b] <==> x in s.heap && s.heap[x].String? && s.heap[x].hash % |newhash| == b {
          assert IsString(s.heap, x) ==> s.heap[x].hash % |s.strt| < |s.strt|;
        }
      }
    }
  }

  lemma InPause(s: State)
    requires Inv(s) && s.gcstate.Pause?
    ensures Core(s) && AllWhite(s.marked, s.currentwhite)
  {
  }

  lemma AfterPropagate(s: State, s': State, r: set<Id>)
    requires Inv(s) && s.gcstate.Propagate?
    requires s' == s.(marked := s'.marked, gray := s'.gray, grayagain := s'.grayagain)
    requires Marking(s'.heap, s'.marked, s'.gray, s'.grayagain) && LeavesOk(s'.heap, s'.marked)
    requires Progress(s.marked, s'.marked, r) && Elems(s.grayagain) <= Elems(s'.grayagain)
    requires Tri(s'.heap, s'.marked, Elems(s'.gray) + (Elems(s.grayagain) + Opens(s.heap)))
    requires forall x | NonWhite(s.marked, x) :: x in r
    ensures Inv(s')
    ensures forall x | NonWhite(s'.marked, x) :: x in r
  {
    hide Core, Marking, LeavesOk, Tri, Progress, Inv;
    InMarking(s);
    InCore(s);
    ProgressIn(s.marked, s'.marked, r);
    KeepMark(s.marked, s'.marked, r, s.mainthread);
    KeepMark(s.marked, s'.marked, r, s.registry);
    BackToPropagate(s, s', Elems(s.grayagain) + Opens(s.heap), r);
  }

  lemma InSweepStill(s: State)
    requires Inv(s)
    ensures s.gcstate.Sweep? ==> s.sweepgc <= |s.rootgc|
  {
  }

  lemma EndCycle(s: State)
    requires Inv(s) && s.gcstate.Finalize?
    ensures Inv(s.(gcstate := Pause))
  {
    assert Roots(s.(gcstate := Pause)) == Roots(s);
  }

  lemma SameRootsNow(s: State, s': State)
    requires s'.mainthread == s.mainthread && s'.registry == s.registry && s'.running == s.running && s'.mt == s.mt
    ensures Roots(s') == Roots(s)
  {
  }

  lemma WorldRefl(s: State)
    ensures SameWorld(s, s, ReachSet(s))
  {
  }

  lemma Sweeping(s: State, s1: State, s2: State)
    requires Inv(s) && SameWorld(s, s1, ReachSet(s)) && SameWorld(s1, s2, ReachSet(s1))
    requires s1.gcstate == SweepString || s1.gcstate == Sweep
    requires StepOf(s1, s2, {}) && Nearer(s1, s2)
    ensures SameWorld(s, s2, ReachSet(s))
    ensures s2.gcstate == SweepString || s2.gcstate == Sweep || s2.gcstate == Finalize
    ensures || PhaseRank(s2.gcstate) < PhaseRank(s1.gcstate)
            || (s2.gcstate == s1.gcstate && (Work(s2) < Work(s1) || (Work(s2) == Work(s1) && Rest(s2) < Rest(s1))))
  {
    hide Core, PhaseOk, SameWorld, Swept;
    SameWorldReach(s, s1);
    SameWorldTrans(s, s1, s2, ReachSet(s));
  }

  /** Sweeping frees nothing if nothing is dead. */
  lemma NothingFreed(s: State, s': State)
    requires Inv(s) && Inv(s') && StepOf(s, s', {}) && (s.gcstate == SweepString || s.gcstate == Sweep)
    ensures NoDead(s.marked, s.currentwhite) ==> NoDead(s'.marked, s'.currentwhite) && s'.heap.Keys == s.heap.Keys
  {
    hide Inv, Fields, Roots, Fixed, SameObject;
    InvColour(s);
    InvColour(s');
  }

  lemma Finished(s: State)
    requires Inv(s) && s.gcstate == Finalize
    ensures Core(s) && AllWhite(s.marked, s.currentwhite)
    ensures Roots(s) <= ReachSet(s) <= s.heap.Keys && ClosedUnder(s.heap, ReachSet(s))
  {
    hide Core;
    ReachSetOk(s);
  }

  lemma Restarted(s: State, s': State)
    requires Inv(s) && s' == s.(marked := s'.marked, gray := s'.gray, grayagain := s'.grayagain, gcstate := Propagate)
    requires forall x | NonWhite(s'.marked, x) :: x in ReachSet(s)
    ensures Cycle(s, s')
  {
    hide Inv, Reach, ReachSet;
    WorldRefl(s);
    assert Roots(s') == Roots(s);
  }

  lemma InCycle(s: State, s': State)
    requires Inv(s) && Inv(s') && Cycle(s, s')
    ensures Roots(s') <= ReachSet(s) <= s'.heap.Keys && ClosedUnder(s'.heap, ReachSet(s))
    ensures s'.gcstate == Propagate ==> forall x | NonWhite(s'.marked, x) :: x in ReachSet(s)
  {
    SameWorldReach(s, s');
    ReachSetOk(s');
  }

  lemma CycleWorld(s: State, s': State)
    requires Cycle(s, s')
    ensures SameWorld(s, s', ReachSet(s))
  {
  }

  lemma IsNearer(s: State, s': State)
    requires Nearer(s, s') && s.gcstate != Pause
    ensures || PhaseRank(s'.gcstate) < PhaseRank(s.gcstate)
            || (s'.gcstate == s.gcstate && (Work(s') < Work(s) || (Work(s') == Work(s) && Rest(s') < Rest(s))))
  {
  }

  /** The sweep that ended the old cycle and the whole new cycle together. */
  lemma BothCycles(s: State, s2: State, s': State)
    requires Inv(s) && SameWorld(s, s2, ReachSet(s)) && SameWorld(s2, s', ReachSet(s2))
    requires s'.heap.Keys == set x | x in s2.heap && (x in ReachSet(s2) || Fixed(s2.heap, s2.mainthread, x))
    ensures s'.heap.Keys == set x | x in s.heap && (Reach(s.heap, Roots(s), x) || Fixed(s.heap, s.mainthread, x))
    ensures SameWorld(s, s', ReachSet(s))
  {
    SameWorldReach(s, s2);
    SameWorldTrans(s, s2, s', ReachSet(s));
    ReachSetOk(s);
    hide Reach, Fields, Roots, Core;
  }

  lemma AllWhiteIn(s: State, r: set<Id>)
    requires AllWhite(s.marked, s.currentwhite)
    ensures forall x | NonWhite(s.marked, x) :: x in r
  {
  }
}
