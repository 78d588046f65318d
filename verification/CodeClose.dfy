/**
 `exp2reg`: an expression is closed into a register, by whichever way control comes.
 */
module CodeClose {
  import opened Bytecode
  import opened JumpLists
  import opened CodeFlow
  import opened CodeOps
  import opened CodeJumps

  /** A comparison whose jump has joined the list for true. */
  function FellView(V: View): View
    requires V.k.VJmp?
  {
    View(V.C, [], Fell, V.ts + [V.k.pc], V.fs)
  }

  lemma FellDelivers(V: View, w: Around, m: Env, R: Regs, g: Intent)
    requires Shape(V, w) && V.k.VJmp? && Delivers(V, w, m, R, g)
    ensures Shape(FellView(V), w) && Delivers(FellView(V), w, m, R, g)
  {
    JmpParts(V, w);
    var J, W := Jumped(V, false), FellView(V);
    JumpedDelivers(V, false, w, m, R, g);
    assert Open(W, w) == Open(J, w);
    assert Flow(W, w, m, R) == Flow(J, w, m, R);
    hide Flow, Below;
  }

  /** A jump of a list, closed: to `final` with its value in the register, or to
      where its value is loaded. */
  predicate ClosedAt(V: View, C': seq<Instr>, reg: int, final: int, pf: int, pt: int, i: int)
    requires 0 <= i < |V.C| && |V.C| <= |C'|
  {
    if i in V.ts then C'[i] == Jmp((if YieldsValue(V.C, i) then final else pt) - (i + 1))
    else if i in V.fs then C'[i] == Jmp((if YieldsValue(V.C, i) then final else pf) - (i + 1))
    else if i + 1 in V.ts || i + 1 in V.fs then C'[i] == PatchedTest(V.C[i], reg)
    else if i in V.ps then C'[i].Jmp?
    else C'[i] == V.C[i]
  }

  /** The code after the expression: if some jump brings no value, one load for false
      and one for true; a value that is already there jumps over them. */
  ghost predicate Closes(V: View, C': seq<Instr>, ps': seq<int>, reg: nat, pf: int, pt: int) {
    var N := |V.C|;
    && N <= |C'| && (forall i | 0 <= i < N :: ClosedAt(V, C', reg, |C'|, pf, pt, i))
    && if |C'| == N then
         V.k == VNonReloc(reg) && ps' == V.ps && forall j | j in V.ts || j in V.fs :: YieldsValue(V.C, j)
       else
         && N <= pf && pt == pf + 1 && |C'| == pf + 2 && (V.ts != [] || V.fs != [])
         && C'[pf] == LoadBool(reg, false, true) && C'[pt] == LoadBool(reg, true, false)
         && if V.k.Fell? then pf == N && ps' == [] && V.ps == []
            else V.k == VNonReloc(reg) && pf == N + 1 && ps' == [N] + V.ps && C'[N].Jmp?
  }

  function ClosedView(C': seq<Instr>, ps': seq<int>, reg: nat): View {
    View(C', ps', VNonReloc(reg), [], [])
  }

  lemma ClosedShape(V: View, C': seq<Instr>, ps': seq<int>, reg: nat, pf: int, pt: int, w: Around)
    requires Shape(V, w) && EndOf(V) == |V.C| && Closes(V, C', ps', reg, pf, pt)
    ensures Shape(ClosedView(C', ps', reg), w) && Kept(V.C, C', w.O)
  {
    var W := ClosedView(C', ps', reg);
    PriorClosed(V, C', ps', reg, pf, pt, w);
    NotYet(V, w);
    ElemsJoin([|V.C|], V.ps);
    assert Elems([|V.C|]) == {|V.C|};
    forall j | j in w.O ensures j < |V.C| && Conditional(C', j) && C'[j] == V.C[j] && C'[j - 1] == V.C[j - 1] {
      OuterUntouched(V, w, j);
      assert ClosedAt(V, C', reg, |C'|, pf, pt, j) && ClosedAt(V, C', reg, |C'|, pf, pt, j - 1);
    }
    forall j | j in ps' ensures 0 <= j < |C'| && C'[j].Jmp? {
      if j in V.ps {
        assert ClosedAt(V, C', reg, |C'|, pf, pt, j);
      }
    }
    assert Elems(ps') !! w.O;
    hide ClosedAt, Kept, Conditional, Prior;
  }

  lemma PriorClosed(V: View, C': seq<Instr>, ps': seq<int>, reg: nat, pf: int, pt: int, w: Around)
    requires Shape(V, w) && EndOf(V) == |V.C| && Closes(V, C', ps', reg, pf, pt)
    ensures Prior(C', ps', w)
  {
    ListsInside(V, w);
    if |V.C| == w.start {
      forall i | 0 <= i < w.start && V.ps == w.waiting && Unpatched(V.C, V.ps, w.code, i)
        ensures Unpatched(C', V.ps, w.code, i)
      {
        assert ClosedAt(V, C', reg, |C'|, pf, pt, i);
      }
    }
    forall i | 0 <= i < w.start && i !in V.ps ensures C'[i] == V.C[i] {
      assert ClosedAt(V, C', reg, |C'|, pf, pt, i);
    }
  }

  lemma OuterUntouched(V: View, w: Around, j: int)
    requires Shape(V, w) && j in w.O
    ensures Conditional(V.C, j) && j < EndOf(V) && j !in V.ts && j !in V.fs && j !in V.ps
    ensures j - 1 !in V.ts && j - 1 !in V.fs && j - 1 !in V.ps
  {
    assert Conditional(V.C, j);
    assert j in Open(V.(ps := []), w);
    assert j !in Elems(V.ps) && j !in Elems(V.ts) && j !in Elems(V.fs);
    ListsAreJumps(V, w);
  }

  lemma ListsAreJumps(V: View, w: Around)
    requires Shape(V, w)
    ensures forall j | j in V.ps || j in V.ts || j in V.fs :: 0 <= j < EndOf(V) && V.C[j].Jmp?
  {
    forall j | j in V.ts || j in V.fs ensures 0 <= j < EndOf(V) && V.C[j].Jmp? {
      assert j in Elems(V.ts) + Elems(V.fs) + w.O;
      assert Conditional(V.C, j);
    }
  }

  lemma ClosedPatches(V: View, C': seq<Instr>, ps': seq<int>, reg: nat, pf: int, pt: int, w: Around)
    requires Shape(V, w) && EndOf(V) == |V.C| && Closes(V, C', ps', reg, pf, pt)
    ensures Patches(V.C, C', Open(V, w), w.start, |V.C|)
  {
    forall i | w.start <= i < |V.C| ensures PatchAt(V.C, C', Open(V, w), |V.C|, i) {
      assert ClosedAt(V, C', reg, |C'|, pf, pt, i);
      if i in w.O {
        OuterUntouched(V, w, i);
      } else if i in V.ts || i in V.fs {
        assert i in Elems(V.ts) + Elems(V.fs) + w.O;
        assert Conditional(V.C, i);
      } else if i + 1 in V.ts || i + 1 in V.fs {
        assert i + 1 in Elems(V.ts) + Elems(V.fs) + w.O;
        assert i + 1 in Open(V, w) && Conditional(V.C, i + 1);
        assert i !in V.ps;
      }
    }
  }

  /** What became of an exit: control is at the end, with the value in the register. */
  lemma ClosedExit(V: View, C': seq<Instr>, ps': seq<int>, reg: nat, pf: int, pt: int, w: Around,
                   O: set<int>, m: Env, o: Outcome, v: Val, b: bool)
    requires Shape(V, w) && EndOf(V) == |V.C| && Closes(V, C', ps', reg, pf, pt)
    requires o.Exit? && (if b then o.j in V.ts else o.j in V.fs) && Carries(V.C, o.j, o.c, o.R, v, b) && o.j !in O
    ensures var x := Resume(C', m, O, |V.C|, |C'|, o);
            x.End? && x.R(reg) == v && forall r: nat | r != reg :: x.R(r) == o.R(r)
  {
    var j, c := o.j, o.c;
    assert j in Elems(V.ts) + Elems(V.fs) + w.O;
    assert j in Elems(V.ts) <==> j in V.ts;
    assert Conditional(V.C, j) && j < |V.C|;
    assert ClosedAt(V, C', reg, |C'|, pf, pt, j) && ClosedAt(V, C', reg, |C'|, pf, pt, c);
    ListsAreJumps(V, w);
    assert c !in V.ts && c !in V.fs;
    assert C'[c] == PatchedTest(V.C[c], reg);
    if YieldsValue(V.C, j) {
      assert Target(C', j) == |C'|;
    } else {
      assert |C'| != |V.C|;
      assert Target(C', j) == if b then pt else pf;
      LoadRuns(C', m, O, if b then pt else pf, reg, b, o.R);
    }
  }

  lemma LoadRuns(C: seq<Instr>, m: Env, O: set<int>, p: int, reg: nat, b: bool, R: Regs)
    requires 0 <= p < |C| && C[p] == LoadBool(reg, b, !b) && |C| == if b then p + 1 else p + 2
    ensures Exec(C, m, O, p, |C|, R) == End(Put(R, reg, BoolV(b)))
  {
    assert Step(C, m, O, p, R) == Go(|C|, Put(R, reg, BoolV(b)));
    assert Exec(C, m, O, |C|, |C|, Put(R, reg, BoolV(b))) == End(Put(R, reg, BoolV(b)));
  }

  /** What becomes of control that fell through. */
  lemma ClosedFall(V: View, C': seq<Instr>, ps': seq<int>, reg: nat, pf: int, pt: int, O: set<int>, m: Env, R: Regs)
    requires Closes(V, C', ps', reg, pf, pt) && forall j | j in ps' :: j in O
    ensures var x := Arrive(ClosedView(C', ps', reg), Exec(C', m, O, |V.C|, |C'|, R));
            x == End(if V.k.Fell? then Put(R, reg, BoolV(false)) else R)
  {
    var N := |V.C|;
    if |C'| > N {
      if V.k.Fell? {
        LoadRuns(C', m, O, N, reg, false, R);
      } else {
        assert N in ps';
        assert Step(C', m, O, N, R) == Out(Exit(N, N, R));
      }
    }
  }

  /** However control came, the register holds the value. */
  lemma ClosedDelivers(V: View, C': seq<Instr>, ps': seq<int>, reg: nat, pf: int, pt: int, w: Around, m: Env, R: Regs, g: Intent)
    requires Shape(V, w) && EndOf(V) == |V.C| && !V.k.VJmp? && Closes(V, C', ps', reg, pf, pt)
    requires Delivers(V, w, m, R, g) && Writable(g, reg)
    ensures var W := ClosedView(C', ps', reg); Shape(W, w) && Delivers(W, w, m, R, g)
  {
    var W, N := ClosedView(C', ps', reg), |V.C|;
    ClosedShape(V, C', ps', reg, pf, pt, w);
    ClosedPatches(V, C', ps', reg, pf, pt, w);
    ClosedOpen(V, ps', C', reg, pf, pt, w);
    var O' := Open(W, w);
    Compose(V.C, C', m, Open(V, w), O', w.start, w.start, N, |C'|, R);
    ExitForm(V.C, m, Open(V, w), w.start, N, R);
    var o := Exec(V.C, m, Open(V, w), w.start, N, R);
    ClosedOutcome(V, C', ps', reg, pf, pt, w, m, o, g, R);
  }

  lemma ClosedOpen(V: View, ps': seq<int>, C': seq<Instr>, reg: nat, pf: int, pt: int, w: Around)
    requires Shape(V, w) && EndOf(V) == |V.C| && Closes(V, C', ps', reg, pf, pt)
    ensures var O' := Open(ClosedView(C', ps', reg), w);
            && O' == Elems(ps') + w.O && (forall j | j in V.ps :: j in O') && (forall j | j in ps' :: j in O')
            && (forall j | j in V.ts || j in V.fs :: j !in O') && forall i | i < |V.C| && i in O' :: i in Open(V, w)
  {
    var O' := Open(ClosedView(C', ps', reg), w);
    NotYet(V, w);
    assert O' == Elems(ps') + w.O;
    forall j | j in V.ts || j in V.fs ensures j !in O' {
      assert j in Elems(V.ts) + Elems(V.fs);
    }
  }

  lemma ClosedOutcome(V: View, C': seq<Instr>, ps': seq<int>, reg: nat, pf: int, pt: int, w: Around, m: Env, o: Outcome, g: Intent, R: Regs)
    requires Shape(V, w) && EndOf(V) == |V.C| && !V.k.VJmp? && Closes(V, C', ps', reg, pf, pt)
    requires Delivers(V, w, m, R, g) && Writable(g, reg) && Shape(ClosedView(C', ps', reg), w)
    requires Flow(V, w, m, R) == Arrive(V, o)
    requires var W := ClosedView(C', ps', reg);
             Flow(W, w, m, R) == Arrive(W, Resume(C', m, Open(W, w), |V.C|, |C'|, o))
    ensures Delivers(ClosedView(C', ps', reg), w, m, R, g)
  {
    hide Flow, Exec, Shape, Carries, Conditional;
    var W := ClosedView(C', ps', reg);
    var O' := Open(W, w);
    ClosedOpen(V, ps', C', reg, pf, pt, w);
    match o {
      case End(R1) =>
        ClosedFall(V, C', ps', reg, pf, pt, O', m, R1);
      case Exit(j, c, R1) =>
        if j in V.ps {
          assert j in ps' && Resume(C', m, O', |V.C|, |C'|, o) == o;
          assert V.k == VNonReloc(reg);
        } else if g.Value? {
          var b := j in V.ts && Carries(V.C, j, c, R1, g.v, true);
          ClosedExit(V, C', ps', reg, pf, pt, w, O', m, o, g.v, b);
        } else {
          OuterNotPending(W, w, j);
        }
      case Raise =>
      case Stuck =>
    }
  }

  lemma OuterNotPending(W: View, w: Around, j: int)
    requires Shape(W, w) && j in w.O
    ensures j !in W.ps
  {
    assert j in Open(W.(ps := []), w);
  }
}
