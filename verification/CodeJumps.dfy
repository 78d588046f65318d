/**
 Comparisons, whose value is a jump, and the code that closes an expression into a
 register.
 */
module CodeJumps {
  import opened Bytecode
  import opened JumpLists
  import opened CodeFlow
  import opened CodeOps

  // ---------------------------------------------------------------- comparisons

  /** `condjump` for a comparison: its value is whether the jump is taken. */
  function Comparing(V: View, T: Instr): View {
    View(Discharged(V) + [T, Jmp(NO_JUMP)], [], VJmp(|V.C| + 1), V.ts, V.fs)
  }

  lemma ComparingShape(V: View, w: Around, T: Instr)
    requires Shape(V, w) && EndOf(V) == |V.C| && T.Compare?
    ensures Shape(Comparing(V, T), w) && Kept(V.C, Comparing(V, T).C, Elems(V.ts) + Elems(V.fs) + w.O)
  {
    DischargedKeeps(V, w);
    PriorEmitted(V.C, V.ps, [T, Jmp(NO_JUMP)], w);
    var W := Comparing(V, T);
    forall j | j in Elems(V.ts) + Elems(V.fs) + w.O ensures j < EndOf(W) && Conditional(W.C, j) {
      assert Conditional(V.C, j);
      assert W.C[j] == V.C[j] && W.C[j - 1] == V.C[j - 1];
    }
  }

  /** What a comparison makes of an intent, once its operands are at hand. */
  ghost function ComparedIntent(g: Intent, t: Truth): Intent {
    if g.Leave? then g else if t.Raises? then Leave(Raise) else g.(v := BoolV(t.b))
  }

  lemma ComparingDelivers(V: View, w: Around, T: Instr, m: Env, R: Regs, g: Intent, t: Truth)
    requires Shape(V, w) && EndOf(V) == |V.C| && !V.k.VJmp? && T.Compare? && V.ts == [] && V.fs == []
    requires Delivers(V, w, m, R, g)
    requires g.Value? && Flow(V, w, m, R).End? ==> Taken(T, m, Flow(V, w, m, R).R) == t
    ensures var W := Comparing(V, T); Shape(W, w) && Delivers(W, w, m, R, ComparedIntent(g, t))
  {
    var W, N := Comparing(V, T), |V.C|;
    ComparingShape(V, w, T);
    OpenAfter(V, W, w);
    Emitted(V, w, [T, Jmp(NO_JUMP)], Open(W, w), N, m, R);
    assert W.C[N] == T;
    hide Shape, Below, Discharged;
  }

  /** A comparison before its test. */
  function Unjumped(V: View): View
    requires |V.C| >= 2
  {
    View(V.C[..|V.C| - 2], [], Void, V.ts, V.fs)
  }

  lemma UnjumpedShape(V: View, w: Around)
    requires Shape(V, w) && V.k.VJmp?
    ensures |V.C| >= 2 && Shape(Unjumped(V), w) && EndOf(V) == |Unjumped(V).C|
    ensures var U := Unjumped(V); EndOf(U) == |U.C| && U.k == Void && U.ts == V.ts && U.fs == V.fs
  {
    var W := Unjumped(V);
    forall j | j in Elems(V.ts) + Elems(V.fs) + w.O ensures j < EndOf(W) && Conditional(W.C, j) {
      assert Conditional(V.C, j);
    }
  }

  lemma UnjumpedFlow(V: View, w: Around, m: Env, R: Regs)
    requires Shape(V, w) && V.k.VJmp? && |V.C| >= 2 && Shape(Unjumped(V), w)
    requires !Flow(V, w, m, R).Stuck?
    ensures var o, o' := Flow(Unjumped(V), w, m, R), Flow(V, w, m, R);
            o' == if o.End? && Taken(V.C[V.k.pc - 1], m, o.R).Raises? then Raise else o
  {
    hide Shape, Open, Patches, Exec;
    UnjumpedPatches(V, w);
    SameExec(V.C, Unjumped(V).C, m, Open(V, w), w.start, EndOf(V), R);
  }

  lemma UnjumpedPatches(V: View, w: Around)
    requires Shape(V, w) && V.k.VJmp? && |V.C| >= 2
    ensures var W := Unjumped(V);
            && Open(W, w) == Open(V, w) && V.ps == [] && EndOf(W) == EndOf(V) && V.k.pc == |V.C| - 1
            && Patches(V.C, W.C, Open(V, w), w.start, EndOf(V))
  {
    var W := Unjumped(V);
    assert Open(W, w) == Open(V, w);
    forall i | w.start <= i < EndOf(V) ensures PatchAt(V.C, W.C, Open(V, w), EndOf(V), i) {
      if i in Open(V, w) {
        assert i in Elems(V.ts) + Elems(V.fs) + w.O;
        assert Conditional(V.C, i);
      }
    }
  }

  function Inverted(C: seq<Instr>, pc: int): seq<Instr>
    requires 0 < pc <= |C| && C[pc - 1].Compare?
  {
    C[pc - 1 := C[pc - 1].(cond := !C[pc - 1].cond)]
  }

  /** The jump of a comparison joins the list it leaves by; where `b` asks for it
      (as `luaK_goiftrue` does) the test is inverted before. */
  function Jumped(V: View, b: bool): View
    requires V.k.VJmp? && 0 < V.k.pc <= |V.C| && V.C[V.k.pc - 1].Compare?
  {
    View(if b then Inverted(V.C, V.k.pc) else V.C, [], Passed(b),
         if b then V.ts else V.ts + [V.k.pc], if b then V.fs + [V.k.pc] else V.fs)
  }

  lemma JumpedIsBranch(V: View, b: bool, w: Around)
    requires Shape(V, w) && V.k.VJmp?
    ensures |V.C| >= 2 && V.C[V.k.pc - 1].Compare?
    ensures var T := if b then V.C[V.k.pc - 1].(cond := !V.C[V.k.pc - 1].cond) else V.C[V.k.pc - 1];
            Jumped(V, b) == Branch(Unjumped(V), T, b) && Jumped(V, b).C[V.k.pc - 1] == T
    ensures |Unjumped(V).C| == V.k.pc - 1
  {
    var T := if b then V.C[V.k.pc - 1].(cond := !V.C[V.k.pc - 1].cond) else V.C[V.k.pc - 1];
    var U := Unjumped(V);
    assert Discharged(U) == U.C;
    assert Jumped(V, b).C == U.C + [T, Jmp(NO_JUMP)];
  }

  lemma JmpParts(V: View, w: Around)
    requires Shape(V, w) && V.k.VJmp?
    ensures |V.C| >= 2 && V.k.pc == |V.C| - 1 && V.C[V.k.pc - 1].Compare? && V.ps == []
  {
  }

  lemma JumpTaken(T: Instr, b: bool, m: Env, R: Regs)
    requires T.Compare?
    ensures var t, u := Taken(T, m, R), Taken(if b then T.(cond := !T.cond) else T, m, R);
            u == if t.Raises? then Raises else Holds(t.b != b)
  {
  }

  lemma JumpedDelivers(V: View, b: bool, w: Around, m: Env, R: Regs, g: Intent)
    requires Shape(V, w) && V.k.VJmp? && Delivers(V, w, m, R, g)
    ensures 0 < V.k.pc <= |V.C| && V.C[V.k.pc - 1].Compare? && Shape(Jumped(V, b), w) && Delivers(Jumped(V, b), w, m, R, g)
    ensures g.Value? && Flow(Jumped(V, b), w, m, R).End? ==> g.v == BoolV(b)
    ensures Kept(V.C, Jumped(V, b).C, w.O)
  {
    hide Shape, Flow, Below, Kept, Branch, Exec, Jumped, Unjumped, TMode, Taken, Carries, Stands;
    JmpParts(V, w);
    JumpedIsBranch(V, b, w);
    var T0 := V.C[V.k.pc - 1];
    var T := if b then T0.(cond := !T0.cond) else T0;
    var U, W := Unjumped(V), Jumped(V, b);
    JumpedLists(V, b);
    UnjumpedShape(V, w);
    UnjumpedFlow(V, w, m, R);
    TestIsTMode(T);
    BranchShape(U, w, T, b);
    NotStuck(V, w, m, R, g);
    BranchFlow(U, w, T, b, m, R);
    JumpedKeeps(V, b, w);
    ExitsKept(V, W, w, m, R);
    var o := Flow(U, w, m, R);
    if o.End? {
      JumpTaken(T0, b, m, o.R);
      if g.Value? {
        JumpStands(V, W, b, m, o.R, g.v);
      }
    } else if o.Exit? {
      assert o.j in V.ts ==> o.j in Elems(V.ts) && o.j in W.ts;
      assert o.j in V.fs ==> o.j in Elems(V.fs) && o.j in W.fs;
    }
  }

  lemma TestIsTMode(T: Instr)
    requires T.Compare?
    ensures TMode(T)
  {
  }

  lemma NotStuck(V: View, w: Around, m: Env, R: Regs, g: Intent)
    requires Shape(V, w) && Delivers(V, w, m, R, g)
    ensures !Flow(V, w, m, R).Stuck?
  {
  }

  /** The value of a comparison, once its jump has been asked for. */
  lemma JumpStands(V: View, W: View, b: bool, m: Env, R: Regs, v: Val)
    requires V.k.VJmp? && 0 < V.k.pc <= |V.C| && V.C[V.k.pc - 1].Compare? && W.k == Passed(b) && |W.C| == |V.C|
    requires Stands(V, m, R, v) && !W.C[V.k.pc - 1].TestSet?
    ensures var t := Taken(V.C[V.k.pc - 1], m, R);
            && t.Holds? && v == BoolV(t.b) && (t.b == b ==> Stands(W, m, R, v))
            && (t.b != b ==> Carries(W.C, V.k.pc, V.k.pc - 1, R, v, !b))
  {
  }

  lemma JumpedLists(V: View, b: bool)
    requires V.k.VJmp? && 0 < V.k.pc <= |V.C| && V.C[V.k.pc - 1].Compare?
    ensures var W := Jumped(V, b);
            W.k == Passed(b) && |W.C| == |V.C| && W.ts == (if b then V.ts else V.ts + [V.k.pc]) && W.fs == if b then V.fs + [V.k.pc] else V.fs
  {
  }

  lemma JumpedKeeps(V: View, b: bool, w: Around)
    requires Shape(V, w) && V.k.VJmp?
    ensures |V.C| >= 2 && V.C[V.k.pc - 1].Compare?
    ensures Kept(V.C, Jumped(V, b).C, Elems(V.ts) + Elems(V.fs) + w.O) && Kept(V.C, Jumped(V, b).C, w.O)
    ensures Kept(V.C, Jumped(V, b).C, Elems(V.ts) + Elems(V.fs))
  {
    var W := Jumped(V, b);
    forall j | j in Elems(V.ts) + Elems(V.fs) + w.O ensures W.C[j] == V.C[j] && W.C[j - 1] == V.C[j - 1] {
      assert Conditional(V.C, j);
    }
  }

  // ---------------------------------------------------------------- not

  /** `not` of a comparison: its test is inverted. */
  lemma NotComparison(V: View, w: Around, m: Env, R: Regs, g: Intent)
    requires Shape(V, w) && V.k.VJmp? && Delivers(V, w, m, R, g)
    ensures V.C[V.k.pc - 1].Compare?
    ensures var W := Exchanged(V.(C := Inverted(V.C, V.k.pc)), V.k);
            Shape(W, w) && Delivers(W, w, m, R, Negated(g)) && Kept(V.C, W.C, w.O)
  {
    hide Shape, Flow, Below, Kept, Exec, Exchanged, Patches, Stands;
    JmpParts(V, w);
    InvertedShape(V, w);
    var U := V.(C := Inverted(V.C, V.k.pc));
    InvertedFlow(V, w, m, R);
    ExchangeFlow(U, w, m, R);
    var W := Exchanged(U, V.k);
    KeptTwice(V.C, U.C, W.C, w.O);
    if g.Value? && Flow(V, w, m, R).End? && Stands(V, m, Flow(V, w, m, R).R, g.v) {
      InvertedStands(V, W, w, m, Flow(V, w, m, R).R, g.v);
    }
    NegatedDelivers(V, W, w, m, R, g);
  }

  lemma InvertedStands(V: View, W: View, w: Around, m: Env, R: Regs, v: Val)
    requires Shape(V, w) && V.k.VJmp? && W.k == V.k && |W.C| == |V.C| && V.C[V.k.pc - 1].Compare?
    requires W.C[V.k.pc - 1] == Inverted(V.C, V.k.pc)[V.k.pc - 1] && Stands(V, m, R, v)
    ensures Stands(W, m, R, Negation(v))
  {
  }

  /** Exchanging the lists of a provisional view leaves its flow as it is. */
  lemma ExchangeFlow(U: View, w: Around, m: Env, R: Regs)
    requires Shape(U, w) && !Flow(U, w, m, R).Stuck?
    ensures var W := Exchanged(U, U.k);
            && Shape(W, w) && Flow(W, w, m, R) == Flow(U, w, m, R) && Kept(U.C, W.C, w.O)
            && W.ts == U.fs && W.fs == U.ts && W.k == U.k && |W.C| == |U.C|
            && (forall j | j in Elems(U.ts) + Elems(U.fs) :: 0 < j <= |W.C| && !W.C[j - 1].TestSet?)
            && forall i | EndOf(U) <= i < |U.C| :: W.C[i] == U.C[i]
  {
    hide Shape, Flow, Kept, Patches, Removed;
    var W := Exchanged(U, U.k);
    ExchangeShape(U, U.k, w);
    ExchangeLast(U, w);
    SameFlow(U, W, w, m, R);
  }

  lemma ExchangeLast(U: View, w: Around)
    requires Shape(U, w)
    ensures U.k.VJmp? ==> EndOf(U) <= U.k.pc - 1 < |U.C|
    ensures Open(Exchanged(U, U.k), w) == Open(U, w) && EndOf(Exchanged(U, U.k)) == EndOf(U)
  {
  }

  lemma KeptTwice(C: seq<Instr>, D: seq<Instr>, E: seq<Instr>, s: set<int>)
    requires Kept(C, D, s) && Kept(D, E, s)
    ensures Kept(C, E, s)
  {
  }

  lemma InvertedShape(V: View, w: Around)
    requires Shape(V, w) && V.k.VJmp?
    ensures V.C[V.k.pc - 1].Compare?
    ensures var U := V.(C := Inverted(V.C, V.k.pc));
            Shape(U, w) && Kept(V.C, U.C, Elems(V.ts) + Elems(V.fs) + w.O) && Kept(V.C, U.C, w.O)
            && Patches(V.C, U.C, Open(V, w), w.start, EndOf(V))
  {
    var U := V.(C := Inverted(V.C, V.k.pc));
    forall j | j in Elems(V.ts) + Elems(V.fs) + w.O ensures Conditional(U.C, j) && U.C[j] == V.C[j] && U.C[j - 1] == V.C[j - 1] {
      assert Conditional(V.C, j);
    }
    forall i | w.start <= i < EndOf(V) ensures PatchAt(V.C, U.C, Open(V, w), EndOf(V), i) {
      assert i in Open(V, w) ==> i in Elems(V.ts) + Elems(V.fs) + w.O;
    }
  }

  lemma InvertedFlow(V: View, w: Around, m: Env, R: Regs)
    requires Shape(V, w) && V.k.VJmp? && V.C[V.k.pc - 1].Compare? && !Flow(V, w, m, R).Stuck?
    requires Shape(V.(C := Inverted(V.C, V.k.pc)), w)
    requires Patches(V.C, Inverted(V.C, V.k.pc), Open(V, w), w.start, EndOf(V))
    ensures Flow(V.(C := Inverted(V.C, V.k.pc)), w, m, R) == Flow(V, w, m, R)
  {
    var U := V.(C := Inverted(V.C, V.k.pc));
    assert Open(U, w) == Open(V, w);
    SameExec(V.C, U.C, m, Open(V, w), w.start, EndOf(V), R);
  }

  /** `not` of a value in a register: a provisional instruction. */
  function Denied(V: View, r: nat): View {
    View(Discharged(V) + [Not(0, r)], [], VRelocable(|V.C|), V.ts, V.fs)
  }

  lemma DeniedShape(V: View, r: nat, w: Around)
    requires Shape(V, w) && EndOf(V) == |V.C|
    ensures Shape(Denied(V, r), w) && Kept(V.C, Denied(V, r).C, Elems(V.ts) + Elems(V.fs) + w.O) && Kept(V.C, Denied(V, r).C, w.O)
  {
    DischargedKeeps(V, w);
    PriorEmitted(V.C, V.ps, [Not(0, r)], w);
    var W := Denied(V, r);
    forall j | j in Elems(V.ts) + Elems(V.fs) + w.O ensures j < EndOf(W) && Conditional(W.C, j) {
      assert Conditional(V.C, j);
      assert W.C[j] == V.C[j] && W.C[j - 1] == V.C[j - 1];
    }
  }

  lemma DeniedFlow(V: View, r: nat, w: Around, m: Env, R: Regs)
    requires Shape(V, w) && EndOf(V) == |V.C| && !V.k.VJmp? && !Flow(V, w, m, R).Stuck? && Shape(Denied(V, r), w)
    ensures Flow(Denied(V, r), w, m, R) == Flow(V, w, m, R)
  {
    var W := Denied(V, r);
    OpenAfter(V, W, w);
    Emitted(V, w, [Not(0, r)], Open(W, w), |V.C|, m, R);
  }

  lemma NotRegister(V: View, w: Around, m: Env, R: Regs, g: Intent)
    requires Shape(V, w) && V.k.VNonReloc? && Delivers(V, w, m, R, g)
    ensures var U := Denied(V, V.k.r); var W := Exchanged(U, U.k);
            Shape(W, w) && Delivers(W, w, m, R, Negated(g)) && Kept(V.C, W.C, w.O)
  {
    hide Shape, Flow, Below, Kept, Exec, Exchanged, Patches, Discharged;
    var U := Denied(V, V.k.r);
    DeniedShape(V, V.k.r, w);
    DeniedFlow(V, V.k.r, w, m, R);
    ExchangeFlow(U, w, m, R);
    var W := Exchanged(U, U.k);
    assert U.C[|V.C|] == Not(0, V.k.r);
    KeptTwice(V.C, U.C, W.C, w.O);
    NegatedDelivers(V, W, w, m, R, g);
  }
}
