/**
 What each step of the code generator makes of a view, and that it keeps, negates or
 tests the value that the view delivers.
 */
module CodeOps {
  import opened Bytecode
  import opened JumpLists
  import opened CodeFlow

  // ---------------------------------------------------------------- emission into a view

  /** Instructions after the code, which the pending jumps now lead to. */
  function Emit(V: View, B: seq<Instr>, k: Kind): View {
    View(Discharged(V) + B, [], k, V.ts, V.fs)
  }

  lemma EmitShape(V: View, w: Around, B: seq<Instr>, k: Kind)
    requires Shape(V, w) && EndOf(V) == |V.C|
    requires !k.VJmp? && !k.VRelocable?
    ensures Shape(Emit(V, B, k), w) && Kept(V.C, Emit(V, B, k).C, w.O)
  {
    DischargedKeeps(V, w);
    PriorEmitted(V.C, V.ps, B, w);
    var C' := Discharged(V) + B;
    forall j | j in Elems(V.ts) + Elems(V.fs) + w.O ensures j < |C'| && Conditional(C', j) {
      assert Conditional(V.C, j);
      assert C'[j] == V.C[j] && C'[j - 1] == V.C[j - 1];
    }
  }

  /** The value has moved to where the new kind says. */
  ghost predicate Settles(V: View, W: View, w: Around, m: Env, R: Regs, g: Intent)
    requires Shape(V, w) && Shape(W, w)
  {
    var o, o' := Flow(V, w, m, R), Flow(W, w, m, R);
    if o.End? then
      o'.End? && (g.Value? && Below(g.Q, o.R, g.base, g.hole) && Stands(V, m, o.R, g.v) ==>
                    Below(g.Q, o'.R, g.base, g.hole) && Stands(W, m, o'.R, g.v))
    else o' == o
  }

  lemma SettledDelivers(V: View, W: View, w: Around, m: Env, R: Regs, g: Intent)
    requires Shape(V, w) && Shape(W, w) && Delivers(V, w, m, R, g) && Settles(V, W, w, m, R, g)
    requires W.ts == V.ts && W.fs == V.fs && Kept(V.C, W.C, Elems(V.ts) + Elems(V.fs))
    ensures Delivers(W, w, m, R, g)
  {
    ExitsKept(V, W, w, m, R);
    hide Shape, Flow, Stands, Below, Carries, Kept;
    var o := Flow(V, w, m, R);
    if o.Exit? && g.Value? {
      assert o.j in V.ts ==> o.j in Elems(V.ts);
      assert o.j in V.fs ==> o.j in Elems(V.fs);
    }
  }

  /** An exit through a list jump carries what it carried before. */
  lemma ExitsKept(V: View, W: View, w: Around, m: Env, R: Regs)
    requires Shape(V, w) && Kept(V.C, W.C, Elems(V.ts) + Elems(V.fs))
    ensures forall j, c, R1, v, b | j in Elems(V.ts) + Elems(V.fs) && Carries(V.C, j, c, R1, v, b) :: Carries(W.C, j, c, R1, v, b)
  {
    forall j, c, R1, v, b | j in Elems(V.ts) + Elems(V.fs) && Carries(V.C, j, c, R1, v, b)
      ensures Carries(W.C, j, c, R1, v, b)
    {
      assert Conditional(V.C, j);
    }
  }

  /** The flow through a single new instruction. */
  lemma EmitFlow(V: View, w: Around, i: Instr, k: Kind, m: Env, R: Regs)
    requires Shape(V, w) && EndOf(V) == |V.C| && !k.VJmp? && !k.VRelocable? && !TMode(i) && !i.Jmp?
    requires !Flow(V, w, m, R).Stuck? && Shape(Emit(V, [i], k), w)
    requires Step([i], m, {}, 0, R).Go? && Step([i], m, {}, 0, R).pc == 1
    ensures var o := Flow(V, w, m, R);
            Flow(Emit(V, [i], k), w, m, R) == if o.End? then End(Step([i], m, {}, 0, o.R).R) else o
  {
    var N, W := |V.C|, Emit(V, [i], k);
    OpenAfter(V, W, w);
    Emitted(V, w, [i], Open(W, w), N + 1, m, R);
    hide Shape;
    var o := Flow(V, w, m, R);
    if o.End? {
      StepShift(W.C, [i], m, Open(W, w), N, o.R);
    }
  }

  lemma OpenAfter(V: View, W: View, w: Around)
    requires W.ps == [] && W.ts == V.ts && W.fs == V.fs
    ensures Open(W, w) == Elems(V.ts) + Elems(V.fs) + w.O
  {
  }

  lemma StepShift(C: seq<Instr>, B: seq<Instr>, m: Env, O: set<int>, N: int, R: Regs)
    requires 0 <= N < |C| && |B| == 1 && C[N] == B[0] && !TMode(B[0]) && !B[0].Jmp?
    ensures var x := Step(B, m, {}, 0, R); Step(C, m, O, N, R) == Go(N + x.pc, x.R)
    ensures var x := Step(B, m, {}, 0, R); x.Go? && x.pc >= 1 && (x.pc == 1 ==> Exec(C, m, O, N, N + 1, R) == End(x.R))
  {
  }

  // ---------------------------------------------------------------- into a register

  /** `discharge2reg`: the instruction that brings a value to a register. */
  function LoadInstr(k: Kind, reg: nat, kn: nat): Instr {
    match k
    case VNil => LoadNil(reg, reg)
    case VFalse => LoadBool(reg, false, false)
    case VTrue => LoadBool(reg, true, false)
    case VK(i) => LoadK(reg, i)
    case VKNum(_) => LoadK(reg, kn)
    case VLocal(r) => Move(reg, r)
    case VNonReloc(r) => Move(reg, r)
    case _ => LoadNil(reg, reg)
  }

  predicate Loadable(k: Kind) {
    k.VNil? || k.VFalse? || k.VTrue? || k.VK? || k.VKNum? || k.VLocal? || k.VNonReloc?
  }

  /** A register that an intent allows to be written. */
  ghost predicate Writable(g: Intent, reg: nat) {
    g.Value? ==> reg >= g.base || reg == g.hole
  }

  lemma LoadDelivers(V: View, w: Around, reg: nat, kn: nat, m: Env, R: Regs, g: Intent)
    requires Shape(V, w) && Loadable(V.k) && Delivers(V, w, m, R, g) && Writable(g, reg)
    requires V.k.VKNum? ==> Constant(m, kn) == NumV(V.k.n)
    ensures var W := Emit(V, [LoadInstr(V.k, reg, kn)], VNonReloc(reg)); Shape(W, w) && Delivers(W, w, m, R, g)
  {
    var i := LoadInstr(V.k, reg, kn);
    var W := Emit(V, [i], VNonReloc(reg));
    EmitShape(V, w, [i], VNonReloc(reg));
    EmitFlow(V, w, i, VNonReloc(reg), m, R);
    DischargedKeeps(V, w);
    hide Shape, Flow, Discharged;
    assert Settles(V, W, w, m, R, g);
    SettledDelivers(V, W, w, m, R, g);
  }

  /** The provisional `not` gets its register. */
  function Relocated(V: View, reg: nat): View
    requires V.k.VRelocable? && 0 <= V.k.pc < |V.C| && V.C[V.k.pc].Not?
  {
    View(V.C[V.k.pc := Not(reg, V.C[V.k.pc].b)], [], VNonReloc(reg), V.ts, V.fs)
  }

  lemma RelocateShape(V: View, w: Around, reg: nat)
    requires Shape(V, w) && V.k.VRelocable?
    ensures Shape(Relocated(V, reg), w) && Kept(V.C, Relocated(V, reg).C, Elems(V.ts) + Elems(V.fs) + w.O)
  {
    var W := Relocated(V, reg);
    forall j | j in Elems(V.ts) + Elems(V.fs) + w.O ensures Conditional(W.C, j) {
      assert Conditional(V.C, j);
    }
  }

  lemma RelocableParts(V: View, w: Around)
    requires Shape(V, w) && V.k.VRelocable?
    ensures V.ps == [] && V.k.pc == |V.C| - 1 >= 0 && V.C[V.k.pc].Not?
  {
  }

  lemma RelocatePatches(V: View, w: Around, reg: nat)
    requires Shape(V, w) && V.k.VRelocable?
    ensures var W := Relocated(V, reg);
            && Open(W, w) == Open(V, w) && V.ps == [] && V.k.pc == EndOf(V) == |V.C| - 1 && 0 <= w.start <= V.k.pc
            && V.C[V.k.pc].Not? && Patches(V.C, W.C, Open(V, w), w.start, EndOf(V))
  {
    var W, N := Relocated(V, reg), V.k.pc;
    assert Open(W, w) == Open(V, w);
    forall i | w.start <= i < N ensures PatchAt(V.C, W.C, Open(V, w), N, i) {
      if i in Open(V, w) {
        assert i in Elems(V.ts) + Elems(V.fs) + w.O;
        assert Conditional(V.C, i);
      }
    }
  }

  lemma RelocateFlow(V: View, w: Around, reg: nat, m: Env, R: Regs)
    requires Shape(V, w) && V.k.VRelocable? && Shape(Relocated(V, reg), w) && !Flow(V, w, m, R).Stuck?
    ensures var o := Flow(V, w, m, R);
            Flow(Relocated(V, reg), w, m, R) ==
            if o.End? then End(Put(o.R, reg, BoolV(!Truthy(o.R(V.C[V.k.pc].b))))) else o
  {
    hide Shape, Open, Patches, Exec;
    RelocableParts(V, w);
    var W, N := Relocated(V, reg), V.k.pc;
    RelocatePatches(V, w, reg);
    ExitForm(V.C, m, Open(V, w), w.start, N, R);
    Compose(V.C, W.C, m, Open(V, w), Open(W, w), w.start, w.start, N, N + 1, R);
    var o := Flow(V, w, m, R);
    if o.End? {
      StepShift(W.C, [W.C[N]], m, Open(W, w), N, o.R);
    }
  }

  lemma RelocateDelivers(V: View, w: Around, reg: nat, m: Env, R: Regs, g: Intent)
    requires Shape(V, w) && V.k.VRelocable? && Delivers(V, w, m, R, g) && Writable(g, reg)
    ensures Shape(Relocated(V, reg), w) && Delivers(Relocated(V, reg), w, m, R, g)
  {
    var W := Relocated(V, reg);
    RelocateShape(V, w, reg);
    RelocateFlow(V, w, reg, m, R);
    hide Shape, Flow;
    assert Settles(V, W, w, m, R, g);
    SettledDelivers(V, W, w, m, R, g);
  }

  // ---------------------------------------------------------------- tests and branches

  /** A test and its jump after the code: control leaves when the value is not as
      `b` says, and stays when it is. */
  function Branch(V: View, T: Instr, b: bool): View {
    View(Discharged(V) + [T, Jmp(NO_JUMP)], [], Passed(b),
         if b then V.ts else V.ts + [|V.C| + 1], if b then V.fs + [|V.C| + 1] else V.fs)
  }

  lemma BranchShape(V: View, w: Around, T: Instr, b: bool)
    requires Shape(V, w) && EndOf(V) == |V.C| && TMode(T)
    ensures Shape(Branch(V, T, b), w) && Kept(V.C, Branch(V, T, b).C, Elems(V.ts) + Elems(V.fs) + w.O)
  {
    DischargedKeeps(V, w);
    PriorEmitted(V.C, V.ps, [T, Jmp(NO_JUMP)], w);
    var W, N := Branch(V, T, b), |V.C|;
    assert Elems(V.ts + [N + 1]) == Elems(V.ts) + {N + 1};
    assert Elems(V.fs + [N + 1]) == Elems(V.fs) + {N + 1};
    NotYet(V, w);
    forall j | j in Elems(W.ts) + Elems(W.fs) + w.O ensures j < |W.C| && Conditional(W.C, j) {
      if j != N + 1 {
        assert Conditional(V.C, j);
        assert W.C[j] == V.C[j] && W.C[j - 1] == V.C[j - 1];
      }
    }
    forall j | j in Elems(W.ts) + Elems(W.fs) ensures w.start < j {
    }
    hide Conditional, Kept, Prior;
  }

  lemma BranchParts(V: View, w: Around, T: Instr, b: bool)
    requires Shape(V, w)
    ensures var W, N := Branch(V, T, b), |V.C|;
            && W.k == Passed(b) && |W.C| == N + 2 && W.C[N] == T
            && W.ts == (if b then V.ts else V.ts + [N + 1]) && W.fs == if b then V.fs + [N + 1] else V.fs
    ensures var W := Branch(V, T, b);
            Shape(W, w) && Kept(V.C, W.C, Elems(V.ts) + Elems(V.fs) + w.O) ==> Kept(V.C, W.C, Elems(V.ts) + Elems(V.fs))
  {
  }

  lemma NotYet(V: View, w: Around)
    requires Shape(V, w)
    ensures forall j | j >= |V.C| :: j !in V.ts && j !in V.fs && j !in w.O && j !in Elems(V.ts) && j !in Elems(V.fs)
  {
    forall j | j in V.ts || j in V.fs || j in w.O ensures j < |V.C| {
      assert j in Elems(V.ts) + Elems(V.fs) + w.O;
    }
  }

  lemma BranchFlow(V: View, w: Around, T: Instr, b: bool, m: Env, R: Regs)
    requires Shape(V, w) && EndOf(V) == |V.C| && !V.k.VJmp? && TMode(T) && !Flow(V, w, m, R).Stuck?
    requires Shape(Branch(V, T, b), w)
    ensures var o, N := Flow(V, w, m, R), |V.C|;
            Flow(Branch(V, T, b), w, m, R) ==
            if !o.End? then o
            else if Taken(T, m, o.R).Raises? then Raise
            else if Taken(T, m, o.R).b then Exit(N + 1, N, o.R) else End(o.R)
  {
    hide Shape, Open, Discharged, TMode, Exec;
    var W, N := Branch(V, T, b), |V.C|;
    OpenBranch(V, T, b, w);
    Emitted(V, w, [T, Jmp(NO_JUMP)], Open(W, w), N + 2, m, R);
    var o := Flow(V, w, m, R);
    if o.End? {
      assert W.C[N] == T;
      TestRuns(W.C, m, Open(W, w), N, o.R);
    }
  }

  lemma OpenBranch(V: View, T: Instr, b: bool, w: Around)
    ensures Open(Branch(V, T, b), w) == Elems(V.ts) + Elems(V.fs) + w.O + {|V.C| + 1}
  {
    assert Elems(V.ts + [|V.C| + 1]) == Elems(V.ts) + {|V.C| + 1};
    assert Elems(V.fs + [|V.C| + 1]) == Elems(V.fs) + {|V.C| + 1};
  }

  lemma TestRuns(C: seq<Instr>, m: Env, O: set<int>, N: int, R: Regs)
    requires 0 <= N && N + 2 == |C| && TMode(C[N]) && N + 1 in O
    ensures Exec(C, m, O, N, N + 2, R) ==
            if Taken(C[N], m, R).Raises? then Raise
            else if Taken(C[N], m, R).b then Exit(N + 1, N, R) else End(R)
  {
    assert Step(C, m, O, N, R) == StepTest(C, m, O, N, R);
  }

  lemma BranchDelivers(V: View, w: Around, T: Instr, b: bool, m: Env, R: Regs, g: Intent)
    requires Shape(V, w) && EndOf(V) == |V.C| && !V.k.VJmp? && TMode(T) && Delivers(V, w, m, R, g)
    requires var o := Flow(V, w, m, R);
             g.Value? && o.End? ==>
               && Taken(T, m, o.R) == Holds(Truthy(g.v) == !b)
               && (if T.TestSet? then o.R(T.b) == g.v else g.v.BoolV?)
    ensures var W := Branch(V, T, b); Shape(W, w) && Delivers(W, w, m, R, g)
  {
    hide Shape, Flow, Below, Kept, Branch, Discharged, TMode;
    var W, N := Branch(V, T, b), |V.C|;
    BranchParts(V, w, T, b);
    BranchShape(V, w, T, b);
    BranchFlow(V, w, T, b, m, R);
    ExitsKept(V, W, w, m, R);
    var o := Flow(V, w, m, R);
    if g.Value? && o.Exit? {
      assert o.j in V.ts ==> o.j in Elems(V.ts) && o.j in W.ts;
      assert o.j in V.fs ==> o.j in Elems(V.fs) && o.j in W.fs;
    }
  }

  // ---------------------------------------------------------------- lists

  /** Only links between open jumps changed. */
  ghost predicate Relinked(V: View, C': seq<Instr>) {
    && |C'| == |V.C|
    && forall i | 0 <= i < |C'| ::
         if i in Elems(V.ps) + Elems(V.ts) + Elems(V.fs) then C'[i].Jmp? else C'[i] == V.C[i]
  }

  lemma PriorRelinked(V: View, C': seq<Instr>, w: Around)
    requires Shape(V, w) && Relinked(V, C')
    ensures Prior(C', V.ps, w)
  {
    ListsInside(V, w);
    if |V.C| == w.start && V.ps == w.waiting && forall i | 0 <= i < w.start :: Unpatched(V.C, V.ps, w.code, i) {
      forall i | 0 <= i < w.start ensures Unpatched(C', V.ps, w.code, i) {
        assert Unpatched(V.C, V.ps, w.code, i);
      }
    } else {
      assert forall i | 0 <= i < w.start :: C'[i] == V.C[i];
    }
  }

  /** The lists of an expression are made of jumps behind its start. */
  lemma ListsInside(V: View, w: Around)
    requires Shape(V, w)
    ensures forall j | j in V.ts || j in V.fs || j in Elems(V.ts) + Elems(V.fs) :: w.start < j < EndOf(V)
    ensures |V.C| == w.start ==> V.ts == [] && V.fs == []
  {
    assert V.ts != [] ==> V.ts[0] in V.ts;
    assert V.fs != [] ==> V.fs[0] in V.fs;
    forall j | j in V.ts || j in V.fs || j in Elems(V.ts) + Elems(V.fs) ensures w.start < j < EndOf(V) {
      assert j in Elems(V.ts) + Elems(V.fs);
      assert j in Elems(V.ts) + Elems(V.fs) + w.O;
    }
  }

  lemma RelinkShape(V: View, C': seq<Instr>, w: Around)
    requires Shape(V, w) && Relinked(V, C')
    ensures Shape(V.(C := C'), w) && Kept(V.C, C', w.O)
    ensures Patches(V.C, C', Open(V, w), w.start, EndOf(V))
    ensures forall j | j in Elems(V.ts) + Elems(V.fs) :: C'[j - 1] == V.C[j - 1]
  {
    PriorRelinked(V, C', w);
    var E := Elems(V.ps) + Elems(V.ts) + Elems(V.fs);
    forall j | j in E ensures 0 <= j < EndOf(V) && V.C[j].Jmp? {
      if j !in Elems(V.ps) {
        assert Conditional(V.C, j);
      }
    }
    forall j | j in Elems(V.ts) + Elems(V.fs) + w.O
      ensures Conditional(C', j) && C'[j - 1] == V.C[j - 1] && (j in w.O ==> C'[j] == V.C[j])
    {
      assert Conditional(V.C, j);
      assert j - 1 !in E;
      if j in w.O {
        assert j in Open(V.(ps := []), w);
      }
    }
    forall i | w.start <= i < EndOf(V) ensures PatchAt(V.C, C', Open(V, w), EndOf(V), i) {
      if i in w.O && i !in E {
        assert Conditional(V.C, i);
      }
    }
  }

  lemma RelinkDelivers(V: View, C': seq<Instr>, w: Around, m: Env, R: Regs, g: Intent)
    requires Shape(V, w) && Relinked(V, C') && Delivers(V, w, m, R, g)
    ensures Shape(V.(C := C'), w) && Delivers(V.(C := C'), w, m, R, g)
  {
    hide Shape, Flow, Relinked, Below, Stands, Patches, Kept;
    var W := V.(C := C');
    RelinkShape(V, C', w);
    RelinkLast(V, C', w);
    SameFlow(V, W, w, m, R);
    var o := Flow(V, w, m, R);
    if g.Value? && o.Exit? {
      assert o.j in Elems(V.ts) + Elems(V.fs);
      assert C'[o.j - 1] == V.C[o.j - 1];
    }
  }

  lemma RelinkLast(V: View, C': seq<Instr>, w: Around)
    requires Shape(V, w) && Relinked(V, C')
    ensures |C'| == |V.C| && (V.k.VJmp? ==> V.C[V.k.pc - 1] == C'[V.k.pc - 1])
    ensures forall m, R, v :: Stands(V.(C := C'), m, R, v) == Stands(V, m, R, v)
  {
    LastUnlinked(V, C', w);
  }

  /** The provisional instructions at the end are not linked. */
  lemma LastUnlinked(V: View, C': seq<Instr>, w: Around)
    requires Shape(V, w) && Relinked(V, C')
    ensures forall i | EndOf(V) <= i < |C'| :: C'[i] == V.C[i]
  {
    InsideEnd(V, w);
  }

  lemma InsideEnd(V: View, w: Around)
    requires Shape(V, w)
    ensures forall j | j in Elems(V.ps) + Elems(V.ts) + Elems(V.fs) :: j < EndOf(V)
  {
    forall j | j in Elems(V.ts) + Elems(V.fs) ensures j < EndOf(V) {
      assert j in Elems(V.ts) + Elems(V.fs) + w.O;
    }
  }

  /** `luaK_patchtohere`: the jumps that agree with the test passed wait for the next
      instruction. */
  function Here(V: View, b: bool): View {
    View(V.C, V.ps + if b then V.ts else V.fs, Passed(b), if b then [] else V.ts, if b then V.fs else [])
  }

  lemma ElemsJoin(s: seq<int>, t: seq<int>)
    ensures Elems(s + t) == Elems(s) + Elems(t)
    ensures Distinct(s) && Distinct(t) && Elems(s) !! Elems(t) ==> Distinct(s + t)
  {
    if Distinct(s) && Distinct(t) && Elems(s) !! Elems(t) {
      forall i, j | 0 <= i < j < |s + t| ensures (s + t)[i] != (s + t)[j] {
        if i < |s| <= j {
          assert s[i] in Elems(s) && t[j - |s|] in Elems(t);
        }
      }
    }
  }

  lemma HereDelivers(V: View, b: bool, w: Around, m: Env, R: Regs, g: Intent)
    requires Shape(V, w) && V.k == Passed(b) && Delivers(V, w, m, R, g)
    ensures Shape(Here(V, b), w) && Delivers(Here(V, b), w, m, R, g)
  {
    var W := Here(V, b);
    HereShape(V, b, w);
    ElemsJoin(V.ps, if b then V.ts else V.fs);
    assert Open(W, w) == Open(V, w);
    ExitForm(V.C, m, Open(V, w), w.start, |V.C|, R);
    hide Below;
  }

  lemma PriorHere(V: View, b: bool, w: Around)
    requires Shape(V, w)
    ensures Prior(V.C, V.ps + if b then V.ts else V.fs, w)
  {
    ListsInside(V, w);
    if |V.C| == w.start {
      assert V.ps + [] == V.ps;
    }
  }

  lemma HereShape(V: View, b: bool, w: Around)
    requires Shape(V, w) && V.k == Passed(b)
    ensures Shape(Here(V, b), w)
  {
    var W := Here(V, b);
    ListsInside(V, w);
    PriorHere(V, b, w);
    ElemsJoin(V.ps, if b then V.ts else V.fs);
    assert Elems([]) == {};
    hide Prior;
    forall j | j in W.ps ensures 0 <= j < EndOf(W) && W.C[j].Jmp? {
      assert j in Elems(W.ps);
      if j !in V.ps {
        assert Conditional(V.C, j);
      }
    }
  }

  // ---------------------------------------------------------------- negation

  function Negation(v: Val): Val { BoolV(!Truthy(v)) }

  function Negated(g: Intent): Intent {
    if g.Value? then g.(v := Negation(g.v)) else g
  }

  /** With the lists exchanged, and no test yielding a value, the negation leaves
      through the other list. */
  lemma NegatedDelivers(V: View, W: View, w: Around, m: Env, R: Regs, g: Intent)
    requires Shape(V, w) && Shape(W, w) && Delivers(V, w, m, R, g)
    requires W.ts == V.fs && W.fs == V.ts && forall j | j in Elems(V.ts) + Elems(V.fs) :: 0 < j <= |W.C| && !W.C[j - 1].TestSet?
    requires Flow(W, w, m, R) == Flow(V, w, m, R)
    requires var o := Flow(V, w, m, R);
             g.Value? && o.End? && Stands(V, m, o.R, g.v) ==> Stands(W, m, o.R, Negation(g.v))
    ensures Delivers(W, w, m, R, Negated(g))
  {
    hide Shape, Flow, Below, Stands;
    var o := Flow(V, w, m, R);
    if g.Value? && o.Exit? {
      assert o.j in Elems(V.ts) + Elems(V.fs);
      assert !W.C[o.j - 1].TestSet?;
    }
  }

  /** `removevalues` on both lists, exchanged. */
  function Exchanged(V: View, k: Kind): View {
    View(Removed(V.C, V.ts + V.fs), V.ps, k, V.fs, V.ts)
  }

  lemma ExchangeShape(V: View, k: Kind, w: Around)
    requires Shape(V, w) && EndOf(V.(k := k)) == EndOf(V) && (k.VJmp? || k.VRelocable? ==> k == V.k)
    ensures var W := Exchanged(V, k);
            && Shape(W, w) && Kept(V.C, W.C, w.O) && Patches(V.C, W.C, Open(V, w), w.start, EndOf(V))
            && (forall j | j in Elems(V.ts) + Elems(V.fs) :: 0 < j <= |W.C| && !W.C[j - 1].TestSet?)
            && forall i | EndOf(V) <= i < |V.C| :: W.C[i] == V.C[i]
  {
    var W := Exchanged(V, k);
    InsideEnd(V, w);
    RemovedTests(V, w);
    RemovedPatches(V, w);
    PriorRemoved(V, w);
    hide Removed, Kept, Conditional, Patches, Prior;
  }

  lemma PriorRemoved(V: View, w: Around)
    requires Shape(V, w)
    ensures Prior(Removed(V.C, V.ts + V.fs), V.ps, w)
  {
    var D := Removed(V.C, V.ts + V.fs);
    ListsInside(V, w);
    forall i | 0 <= i < w.start ensures D[i] == V.C[i] {
      assert i + 1 !in V.ts + V.fs;
    }
    if |V.C| == w.start && V.ps == w.waiting && forall i | 0 <= i < w.start :: Unpatched(V.C, V.ps, w.code, i) {
      forall i | 0 <= i < w.start ensures Unpatched(D, V.ps, w.code, i) {
        assert Unpatched(V.C, V.ps, w.code, i);
      }
    }
  }

  lemma RemovedTests(V: View, w: Around)
    requires Shape(V, w)
    ensures var D, L := Removed(V.C, V.ts + V.fs), Elems(V.ts) + Elems(V.fs);
            && (forall j | j in L + w.O :: Conditional(D, j)) && Kept(V.C, D, w.O)
            && (forall j | j in L :: 0 < j <= |D| && !D[j - 1].TestSet?)
            && (forall j | j in V.ps :: D[j].Jmp?)
            && forall i | EndOf(V) <= i < |V.C| :: D[i] == V.C[i]
  {
    var D, L := Removed(V.C, V.ts + V.fs), Elems(V.ts) + Elems(V.fs);
    ElemsJoin(V.ts, V.fs);
    InsideEnd(V, w);
    forall j | j in L + w.O
      ensures Conditional(D, j) && (j in L ==> !D[j - 1].TestSet?) && (j in w.O ==> D[j] == V.C[j] && D[j - 1] == V.C[j - 1])
    {
      assert Conditional(V.C, j);
    }
    forall i | EndOf(V) <= i < |V.C| ensures D[i] == V.C[i] {
      assert i + 1 in V.ts + V.fs ==> i + 1 in L;
    }
  }

  lemma RemovedPatches(V: View, w: Around)
    requires Shape(V, w)
    ensures Patches(V.C, Removed(V.C, V.ts + V.fs), Open(V, w), w.start, EndOf(V))
  {
    var D, L := Removed(V.C, V.ts + V.fs), Elems(V.ts) + Elems(V.fs);
    ElemsJoin(V.ts, V.fs);
    InsideEnd(V, w);
    forall i | w.start <= i < EndOf(V) ensures PatchAt(V.C, D, Open(V, w), EndOf(V), i) {
      assert i + 1 in V.ts + V.fs ==> i + 1 in L;
      if i in Open(V, w) && i !in V.ps {
        assert i in L + w.O;
        assert Conditional(V.C, i);
      }
    }
  }

  /** Values known at compile time, or a view whose kind alone is to be negated. */
  lemma ExchangeDelivers(V: View, k: Kind, w: Around, m: Env, R: Regs, g: Intent)
    requires Shape(V, w) && EndOf(V) == |V.C| && !V.k.VJmp? && !V.k.VRelocable? && (k.VTrue? || k.VFalse?)
    requires Delivers(V, w, m, R, g)
    requires g.Value? && Flow(V, w, m, R).End? && Stands(V, m, Flow(V, w, m, R).R, g.v) ==> Truthy(g.v) == k.VFalse?
    ensures var W := Exchanged(V, k); Shape(W, w) && Delivers(W, w, m, R, Negated(g))
  {
    var W := Exchanged(V, k);
    ExchangeShape(V, k, w);
    SameExec(V.C, W.C, m, Open(V, w), w.start, EndOf(V), R);
    assert Open(W, w) == Open(V, w);
    NegatedDelivers(V, W, w, m, R, g);
  }
}
