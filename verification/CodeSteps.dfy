/**
 The steps of the code generator on whole views: for every machine, start and intent.
 */
module CodeSteps {
  import opened Bytecode
  import opened JumpLists
  import opened CodeFlow
  import opened CodeOps
  import opened CodeJumps
  import opened CodeClose
  import opened CodeExpr

  /** Like `Keeps`, where register `reg` may be written even if it is a local. */
  ghost predicate Stores(V: View, W: View, w: Around, k: seq<Val>, reg: nat) {
    && Shape(V, w) && Shape(W, w)
    && forall m: Env, R: Regs, g: Intent | k <= m.k && Writable(g, reg) && Delivers(V, w, m, R, g) :: Delivers(W, w, m, R, g)
  }

  lemma StoresKeeps(V: View, W: View, w: Around, k: seq<Val>, reg: nat, free: nat)
    requires Stores(V, W, w, k, reg) && reg >= free
    ensures Keeps(V, W, w, k, free)
  {
    hide Shape, Delivers;
  }

  lemma KeepsStores(U: View, V: View, W: View, w: Around, k: seq<Val>, l: seq<Val>, reg: nat)
    requires Stores(U, V, w, k, reg) && Stores(V, W, w, l, reg) && k <= l
    ensures Stores(U, W, w, l, reg)
  {
    hide Shape, Delivers;
    forall m: Env, R: Regs, g: Intent | l <= m.k && Writable(g, reg) && Delivers(U, w, m, R, g) ensures Delivers(W, w, m, R, g) {
      assert Delivers(V, w, m, R, g);
    }
  }

  lemma KeepsSelf(V: View, w: Around, k: seq<Val>, free: nat)
    requires Shape(V, w)
    ensures Keeps(V, V, w, k, free)
  {
  }

  lemma StoresSelf(V: View, w: Around, k: seq<Val>, reg: nat)
    requires Shape(V, w)
    ensures Stores(V, V, w, k, reg)
  {
  }

  /** Shapes and open jumps are unaffected by where a value is said to be. */
  lemma SameShape(V: View, k: Kind, w: Around)
    requires Shape(V, w) && EndOf(V) == |V.C| && !k.VJmp? && !k.VRelocable?
    ensures Shape(V.(k := k), w)
    ensures !V.k.VJmp? ==> forall m, R :: Flow(V.(k := k), w, m, R) == Flow(V, w, m, R)
  {
    assert Open(V.(k := k), w) == Open(V, w);
  }

  /** `luaK_dischargevars`. */
  lemma StoresLocal(V: View, w: Around, k: seq<Val>, reg: nat)
    requires Shape(V, w) && V.k.VLocal?
    ensures Stores(V, V.(k := VNonReloc(V.k.r)), w, k, reg)
  {
    SameShape(V, VNonReloc(V.k.r), w);
    hide Shape, Flow;
  }

  lemma StoresLoad(V: View, w: Around, reg: nat, kn: nat, k: seq<Val>)
    requires Shape(V, w) && Loadable(V.k) && (V.k.VKNum? ==> kn < |k| && k[kn] == NumV(V.k.n))
    ensures var W := Emit(V, [LoadInstr(V.k, reg, kn)], VNonReloc(reg));
            Stores(V, W, w, k, reg) && Kept(V.C, W.C, Elems(V.ts) + Elems(V.fs) + w.O)
  {
    var W := Emit(V, [LoadInstr(V.k, reg, kn)], VNonReloc(reg));
    EmitShape(V, w, [LoadInstr(V.k, reg, kn)], VNonReloc(reg));
    DischargedKeeps(V, w);
    hide Shape, Delivers, Emit;
    forall m: Env, R: Regs, g: Intent | k <= m.k && Writable(g, reg) && Delivers(V, w, m, R, g) ensures Delivers(W, w, m, R, g) {
      LoadDelivers(V, w, reg, kn, m, R, g);
    }
  }

  lemma StoresRelocate(V: View, w: Around, reg: nat, k: seq<Val>)
    requires Shape(V, w) && V.k.VRelocable?
    ensures Stores(V, Relocated(V, reg), w, k, reg)
    ensures Kept(V.C, Relocated(V, reg).C, Elems(V.ts) + Elems(V.fs) + w.O)
  {
    RelocateShape(V, w, reg);
    forall m: Env, R: Regs, g: Intent | k <= m.k && Writable(g, reg) && Delivers(V, w, m, R, g)
      ensures Delivers(Relocated(V, reg), w, m, R, g)
    {
      RelocateDelivers(V, w, reg, m, R, g);
    }
  }

  lemma StoresFell(V: View, w: Around, reg: nat, k: seq<Val>)
    requires Shape(V, w) && V.k.VJmp?
    ensures Stores(V, FellView(V), w, k, reg)
  {
    FellShape(V, w);
    hide Shape, Delivers, FellView;
    forall m: Env, R: Regs, g: Intent | k <= m.k && Writable(g, reg) && Delivers(V, w, m, R, g)
      ensures Delivers(FellView(V), w, m, R, g)
    {
      FellDelivers(V, w, m, R, g);
    }
  }

  lemma FellShape(V: View, w: Around)
    requires Shape(V, w) && V.k.VJmp?
    ensures Shape(FellView(V), w)
  {
    JmpParts(V, w);
    JumpedIsBranch(V, false, w);
    UnjumpedShape(V, w);
    BranchShape(Unjumped(V), w, V.C[V.k.pc - 1], false);
    SameShape(Jumped(V, false), Fell, w);
  }

  lemma StoresRelink(V: View, C': seq<Instr>, w: Around, k: seq<Val>, reg: nat)
    requires Shape(V, w) && Relinked(V, C')
    ensures Stores(V, V.(C := C'), w, k, reg) && Kept(V.C, C', w.O)
  {
    RelinkShape(V, C', w);
    hide Shape, Delivers, Relinked;
    forall m: Env, R: Regs, g: Intent | k <= m.k && Writable(g, reg) && Delivers(V, w, m, R, g)
      ensures Delivers(V.(C := C'), w, m, R, g)
    {
      RelinkDelivers(V, C', w, m, R, g);
    }
  }

  lemma KeepsRelink(V: View, C': seq<Instr>, w: Around, k: seq<Val>, free: nat)
    requires Shape(V, w) && Relinked(V, C')
    ensures Keeps(V, V.(C := C'), w, k, free) && Kept(V.C, C', w.O)
  {
    StoresRelink(V, C', w, k, free);
    StoresKeeps(V, V.(C := C'), w, k, free, free);
  }

  lemma StoresClosed(V: View, C': seq<Instr>, ps': seq<int>, reg: nat, pf: int, pt: int, w: Around, k: seq<Val>)
    requires Shape(V, w) && EndOf(V) == |V.C| && !V.k.VJmp? && Closes(V, C', ps', reg, pf, pt)
    ensures Stores(V, ClosedView(C', ps', reg), w, k, reg) && Kept(V.C, C', w.O)
  {
    ClosedShape(V, C', ps', reg, pf, pt, w);
    hide Shape, Delivers, Closes;
    forall m: Env, R: Regs, g: Intent | k <= m.k && Writable(g, reg) && Delivers(V, w, m, R, g)
      ensures Delivers(ClosedView(C', ps', reg), w, m, R, g)
    {
      ClosedDelivers(V, C', ps', reg, pf, pt, w, m, R, g);
    }
  }

  // ---------------------------------------------------------------- tests

  /** A constant that the test lets pass needs no code. */
  lemma KeepsConstant(V: View, w: Around, b: bool, k: seq<Val>, free: nat)
    requires Shape(V, w)
    requires if b then V.k.VTrue? || V.k.VKNum? || (V.k.VK? && V.k.i < |k| && Truthy(k[V.k.i])) else V.k.VNil? || V.k.VFalse?
    ensures Keeps(V, V.(k := Passed(b)), w, k, free)
  {
    SameShape(V, Passed(b), w);
    hide Shape, Flow;
  }

  lemma KeepsBranchReg(V: View, w: Around, b: bool, k: seq<Val>, free: nat)
    requires Shape(V, w) && V.k.VNonReloc?
    ensures var W := Branch(V, TestSet(NO_REG, V.k.r, !b), b);
            Keeps(V, W, w, k, free) && Kept(V.C, W.C, Elems(V.ts) + Elems(V.fs) + w.O)
  {
    var T := TestSet(NO_REG, V.k.r, !b);
    BranchShape(V, w, T, b);
    hide Shape, Branch, Flow;
    forall m: Env, R: Regs, g: Intent | k <= m.k && (g.Value? ==> g.base <= free) && Delivers(V, w, m, R, g)
      ensures Delivers(Branch(V, T, b), w, m, R, g)
    {
      BranchDelivers(V, w, T, b, m, R, g);
    }
  }

  /** The provisional `not` is taken back, and its operand tested instead. */
  function Unnegated(V: View): View
    requires V.k.VRelocable? && 0 <= V.k.pc <= |V.C|
  {
    View(V.C[..V.k.pc], [], Void, V.ts, V.fs)
  }

  lemma UnnegatedDelivers(V: View, w: Around, m: Env, R: Regs, g: Intent)
    requires Shape(V, w) && V.k.VRelocable? && Delivers(V, w, m, R, g)
    ensures var U := Unnegated(V);
            && Shape(U, w) && Delivers(U, w, m, R, g) && Flow(U, w, m, R) == Flow(V, w, m, R)
            && (g.Value? && Flow(U, w, m, R).End? ==> g.v == BoolV(!Truthy(Flow(U, w, m, R).R(V.C[V.k.pc].b))))
  {
    var U := Unnegated(V);
    UnnegatedShape(V, w);
    assert Open(U, w) == Open(V, w);
    UnnegatedPatches(V, w);
    SameExec(V.C, U.C, m, Open(V, w), w.start, EndOf(V), R);
    ExitsKept(V, U, w, m, R);
    hide Shape, Below, Kept;
    var o := Flow(V, w, m, R);
    if g.Value? && o.Exit? {
      assert o.j in V.ts ==> o.j in Elems(V.ts);
      assert o.j in V.fs ==> o.j in Elems(V.fs);
    }
  }

  lemma UnnegatedShape(V: View, w: Around)
    requires Shape(V, w) && V.k.VRelocable?
    ensures Shape(Unnegated(V), w) && EndOf(Unnegated(V)) == |Unnegated(V).C| == |V.C| - 1
    ensures Kept(V.C, Unnegated(V).C, Elems(V.ts) + Elems(V.fs) + w.O) && Kept(V.C, Unnegated(V).C, Elems(V.ts) + Elems(V.fs))
  {
    var U := Unnegated(V);
    forall j | j in Elems(V.ts) + Elems(V.fs) + w.O ensures j < |U.C| && Conditional(U.C, j) {
      assert Conditional(V.C, j);
    }
  }

  lemma UnnegatedPatches(V: View, w: Around)
    requires Shape(V, w) && V.k.VRelocable?
    ensures Patches(V.C, Unnegated(V).C, Open(V, w), w.start, EndOf(V))
  {
    var U := Unnegated(V);
    forall i | w.start <= i < EndOf(V) ensures PatchAt(V.C, U.C, Open(V, w), EndOf(V), i) {
      if i in Open(V, w) {
        assert i in Elems(V.ts) + Elems(V.fs) + w.O;
        assert Conditional(V.C, i);
      }
    }
  }

  lemma KeepsBranchNot(V: View, w: Around, b: bool, k: seq<Val>, free: nat)
    requires Shape(V, w) && V.k.VRelocable?
    ensures var W := Branch(Unnegated(V), Test(V.C[V.k.pc].b, b), b);
            Keeps(V, W, w, k, free) && Kept(V.C, W.C, Elems(V.ts) + Elems(V.fs) + w.O)
  {
    var T, U := Test(V.C[V.k.pc].b, b), Unnegated(V);
    UnnegatedShape(V, w);
    BranchShape(U, w, T, b);
    KeptTwice(V.C, U.C, Branch(U, T, b).C, Elems(V.ts) + Elems(V.fs) + w.O);
    hide Shape, Branch, Flow, Delivers, Kept;
    forall m: Env, R: Regs, g: Intent | k <= m.k && (g.Value? ==> g.base <= free) && Delivers(V, w, m, R, g)
      ensures Delivers(Branch(U, T, b), w, m, R, g)
    {
      UnnegatedDelivers(V, w, m, R, g);
      BranchDelivers(U, w, T, b, m, R, g);
    }
  }

  lemma KeepsJumped(V: View, w: Around, b: bool, k: seq<Val>, free: nat)
    requires Shape(V, w) && V.k.VJmp?
    ensures 0 < V.k.pc <= |V.C| && V.C[V.k.pc - 1].Compare? && Keeps(V, Jumped(V, b), w, k, free)
    ensures Kept(V.C, Jumped(V, b).C, Elems(V.ts) + Elems(V.fs) + w.O)
  {
    JmpParts(V, w);
    JumpedIsBranch(V, b, w);
    UnjumpedShape(V, w);
    var T := if b then V.C[V.k.pc - 1].(cond := !V.C[V.k.pc - 1].cond) else V.C[V.k.pc - 1];
    BranchShape(Unjumped(V), w, T, b);
    JumpedKeeps(V, b, w);
    hide Shape, Jumped, Flow, Delivers, Branch;
    forall m: Env, R: Regs, g: Intent | k <= m.k && (g.Value? ==> g.base <= free) && Delivers(V, w, m, R, g)
      ensures Delivers(Jumped(V, b), w, m, R, g)
    {
      JumpedDelivers(V, b, w, m, R, g);
    }
  }

  lemma KeepsHere(V: View, w: Around, b: bool, k: seq<Val>, free: nat)
    requires Shape(V, w) && V.k == Passed(b)
    ensures Keeps(V, Here(V, b), w, k, free)
  {
    HereShape(V, b, w);
    hide Shape, Here, Flow, Delivers;
    forall m: Env, R: Regs, g: Intent | k <= m.k && (g.Value? ==> g.base <= free) && Delivers(V, w, m, R, g)
      ensures Delivers(Here(V, b), w, m, R, g)
    {
      HereDelivers(V, b, w, m, R, g);
    }
  }

  // ---------------------------------------------------------------- not

  lemma DeniesConstant(V: View, w: Around, k: seq<Val>, free: nat)
    requires Shape(V, w)
    requires V.k.VNil? || V.k.VFalse? || V.k.VTrue? || V.k.VKNum? || (V.k.VK? && V.k.i < |k| && Truthy(k[V.k.i]))
    ensures var W := Exchanged(V, if V.k.VNil? || V.k.VFalse? then VTrue else VFalse);
            Denies(V, W, w, k, free) && Kept(V.C, W.C, w.O)
  {
    var q := if V.k.VNil? || V.k.VFalse? then VTrue else VFalse;
    ExchangeShape(V, q, w);
    hide Shape, Flow, Exchanged;
    forall m: Env, R: Regs, g: Intent | k <= m.k && (g.Value? ==> g.base <= free) && Delivers(V, w, m, R, g)
      ensures Delivers(Exchanged(V, q), w, m, R, Negated(g))
    {
      ExchangeDelivers(V, q, w, m, R, g);
    }
  }

  lemma DeniesComparison(V: View, w: Around, k: seq<Val>, free: nat)
    requires Shape(V, w) && V.k.VJmp?
    ensures 0 < V.k.pc <= |V.C| && V.C[V.k.pc - 1].Compare?
    ensures var W := Exchanged(V.(C := Inverted(V.C, V.k.pc)), V.k);
            Denies(V, W, w, k, free) && Kept(V.C, W.C, w.O)
  {
    JmpParts(V, w);
    InvertedShape(V, w);
    var U := V.(C := Inverted(V.C, V.k.pc));
    ExchangeShape(U, V.k, w);
    KeptTwice(V.C, U.C, Exchanged(U, V.k).C, w.O);
    hide Shape, Flow, Exchanged, Delivers, Kept;
    forall m: Env, R: Regs, g: Intent | k <= m.k && (g.Value? ==> g.base <= free) && Delivers(V, w, m, R, g)
      ensures Delivers(Exchanged(U, V.k), w, m, R, Negated(g))
    {
      NotComparison(V, w, m, R, g);
    }
  }

  lemma DeniesRegister(V: View, w: Around, k: seq<Val>, free: nat)
    requires Shape(V, w) && V.k.VNonReloc?
    ensures var U := Denied(V, V.k.r); var W := Exchanged(U, U.k);
            Denies(V, W, w, k, free) && Kept(V.C, W.C, w.O)
  {
    var U := Denied(V, V.k.r);
    DeniedShape(V, V.k.r, w);
    ExchangeShape(U, U.k, w);
    KeptTwice(V.C, U.C, Exchanged(U, U.k).C, w.O);
    hide Shape, Flow, Exchanged, Delivers, Kept, Denied;
    forall m: Env, R: Regs, g: Intent | k <= m.k && (g.Value? ==> g.base <= free) && Delivers(V, w, m, R, g)
      ensures Delivers(Exchanged(U, U.k), w, m, R, Negated(g))
    {
      NotRegister(V, w, m, R, g);
    }
  }

  // ---------------------------------------------------------------- operands

  /** A constant put into the constant table. */
  lemma KeepsIndexed(V: View, w: Around, i: nat, k: seq<Val>, free: nat)
    requires Shape(V, w) && i < |k|
    requires match V.k
             case VNil => k[i] == NilV
             case VTrue => k[i] == BoolV(true)
             case VFalse => k[i] == BoolV(false)
             case VKNum(n) => k[i] == NumV(n)
             case _ => false
    ensures Keeps(V, V.(k := VK(i)), w, k, free)
  {
    SameShape(V, VK(i), w);
    hide Shape, Flow;
  }

  // ---------------------------------------------------------------- leaves

  /** What an expression that is known without code starts as. */
  ghost predicate Leaf(E: Expr, q: Kind, k: seq<Val>) {
    match E
    case ENil => q == VNil
    case ETrue => q == VTrue
    case EFalse => q == VFalse
    case ENum(n) => q == VKNum(n)
    case EStr(s) => q.VK? && q.i < |k| && k[q.i] == StrV(s)
    case ELocal(r) => q == VLocal(r)
    case _ => false
  }

  lemma LeafComputes(V: View, w: Around, E: Expr, q: Kind, k: seq<Val>, n: nat, free: nat)
    requires Shape(V, w) && V.k == Void && Leaf(E, q, k) && LocalsBelow(E, n) && V.ts == [] && V.fs == []
    ensures Computes(V, V.(k := q), w, k, n, free, E) && Shape(V.(k := q), w)
  {
    SameShape(V, q, w);
    hide Shape, Flow;
  }

  lemma DeniedComputes(U: View, V: View, W: View, w: Around, k: seq<Val>, l: seq<Val>, n: nat, free: nat, E: Expr)
    requires Computes(U, V, w, k, n, free, E) && Denies(V, W, w, l, free) && k <= l
    ensures Computes(U, W, w, l, n, free, ENot(E))
  {
    hide Shape, Delivers;
    forall m: Env, R: Regs, g: Intent | l <= m.k && Fits(g, n, free) && Delivers(U, w, m, R, g)
      ensures Delivers(W, w, m, R, Meaning(ENot(E), m, g))
    {
      assert Delivers(V, w, m, R, Meaning(E, m, g));
    }
  }

  lemma KeepsDenies(U: View, V: View, W: View, w: Around, k: seq<Val>, l: seq<Val>, free: nat)
    requires Keeps(U, V, w, k, free) && Denies(V, W, w, l, free) && k <= l
    ensures Denies(U, W, w, l, free)
  {
    hide Shape, Delivers;
    forall m: Env, R: Regs, g: Intent | l <= m.k && (g.Value? ==> g.base <= free) && Delivers(U, w, m, R, g)
      ensures Delivers(W, w, m, R, Negated(g))
    {
      assert Delivers(V, w, m, R, g);
    }
  }

  // ---------------------------------------------------------------- closing

  /** Patching both lists closes the code. */
  lemma PatchingCloses(V: View, C: seq<Instr>, ps': seq<int>, reg: nat, pf: int, pt: int, w: Around)
    requires Shape(V, w) && EndOf(V) == |V.C| <= |C| && C[..|V.C|] == V.C
    requires if |C| == |V.C| then
               V.k == VNonReloc(reg) && ps' == V.ps && forall j | j in V.ts || j in V.fs :: YieldsValue(V.C, j)
             else
               && |V.C| <= pf && pt == pf + 1 && |C| == pf + 2 && (V.ts != [] || V.fs != [])
               && C[pf] == LoadBool(reg, false, true) && C[pt] == LoadBool(reg, true, false)
               && if V.k.Fell? then pf == |V.C| && ps' == [] && V.ps == []
                  else V.k == VNonReloc(reg) && pf == |V.C| + 1 && ps' == [|V.C|] + V.ps && C[|V.C|].Jmp?
    ensures Closes(V, Patched(Patched(C, V.fs, |C|, reg, pf), V.ts, |C|, reg, pt), ps', reg, pf, pt)
  {
    var D := Patched(C, V.fs, |C|, reg, pf);
    var C' := Patched(D, V.ts, |C|, reg, pt);
    NotYet(V, w);
    ListsAreJumps(V, w);
    forall i | 0 <= i < |V.C| ensures ClosedAt(V, C', reg, |C|, pf, pt, i) {
      assert C[i] == V.C[i];
      ListApart(V, w, i);
      assert D[i] == PatchedAt(C, V.fs, |C|, reg, pf, i);
      assert C'[i] == PatchedAt(D, V.ts, |C|, reg, pt, i);
      if i > 0 {
        ListApart(V, w, i - 1);
        assert C[i - 1] == V.C[i - 1];
        assert D[i - 1] == PatchedAt(C, V.fs, |C|, reg, pf, i - 1);
      }
    }
    forall i | |V.C| <= i < |C| ensures C'[i] == C[i] {
      assert i !in V.ts && i !in V.fs && i + 1 !in V.ts && i + 1 !in V.fs;
      assert D[i] == PatchedAt(C, V.fs, |C|, reg, pf, i);
      assert C'[i] == PatchedAt(D, V.ts, |C|, reg, pt, i);
    }
  }

  /** A jump is in one list, and a test belongs to one. */
  lemma ListApart(V: View, w: Around, i: int)
    requires Shape(V, w)
    ensures i in V.ts ==> i !in V.fs && i !in V.ps && i + 1 !in V.ts && i + 1 !in V.fs
    ensures i in V.fs ==> i !in V.ts && i !in V.ps && i + 1 !in V.ts && i + 1 !in V.fs
    ensures i + 1 in V.ts ==> i + 1 !in V.fs && i !in V.ps
    ensures i + 1 in V.fs ==> i + 1 !in V.ts && i !in V.ps
  {
    assert i in Elems(V.ts) <==> i in V.ts;
    assert i in Elems(V.fs) <==> i in V.fs;
    assert i in Elems(V.ps) <==> i in V.ps;
    assert i + 1 in Elems(V.ts) <==> i + 1 in V.ts;
    assert i + 1 in Elems(V.fs) <==> i + 1 in V.fs;
    ListsAreJumps(V, w);
    if i + 1 in V.ts || i + 1 in V.fs {
      assert i + 1 in Elems(V.ts) + Elems(V.fs) + w.O;
      assert Conditional(V.C, i + 1);
    }
  }

  // ---------------------------------------------------------------- lists

  lemma ListKept(V: View, w: Around, C': seq<Instr>, l: int, s: seq<int>)
    requires Shape(V, w) && IsList(V.C, l, s) && (forall j | j in s :: j in V.ts || j in V.fs)
    requires Kept(V.C, C', Elems(V.ts) + Elems(V.fs) + w.O)
    ensures IsList(C', l, s)
  {
    forall j | j in s ensures 0 < j < |V.C| && j < |C'| && C'[j] == V.C[j] {
      assert j in Elems(V.ts) + Elems(V.fs) + w.O;
      assert Conditional(V.C, j);
    }
    ListFrame(V.C, C', l, s);
  }

  lemma OuterListKept(C: seq<Instr>, C': seq<Instr>, O: set<int>, l: int, s: seq<int>)
    requires IsList(C, l, s) && Kept(C, C', O) && forall j | j in s :: j in O && j > 0
    ensures IsList(C', l, s)
  {
    ListMembers(C, l, s);
    ListFrame(C, C', l, s);
  }

  lemma KeptLess(C: seq<Instr>, C': seq<Instr>, s: set<int>, t: set<int>)
    requires Kept(C, C', s) && t <= s
    ensures Kept(C, C', t)
  {
  }

  /** Lists of a view can be joined. */
  lemma ListsDistinct(V: View, w: Around)
    requires Shape(V, w)
    ensures Distinct(V.ps + V.ts) && Distinct(V.ps + V.fs) && Distinct(V.ps) && Distinct(V.ts) && Distinct(V.fs)
  {
    ElemsJoin(V.ps, V.ts);
    ElemsJoin(V.ps, V.fs);
  }

  /** The only list without jumps is the empty one. */
  lemma NoJumps(V: View, w: Around, t: int, f: int)
    requires Shape(V, w) && IsList(V.C, t, V.ts) && IsList(V.C, f, V.fs)
    ensures t == f <==> V.ts == [] && V.fs == []
  {
    ListMembers(V.C, t, V.ts);
    ListMembers(V.C, f, V.fs);
    if V.ts != [] && V.fs != [] {
      assert V.ts[0] in Elems(V.ts) && V.fs[0] in Elems(V.fs);
    }
  }

  /** The jump of a comparison is a list of its own. */
  lemma JmpList(V: View, w: Around)
    requires Shape(V, w) && V.k.VJmp?
    ensures V.ps == [] && V.k.pc == |V.C| - 1 >= 1 && V.C[V.k.pc] == Jmp(NO_JUMP) && V.C[V.k.pc - 1].Compare?
    ensures IsList(V.C, V.k.pc, [V.k.pc]) && V.k.pc !in V.ts && V.k.pc !in V.fs
    ensures Distinct(V.ts + [V.k.pc]) && Distinct(V.fs + [V.k.pc])
  {
    ListsAreJumps(V, w);
    assert [V.k.pc][1..] == [];
  }

  /** The comparison joins the list for true. */
  lemma FellRelinked(V: View, w: Around, C': seq<Instr>)
    requires Shape(V, w) && V.k.VJmp? && |C'| == |V.C|
    requires forall i | 0 <= i < |C'| :: if i in V.ts then C'[i].Jmp? else C'[i] == V.C[i]
    ensures Relinked(FellView(V), C') && !YieldsValue(C', V.k.pc) && Shape(FellView(V), w)
  {
    FellShape(V, w);
    ListsAreJumps(V, w);
    ElemsJoin(V.ts, [V.k.pc]);
  }

  /** A list apart from the one that was linked. */
  lemma OffList(V: View, w: Around, C': seq<Instr>, l: int, s: seq<int>)
    requires Shape(V, w) && IsList(V.C, l, s) && |C'| == |V.C| && (s == V.fs || s == V.ps)
    requires forall i | 0 <= i < |C'| && i !in V.ts :: C'[i] == V.C[i]
    ensures IsList(C', l, s)
  {
    forall j | j in s ensures j !in V.ts {
      assert j in Elems(s);
      assert j in V.ts ==> j in Elems(V.ts);
    }
    ListFrame(V.C, C', l, s);
  }

  /** Lists of a view in longer code. */
  lemma ListsSurvive(V: View, w: Around, C: seq<Instr>, t: int, f: int)
    requires Shape(V, w) && |V.C| <= |C| && C[..|V.C|] == V.C
    requires IsList(V.C, t, V.ts) && IsList(V.C, f, V.fs)
    ensures IsList(C, t, V.ts) && IsList(C, f, V.fs)
  {
    assert forall i | 0 <= i < |V.C| :: C[i] == C[..|V.C|][i];
    ListFrame(V.C, C, t, V.ts);
    ListFrame(V.C, C, f, V.fs);
  }

  /** Patching the list for false leaves the one for true. */
  lemma AfterFalse(V: View, w: Around, C: seq<Instr>, t: int, final: int, reg: int, pf: int)
    requires Shape(V, w) && |V.C| <= |C| && C[..|V.C|] == V.C && IsList(C, t, V.ts)
    ensures IsList(Patched(C, V.fs, final, reg, pf), t, V.ts)
  {
    var D := Patched(C, V.fs, final, reg, pf);
    ListMembers(C, t, V.ts);
    forall j | j in V.ts ensures D[j] == C[j] {
      ListApart(V, w, j);
      assert D[j] == PatchedAt(C, V.fs, final, reg, pf, j);
    }
    ListFrame(C, D, t, V.ts);
  }

  /** Pending jumps are in neither list. */
  lemma PendingSurvives(V: View, w: Around, C: seq<Instr>, l: int, ps: seq<int>, final: int, reg: int, pf: int, pt: int)
    requires Shape(V, w) && EndOf(V) == |V.C| <= |C| && C[..|V.C|] == V.C && IsList(C, l, ps)
    requires forall j | j in ps :: j in V.ps || j >= |V.C|
    ensures IsList(Patched(Patched(C, V.fs, final, reg, pf), V.ts, final, reg, pt), l, ps)
  {
    var D := Patched(C, V.fs, final, reg, pf);
    var E := Patched(D, V.ts, final, reg, pt);
    ListMembers(C, l, ps);
    ListsAreJumps(V, w);
    forall j | j in ps ensures E[j] == C[j] {
      ListApart(V, w, j);
      assert j in V.ps ==> j in Elems(V.ps);
      assert j in V.ts ==> j in Elems(V.ts);
      assert j in V.fs ==> j in Elems(V.fs);
      assert D[j] == PatchedAt(C, V.fs, final, reg, pf, j);
      assert E[j] == PatchedAt(D, V.ts, final, reg, pt, j);
    }
    ListFrame(C, E, l, ps);
  }

  lemma ListOff(C: seq<Instr>, C': seq<Instr>, l: int, s: seq<int>, r: seq<int>)
    requires IsList(C, l, s) && |C'| == |C| && Elems(s) !! Elems(r)
    requires forall i | 0 <= i < |C| && i !in r :: C'[i] == C[i]
    ensures IsList(C', l, s)
  {
    forall j | j in s ensures j !in r {
      assert j in Elems(s);
      assert j in r ==> j in Elems(r);
    }
    ListFrame(C, C', l, s);
  }

  // ---------------------------------------------------------------- a tested operand

  /** A tested operand: `r` are the jumps that leave, `q` those that agree with the test. */
  function TestView(C: seq<Instr>, ps: seq<int>, b: bool, q: seq<int>, r: seq<int>): View {
    View(C, ps, Passed(b), if b then q else r, if b then r else q)
  }

  lemma TestParts(C: seq<Instr>, ps: seq<int>, b: bool, q: seq<int>, r: seq<int>, w: Around)
    requires Shape(TestView(C, ps, b, q, r), w)
    ensures Elems(ps) !! Elems(q) && Elems(ps) !! Elems(r) && Elems(q) !! Elems(r)
    ensures Distinct(ps) && Distinct(r) && Distinct(ps + q)
    ensures forall j | j in ps || j in q || j in r :: 0 <= j < |C| && C[j].Jmp?
  {
    ElemsJoin(ps, q);
    ListsAreJumps(TestView(C, ps, b, q, r), w);
  }

  lemma TestRelinked(C: seq<Instr>, C': seq<Instr>, x: seq<int>, ps: seq<int>, b: bool, q: seq<int>, r: seq<int>, w: Around, k: seq<Val>, free: nat)
    requires Shape(TestView(C, ps, b, q, r), w)
    requires |C'| == |C| && forall i | 0 <= i < |C'| :: if i in x then C'[i].Jmp? else C'[i] == C[i]
    requires forall j | j in x :: j in ps || j in r
    ensures Keeps(TestView(C, ps, b, q, r), TestView(C', ps, b, q, r), w, k, free) && Kept(C, C', w.O)
  {
    var V := TestView(C, ps, b, q, r);
    ListsAreJumps(V, w);
    assert Relinked(V, C');
    KeepsRelink(V, C', w, k, free);
  }

  lemma TestHere(C: seq<Instr>, ps: seq<int>, b: bool, q: seq<int>, r: seq<int>, w: Around, k: seq<Val>, free: nat)
    requires Shape(TestView(C, ps, b, q, r), w)
    ensures Keeps(TestView(C, ps, b, q, r), TestView(C, ps + q, b, [], r), w, k, free)
  {
    KeepsHere(TestView(C, ps, b, q, r), w, b, k, free);
  }

  // ---------------------------------------------------------------- removal

  /** Tests are patched, jumps stay. */
  lemma RemovedLists(C: seq<Instr>, s: seq<int>, l: int, t: seq<int>)
    requires IsList(C, l, t)
    ensures IsList(Removed(C, s), l, t)
  {
    ListMembers(C, l, t);
    ListFrame(C, Removed(C, s), l, t);
  }

  // ---------------------------------------------------------------- joined lists

  lemma BothParts(V: View, U: View, w: Around)
    requires Shape(V, w) && Shape(U, Outside(V, w))
    ensures Elems(U.ps) !! Elems(U.ts) && Elems(U.ps) !! Elems(U.fs) && Elems(U.ts) !! Elems(U.fs)
    ensures Distinct(U.ts + V.ts) && Distinct(U.fs + V.fs)
    ensures forall j | j in U.ts || j in U.fs :: 0 <= j < |U.C| && U.C[j].Jmp?
  {
    BothShape(V, U, w);
    ListsAreJumps(U, Outside(V, w));
  }

  lemma BothRelinked(V: View, U: View, C': seq<Instr>, x: seq<int>, w: Around, k: seq<Val>, free: nat)
    requires Shape(V, w) && Shape(U, Outside(V, w)) && |C'| == |U.C| && (x == U.ts || x == U.fs)
    requires forall i | 0 <= i < |C'| :: if i in x then C'[i].Jmp? else C'[i] == U.C[i]
    ensures Keeps(Both(V, U), Both(V, U).(C := C'), w, k, free) && Kept(U.C, C', w.O)
  {
    var B := Both(V, U);
    BothShape(V, U, w);
    ListsAreJumps(B, w);
    forall j | j in x ensures j in B.ts || j in B.fs {
    }
    assert Relinked(B, C');
    KeepsRelink(B, C', w, k, free);
  }

  /** What a tested operand left, seen from the second one. */
  lemma OuterLists(V: View, C': seq<Instr>, w: Around, l: int, s: seq<int>)
    requires Shape(V, w) && IsList(V.C, l, s) && (s == V.ts || s == V.fs) && Kept(V.C, C', Outside(V, w).O)
    ensures IsList(C', l, s)
  {
    forall j | j in s ensures j in Outside(V, w).O && j > 0 {
      assert j in Elems(V.ts) + Elems(V.fs) + w.O;
      assert Conditional(V.C, j);
    }
    OuterListKept(V.C, C', Outside(V, w).O, l, s);
  }

  lemma OuterLess(V: View, w: Around, C: seq<Instr>, C': seq<Instr>)
    requires Kept(C, C', Outside(V, w).O)
    ensures Kept(C, C', w.O)
  {
  }

  // ---------------------------------------------------------------- from start to end

  /** Before any code, control is where it starts. */
  lemma StartDelivers(C: seq<Instr>, s: seq<int>, m: Env, R: Regs, base: nat)
    requires Distinct(s) && forall j | j in s :: 0 <= j < |C| && C[j].Jmp?
    ensures var V, w := View(C, s, Void, [], []), Around(|C|, {}, C, s);
            Shape(V, w) && Delivers(V, w, m, R, Value(NilV, R, base, -1))
  {
    assert Elems([]) == {};
  }

  /** With the next instruction, no jump is open any more. */
  lemma EndRuns(V: View, w: Around, i: Instr, m: Env, R: Regs, g: Intent)
    requires Shape(V, w) && V.k.VNonReloc? && V.ts == [] && V.fs == [] && w.O == {} && Delivers(V, w, m, R, g)
    ensures var o := Exec(Discharged(V) + [i], m, {}, w.start, |V.C|, R);
            if g.Leave? then o == g.o
            else o.End? && o.R(V.k.r) == g.v && Below(g.Q, o.R, g.base, g.hole)
  {
    Emitted(V, w, [i], {}, |V.C|, m, R);
    hide Shape;
  }

  /** The register that a value is stored in may be any. */
  lemma HoleAllowed(V: View, w: Around, m: Env, R: Regs, g: Intent, reg: int)
    requires Shape(V, w) && Delivers(V, w, m, R, g) && (g.Value? ==> g.hole == -1)
    ensures Delivers(V, w, m, R, if g.Value? then g.(hole := reg) else g)
  {
    hide Shape, Flow, Stands;
  }

  /** What running the code of an expression comes to: the value is in the register,
      and the registers below `n` are kept; or the error is raised. */
  ghost predicate Evaluates(C: seq<Instr>, start: int, end: int, m: Env, R: Regs, E: Expr, reg: nat, n: nat) {
    var x, o := Eval(E, m, R), Exec(C, m, {}, start, end, R);
    if x.Error? then o.Raise?
    else o.End? && o.R(reg) == x.v && forall r: nat | r < n && r != reg :: o.R(r) == R(r)
  }

  lemma Compiled(S: View, V: View, U: View, i: Instr, m: Env, R: Regs, E: Expr, reg: nat, k: seq<Val>, l: seq<Val>, n: nat, free: nat)
    requires var w := Around(|S.C|, {}, S.C, S.ps);
             Computes(S, V, w, k, n, free, E) && Stores(V, U, w, l, reg) && k <= l <= m.k && n <= free
    requires S == View(S.C, S.ps, Void, [], []) && Distinct(S.ps) && forall j | j in S.ps :: 0 <= j < |S.C| && S.C[j].Jmp?
    requires U.k == VNonReloc(reg) && U.ts == [] && U.fs == []
    ensures Evaluates(Discharged(U) + [i], |S.C|, |U.C|, m, R, E, reg, free)
  {
    hide Shape, Delivers, Exec;
    var w := Around(|S.C|, {}, S.C, S.ps);
    var g := Value(NilV, R, free, -1);
    StartDelivers(S.C, S.ps, m, R, free);
    var h := Meaning(E, m, g);
    assert Delivers(V, w, m, R, h);
    HoleAllowed(V, w, m, R, h, reg);
    var h' := if h.Value? then h.(hole := reg) else h;
    assert Delivers(U, w, m, R, h');
    EndRuns(U, w, i, m, R, h');
  }
}
