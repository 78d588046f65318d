/**
 Expressions, what they mean, and how the code of two operands joins.
 */
module CodeExpr {
  import opened Bytecode
  import opened JumpLists
  import opened CodeFlow
  import opened CodeOps
  import opened CodeJumps

  datatype BinOpr = OprAnd | OprOr | OprEq | OprNe | OprLt | OprLe | OprGt | OprGe

  datatype Expr =
    | ENil | ETrue | EFalse | ENum(n: int) | EStr(s: string) | ELocal(r: nat)
    | ENot(e: Expr) | EBin(op: BinOpr, a: Expr, b: Expr)

  datatype Evaluated = Is(v: Val) | Error

  /** The meaning of an expression, operands from left to right, the second one of
      `and` and `or` only if it is needed. */
  function Eval(E: Expr, m: Env, R: Regs): Evaluated {
    match E
    case ENil => Is(NilV)
    case ETrue => Is(BoolV(true))
    case EFalse => Is(BoolV(false))
    case ENum(n) => Is(NumV(n))
    case EStr(s) => Is(StrV(s))
    case ELocal(r) => Is(R(r))
    case ENot(e) =>
      var x := Eval(e, m, R);
      if x.Error? then Error else Is(BoolV(!Truthy(x.v)))
    case EBin(op, a, b) =>
      var x := Eval(a, m, R);
      if x.Error? then Error
      else if op.OprAnd? then if Truthy(x.v) then Eval(b, m, R) else x
      else if op.OprOr? then if Truthy(x.v) then x else Eval(b, m, R)
      else
        var y := Eval(b, m, R);
        if y.Error? then Error else FromTruth(Ordered(m, op, x.v, y.v))
  }

  function FromTruth(t: Truth): Evaluated { if t.Raises? then Error else Is(BoolV(t.b)) }

  function Opposite(t: Truth): Truth { if t.Raises? then t else Holds(!t.b) }

  /** Each comparison by `==`, `<` and `<=`. */
  function Ordered(m: Env, op: BinOpr, v: Val, w: Val): Truth
    requires !op.OprAnd? && !op.OprOr?
  {
    match op
    case OprEq => Compared(m, EQ, v, w)
    case OprNe => Opposite(Compared(m, EQ, v, w))
    case OprLt => Compared(m, LT, v, w)
    case OprLe => Compared(m, LE, v, w)
    case OprGt => Compared(m, LT, w, v)
    case OprGe => Compared(m, LE, w, v)
  }

  predicate LocalsBelow(E: Expr, n: nat) {
    match E
    case ELocal(r) => r < n
    case ENot(e) => LocalsBelow(e, n)
    case EBin(_, a, b) => LocalsBelow(a, n) && LocalsBelow(b, n)
    case _ => true
  }

  lemma {:induction false} EvalBelow(E: Expr, m: Env, Q: Regs, R: Regs, n: nat)
    requires LocalsBelow(E, n) && forall r: nat | r < n :: R(r) == Q(r)
    ensures Eval(E, m, R) == Eval(E, m, Q)
  {
    match E
    case ENot(e) => EvalBelow(e, m, Q, R, n);
    case EBin(_, a, b) =>
      EvalBelow(a, m, Q, R, n);
      EvalBelow(b, m, Q, R, n);
    case _ =>
  }

  // ---------------------------------------------------------------- what code must do

  /** Registers from `free` on may be used, those of the `n` locals may not. */
  predicate Fits(g: Intent, n: nat, free: nat) {
    g.Value? ==> n <= g.base <= free && g.hole == -1
  }

  /** Whatever one view delivers with registers below `free` kept, so does the other. */
  ghost predicate Keeps(V: View, W: View, w: Around, k: seq<Val>, free: nat) {
    && Shape(V, w) && Shape(W, w)
    && forall m: Env, R: Regs, g: Intent | k <= m.k && (g.Value? ==> g.base <= free) && Delivers(V, w, m, R, g) :: Delivers(W, w, m, R, g)
  }

  ghost predicate Denies(V: View, W: View, w: Around, k: seq<Val>, free: nat) {
    && Shape(V, w) && Shape(W, w)
    && forall m: Env, R: Regs, g: Intent | k <= m.k && (g.Value? ==> g.base <= free) && Delivers(V, w, m, R, g) :: Delivers(W, w, m, R, Negated(g))
  }

  lemma KeepsTwice(U: View, V: View, W: View, w: Around, k: seq<Val>, l: seq<Val>, free: nat, more: nat)
    requires Keeps(U, V, w, k, free) && Keeps(V, W, w, l, more) && k <= l && free <= more
    ensures Keeps(U, W, w, l, free)
  {
    forall m: Env, R: Regs, g: Intent | l <= m.k && (g.Value? ==> g.base <= free) && Delivers(U, w, m, R, g) ensures Delivers(W, w, m, R, g) {
      assert Delivers(V, w, m, R, g);
    }
  }

  /** The intent that evaluation turns arrival into. */
  ghost function Meaning(E: Expr, m: Env, g: Intent): Intent {
    if g.Leave? then g
    else
      var x := Eval(E, m, g.Q);
      if x.Error? then Leave(Raise) else g.(v := x.v)
  }

  /** Code for `E` was added: from arriving at `V`, it delivers the value in `W`. */
  ghost predicate Computes(V: View, W: View, w: Around, k: seq<Val>, n: nat, free: nat, E: Expr) {
    && Shape(V, w) && Shape(W, w)
    && forall m: Env, R: Regs, g: Intent | k <= m.k && Fits(g, n, free) && Delivers(V, w, m, R, g) :: Delivers(W, w, m, R, Meaning(E, m, g))
  }

  lemma ComputesThenKeeps(U: View, V: View, W: View, w: Around, k: seq<Val>, l: seq<Val>, n: nat, free: nat, more: nat, E: Expr)
    requires Computes(U, V, w, k, n, free, E) && Keeps(V, W, w, l, more) && k <= l && free <= more
    ensures Computes(U, W, w, l, n, free, E)
  {
    forall m: Env, R: Regs, g: Intent | l <= m.k && Fits(g, n, free) && Delivers(U, w, m, R, g)
      ensures Delivers(W, w, m, R, Meaning(E, m, g))
    {
      assert Delivers(V, w, m, R, Meaning(E, m, g));
    }
  }

  // ---------------------------------------------------------------- and, or

  /** For the second operand, the jumps that leave with the first one's value belong
      to the surroundings. */
  function Outside(V: View, w: Around): (o: Around)
  {
    w.(O := w.O + (set j | j in V.ts) + set j | j in V.fs)
  }

  function Arrived(V: View): View { View(V.C, V.ps, Void, [], []) }

  lemma ArrivedShape(V: View, w: Around)
    requires Shape(V, w) && EndOf(V) == |V.C|
    ensures Shape(Arrived(V), Outside(V, w)) && Open(Arrived(V), Outside(V, w)) == Open(V, w)
  {
    var W, u := Arrived(V), Outside(V, w);
    assert Elems([]) == {};
    assert u.O == w.O + Elems(V.ts) + Elems(V.fs);
    assert Open(V.(ps := []), w) == u.O && Open(W.(ps := []), u) == u.O;
  }

  /** What the second operand starts from. */
  ghost function Rest(V: View, w: Around, m: Env, R: Regs, g: Intent): Intent
    requires Shape(V, w)
  {
    if g.Leave? then g else if Flow(V, w, m, R).End? then g else Leave(Flow(V, w, m, R))
  }

  /** The operand has been tested: the jumps still open leave with its value. */
  ghost predicate Tested(V: View, b: bool) {
    V.k == Passed(b) && if b then V.ts == [] else V.fs == []
  }

  lemma RestDelivers(V: View, w: Around, b: bool, m: Env, R: Regs, g: Intent)
    requires Shape(V, w) && Tested(V, b) && Delivers(V, w, m, R, g)
    ensures Shape(Arrived(V), Outside(V, w)) && Delivers(Arrived(V), Outside(V, w), m, R, Rest(V, w, m, R, g))
    ensures g.Value? ==> (Truthy(g.v) == b <==> Rest(V, w, m, R, g).Value?)
    ensures Rest(V, w, m, R, g).Value? ==> Rest(V, w, m, R, g) == g
  {
    ArrivedShape(V, w);
    assert Flow(Arrived(V), Outside(V, w), m, R) == Flow(V, w, m, R);
    hide Shape, Below, Exec;
  }

  /** The lists of the second operand, followed by those that the first one left. */
  function Both(V: View, U: View): View {
    U.(ts := U.ts + V.ts, fs := U.fs + V.fs)
  }

  lemma BothShape(V: View, U: View, w: Around)
    requires Shape(V, w) && Shape(U, Outside(V, w))
    ensures Shape(Both(V, U), w) && Open(Both(V, U), w) == Open(U, Outside(V, w))
  {
    var W, u := Both(V, U), Outside(V, w);
    assert u.O == w.O + Elems(V.ts) + Elems(V.fs);
    ElemsJoin(U.ts, V.ts);
    ElemsJoin(U.fs, V.fs);
    assert Open(W.(ps := []), w) == Open(U.(ps := []), u);
    assert Elems(W.ts) + Elems(W.fs) + w.O == Elems(U.ts) + Elems(U.fs) + u.O;
  }

  /** The value of `and` and `or`. */
  ghost function JoinedIntent(E: Expr, b: bool, m: Env, g: Intent): Intent {
    if g.Value? && Truthy(g.v) == b then Meaning(E, m, g) else g
  }

  lemma BothDelivers(V: View, U: View, w: Around, b: bool, E: Expr, m: Env, R: Regs, g: Intent)
    requires Shape(V, w) && Tested(V, b) && Shape(U, Outside(V, w)) && Delivers(V, w, m, R, g)
    requires Delivers(U, Outside(V, w), m, R, Meaning(E, m, Rest(V, w, m, R, g)))
    requires Kept(V.C, U.C, Outside(V, w).O)
    ensures Shape(Both(V, U), w) && Delivers(Both(V, U), w, m, R, JoinedIntent(E, b, m, g))
  {
    hide Shape, Below, Exec, Flow, Eval, Stands, Carries, Kept, Outside;
    var W, u := Both(V, U), Outside(V, w);
    BothShape(V, U, w);
    BothFlow(V, U, w, m, R);
    RestDelivers(V, w, b, m, R, g);
    LeftCarries(V, U, w, m, R);
    var x := Flow(V, w, m, R);
    if g.Value? && x.Exit? {
      assert x.j in V.ts ==> x.j in W.ts;
      assert x.j in V.fs ==> x.j in W.fs;
    }
  }

  lemma BothFlow(V: View, U: View, w: Around, m: Env, R: Regs)
    requires Shape(V, w) && Shape(U, Outside(V, w)) && Shape(Both(V, U), w)
    ensures Flow(Both(V, U), w, m, R) == Flow(U, Outside(V, w), m, R)
    ensures forall v, R1 :: Stands(Both(V, U), m, R1, v) == Stands(U, m, R1, v)
    ensures forall j | j in w.O :: j in Outside(V, w).O
    ensures forall j | j in Outside(V, w).O :: j in w.O || j in V.ts || j in V.fs
  {
    BothShape(V, U, w);
  }

  lemma LeftCarries(V: View, U: View, w: Around, m: Env, R: Regs)
    requires Shape(V, w) && Kept(V.C, U.C, Outside(V, w).O)
    ensures forall j, c, R1, v, b | (j in V.ts || j in V.fs) && Carries(V.C, j, c, R1, v, b) :: Carries(U.C, j, c, R1, v, b)
  {
    forall j, c, R1, v, b | (j in V.ts || j in V.fs) && Carries(V.C, j, c, R1, v, b) ensures Carries(U.C, j, c, R1, v, b) {
      assert j in Elems(V.ts) + Elems(V.fs) + w.O;
      assert Conditional(V.C, j) && j in Outside(V, w).O;
    }
  }

  lemma MeaningJoined(b: bool, a: Expr, c: Expr, m: Env, g: Intent)
    ensures Meaning(EBin(if b then OprAnd else OprOr, a, c), m, g) == JoinedIntent(c, b, m, Meaning(a, m, g))
  {
  }

  /** `and` (where `b` holds) and `or`. */
  lemma ShortCircuit(S: View, V: View, U: View, w: Around, b: bool, a: Expr, c: Expr, k: seq<Val>, l: seq<Val>, n: nat, free: nat)
    requires Computes(S, V, w, k, n, free, a) && Tested(V, b) && k <= l
    requires Computes(Arrived(V), U, Outside(V, w), l, n, free, c) && Kept(V.C, U.C, Outside(V, w).O)
    ensures Computes(S, Both(V, U), w, l, n, free, EBin(if b then OprAnd else OprOr, a, c))
  {
    hide Shape, Delivers, Kept, Rest, Both, Outside, Arrived, Flow;
    var E := EBin(if b then OprAnd else OprOr, a, c);
    BothShape(V, U, w);
    forall m: Env, R: Regs, g: Intent | l <= m.k && Fits(g, n, free) && Delivers(S, w, m, R, g)
      ensures Delivers(Both(V, U), w, m, R, Meaning(E, m, g))
    {
      var h := Meaning(a, m, g);
      assert Delivers(V, w, m, R, h);
      RestDelivers(V, w, b, m, R, h);
      var r := Rest(V, w, m, R, h);
      assert Delivers(U, Outside(V, w), m, R, Meaning(c, m, r));
      BothDelivers(V, U, w, b, c, m, R, h);
      MeaningJoined(b, a, c, m, g);
    }
  }

  // ---------------------------------------------------------------- comparisons

  function RKOf(k: Kind): RK {
    if k.VK? then Const(k.i) else if k.VNonReloc? then Reg(k.r) else Const(0)
  }

  ghost predicate IsOperand(V: View) {
    (V.k.VK? || V.k.VNonReloc?) && V.ts == [] && V.fs == []
  }

  /** Registers as they are once the first operand is at hand. */
  ghost function Between(V: View, w: Around, m: Env, R: Regs, g: Intent, free: nat): Intent
    requires Shape(V, w)
  {
    if g.Value? && Flow(V, w, m, R).End? then Value(g.v, Flow(V, w, m, R).R, free, -1) else g
  }

  lemma FirstOperand(V: View, w: Around, m: Env, R: Regs, g: Intent, free: nat)
    requires Shape(V, w) && IsOperand(V) && Delivers(V, w, m, R, g)
    ensures Shape(Arrived(V), w) && Delivers(Arrived(V), w, m, R, Between(V, w, m, R, g, free))
    ensures g.Value? ==> Flow(V, w, m, R).End? && Below(g.Q, Flow(V, w, m, R).R, g.base, g.hole)
                         && Operand(m, Flow(V, w, m, R).R, RKOf(V.k)) == g.v
  {
    assert Open(Arrived(V), w) == Open(V, w);
    assert Flow(Arrived(V), w, m, R) == Flow(V, w, m, R);
    hide Shape, Exec;
  }

  /** The test that compares two operands, and the truth it stands for. */
  function CompareInstr(op: BinOpr, x: RK, y: RK): Instr
    requires !op.OprAnd? && !op.OprOr?
  {
    match op
    case OprEq => Compare(EQ, true, x, y)
    case OprNe => Compare(EQ, false, x, y)
    case OprLt => Compare(LT, true, x, y)
    case OprLe => Compare(LE, true, x, y)
    case OprGt => Compare(LT, true, y, x)
    case OprGe => Compare(LE, true, y, x)
  }

  lemma CompareTaken(op: BinOpr, x: RK, y: RK, m: Env, R: Regs)
    requires !op.OprAnd? && !op.OprOr?
    ensures Taken(CompareInstr(op, x, y), m, R) == Ordered(m, op, Operand(m, R, x), Operand(m, R, y))
  {
  }

  /** A register operand that later code keeps. */
  predicate Safe(k: Kind, free: nat) { k.VNonReloc? ==> k.r < free }

  lemma ComparisonDelivers(V: View, U: View, w: Around, op: BinOpr, b: Expr, n: nat, free: nat, more: nat, m: Env, R: Regs, g: Intent)
    requires !op.OprAnd? && !op.OprOr? && LocalsBelow(b, n) && free <= more && Safe(V.k, more)
    requires Shape(V, w) && IsOperand(V) && Delivers(V, w, m, R, g) && Fits(g, n, free)
    requires Shape(U, w) && IsOperand(U) && Delivers(U, w, m, R, Meaning(b, m, Between(V, w, m, R, g, more)))
    ensures var W := Comparing(U, CompareInstr(op, RKOf(V.k), RKOf(U.k)));
            Shape(W, w) && Delivers(W, w, m, R,
              if g.Leave? then g
              else
                var y := Eval(b, m, g.Q);
                if y.Error? then Leave(Raise)
                else
                  var t := Ordered(m, op, g.v, y.v);
                  if t.Raises? then Leave(Raise) else g.(v := BoolV(t.b)))
  {
    var T := CompareInstr(op, RKOf(V.k), RKOf(U.k));
    FirstOperand(V, w, m, R, g, more);
    var h := Meaning(b, m, Between(V, w, m, R, g, more));
    var y := if g.Value? then Eval(b, m, g.Q) else Error;
    if g.Value? {
      EvalBelow(b, m, g.Q, Flow(V, w, m, R).R, n);
    }
    var t := if h.Value? then Ordered(m, op, g.v, h.v) else Raises;
    if h.Value? {
      FirstOperand(U, w, m, R, h, more);
      var R2 := Flow(U, w, m, R).R;
      CompareTaken(op, RKOf(V.k), RKOf(U.k), m, R2);
      assert Operand(m, R2, RKOf(V.k)) == g.v;
    }
    ComparingDelivers(U, w, T, m, R, h, t);
    var W := Comparing(U, T);
    hide Shape, Flow, Exec, Eval, Stands, CompareInstr, Comparing;
    if h.Value? && t.Holds? {
      Widened(W, w, m, R, h.(v := BoolV(t.b)), g.(v := BoolV(t.b)));
    }
  }

  /** Less may be asked of the registers. */
  lemma Widened(W: View, w: Around, m: Env, R: Regs, h: Intent, g: Intent)
    requires Shape(W, w) && Delivers(W, w, m, R, h) && h.Value? && g.Value? && h.v == g.v
    requires g.base <= h.base && h.hole == -1 && forall r: nat | r < g.base && r != g.hole :: h.Q(r) == g.Q(r)
    ensures Delivers(W, w, m, R, g)
  {
    hide Shape, Flow, Stands;
  }

  lemma OperandEnds(U: View)
    requires IsOperand(U)
    ensures EndOf(U) == |U.C|
  {
  }

  lemma CompareIsCompare(op: BinOpr, x: RK, y: RK)
    requires !op.OprAnd? && !op.OprOr?
    ensures CompareInstr(op, x, y).Compare?
  {
  }

  lemma ComparisonComputes(S: View, V: View, U: View, w: Around, op: BinOpr, a: Expr, b: Expr, k: seq<Val>, l: seq<Val>, n: nat, free: nat, more: nat)
    requires !op.OprAnd? && !op.OprOr? && LocalsBelow(b, n) && n <= free <= more && Safe(V.k, more) && k <= l
    requires Computes(S, V, w, k, n, free, a) && IsOperand(V) && EndOf(V) == |V.C|
    requires Computes(Arrived(V), U, w, l, n, more, b) && IsOperand(U)
    ensures Computes(S, Comparing(U, CompareInstr(op, RKOf(V.k), RKOf(U.k))), w, l, n, free, EBin(op, a, b))
  {
    hide Shape, Delivers, Comparing, Flow, Arrived, CompareInstr, IsOperand, Safe;
    var E, W := EBin(op, a, b), Comparing(U, CompareInstr(op, RKOf(V.k), RKOf(U.k)));
    OperandEnds(U);
    CompareIsCompare(op, RKOf(V.k), RKOf(U.k));
    ComparingShape(U, w, CompareInstr(op, RKOf(V.k), RKOf(U.k)));
    forall m: Env, R: Regs, g: Intent | l <= m.k && Fits(g, n, free) && Delivers(S, w, m, R, g)
      ensures Delivers(W, w, m, R, Meaning(E, m, g))
    {
      var h := Meaning(a, m, g);
      assert Delivers(V, w, m, R, h);
      FirstOperand(V, w, m, R, h, more);
      var r := Between(V, w, m, R, h, more);
      assert Delivers(U, w, m, R, Meaning(b, m, r));
      ComparisonDelivers(V, U, w, op, b, n, free, more, m, R, h);
    }
  }
}
