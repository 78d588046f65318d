/**
 What expressions and instructions mean, said without their definitions: laws of the
 operators, and short listings with the values that they leave.
 */
module CodeLaws {
  import opened Bytecode
  import opened CodeExpr

  // ---------------------------------------------------------------- comparisons

  /** `>` and `>=` are `<` and `<=` with the operands exchanged. */
  lemma Exchanged(m: Env, a: Expr, b: Expr, R: Regs)
    ensures Eval(EBin(OprGt, a, b), m, R) == Eval(EBin(OprLt, b, a), m, R)
    ensures Eval(EBin(OprGe, a, b), m, R) == Eval(EBin(OprLe, b, a), m, R)
  {
  }

  /** `~=` is `not ==`, also when the comparison raises an error. */
  lemma Unequal(m: Env, a: Expr, b: Expr, R: Regs)
    ensures Eval(EBin(OprNe, a, b), m, R) == Eval(ENot(EBin(OprEq, a, b)), m, R)
  {
    hide Eval, Compared;
    var x, y := Eval(a, m, R), Eval(b, m, R);
    NotIs(EBin(OprEq, a, b), m, R);
    BinIs(OprEq, a, b, m, R);
    BinIs(OprNe, a, b, m, R);
    if x.Is? && y.Is? {
      assert Ordered(m, OprNe, x.v, y.v) == Opposite(Ordered(m, OprEq, x.v, y.v));
    }
  }

  lemma BinIs(op: BinOpr, a: Expr, b: Expr, m: Env, R: Regs)
    requires !op.OprAnd? && !op.OprOr?
    ensures Eval(EBin(op, a, b), m, R) ==
            if Eval(a, m, R).Error? || Eval(b, m, R).Error? then Error
            else FromTruth(Ordered(m, op, Eval(a, m, R).v, Eval(b, m, R).v))
  {
  }

  lemma NotIs(e: Expr, m: Env, R: Regs)
    ensures Eval(ENot(e), m, R) == if Eval(e, m, R).Error? then Error else Is(BoolV(!Truthy(Eval(e, m, R).v)))
  {
  }

  /** The three comparisons of the machine are those of numbers, on numbers. */
  ghost predicate OrdersNumbers(m: Env) {
    forall i: int, j: int ::
      m.eq(NumV(i), NumV(j)) == Holds(i == j) && m.lt(NumV(i), NumV(j)) == Holds(i < j) && m.le(NumV(i), NumV(j)) == Holds(i <= j)
  }

  predicate Relation(op: BinOpr, i: int, j: int) {
    match op
    case OprEq => i == j
    case OprNe => i != j
    case OprLt => i < j
    case OprLe => i <= j
    case OprGt => i > j
    case OprGe => i >= j
    case _ => false
  }

  /** Then all six operators are those of numbers. */
  lemma NumbersCompare(m: Env, op: BinOpr, i: int, j: int, R: Regs)
    requires OrdersNumbers(m) && !op.OprAnd? && !op.OprOr?
    ensures Eval(EBin(op, ENum(i), ENum(j)), m, R) == Is(BoolV(Relation(op, i, j)))
  {
    hide OrdersNumbers, Eval;
    BinIs(op, ENum(i), ENum(j), m, R);
    NumberIs(i, m, R);
    NumberIs(j, m, R);
    OrderOf(m, i, j);
    OrderOf(m, j, i);
  }

  lemma OrderOf(m: Env, i: int, j: int)
    requires OrdersNumbers(m)
    ensures m.eq(NumV(i), NumV(j)) == Holds(i == j) && m.lt(NumV(i), NumV(j)) == Holds(i < j) && m.le(NumV(i), NumV(j)) == Holds(i <= j)
  {
  }

  lemma NumberIs(i: int, m: Env, R: Regs)
    ensures Eval(ENum(i), m, R) == Is(NumV(i))
  {
  }

  // ---------------------------------------------------------------- and, or, not

  function And(a: Expr, b: Expr): Expr { EBin(OprAnd, a, b) }
  function Or(a: Expr, b: Expr): Expr { EBin(OprOr, a, b) }

  /** Only nil and false are false: zero and the empty string are true. */
  lemma NotValue(v: Val, r: nat, m: Env, R: Regs)
    requires R(r) == v
    ensures Eval(ENot(ELocal(r)), m, R) == Is(BoolV(v == NilV || v == BoolV(false)))
    ensures Eval(ENot(ENum(0)), m, R) == Eval(ENot(EStr("")), m, R) == Eval(ENot(ETrue), m, R) == Eval(EFalse, m, R)
    ensures Eval(ENot(ENil), m, R) == Eval(ENot(EFalse), m, R) == Eval(ETrue, m, R) == Is(BoolV(true))
  {
  }

  lemma DeMorgan(a: Expr, b: Expr, m: Env, R: Regs)
    ensures Eval(ENot(And(a, b)), m, R) == Eval(Or(ENot(a), ENot(b)), m, R)
    ensures Eval(ENot(Or(a, b)), m, R) == Eval(And(ENot(a), ENot(b)), m, R)
  {
  }

  /** `not not` leaves the truth of a value, and nothing else. */
  lemma NotNot(a: Expr, m: Env, R: Regs)
    ensures Eval(ENot(ENot(ENot(a))), m, R) == Eval(ENot(a), m, R)
    ensures Eval(a, m, R).Is? ==> Eval(ENot(ENot(a)), m, R) == Is(BoolV(Truthy(Eval(a, m, R).v)))
  {
  }

  lemma Associative(a: Expr, b: Expr, c: Expr, m: Env, R: Regs)
    ensures Eval(And(And(a, b), c), m, R) == Eval(And(a, And(b, c)), m, R)
    ensures Eval(Or(Or(a, b), c), m, R) == Eval(Or(a, Or(b, c)), m, R)
  {
  }

  lemma Idempotent(a: Expr, m: Env, R: Regs)
    ensures Eval(And(a, a), m, R) == Eval(Or(a, a), m, R) == Eval(a, m, R)
  {
  }

  /** A second operand that is not needed is not evaluated: its error does not matter. */
  lemma Unneeded(a: Expr, b: Expr, m: Env, R: Regs)
    requires Eval(a, m, R).Is?
    ensures Eval(ENot(a), m, R) == Is(BoolV(true)) ==> Eval(And(a, b), m, R) == Eval(a, m, R) && Eval(Or(a, b), m, R) == Eval(b, m, R)
    ensures Eval(ENot(a), m, R) == Is(BoolV(false)) ==> Eval(Or(a, b), m, R) == Eval(a, m, R) && Eval(And(a, b), m, R) == Eval(b, m, R)
  {
  }

  /** `a and b or c` chooses between `b` and `c`, as long as `b` is not false. */
  lemma Choice(a: Expr, b: Expr, c: Expr, m: Env, R: Regs)
    requires Eval(a, m, R).Is? && Eval(ENot(b), m, R) == Is(BoolV(false))
    ensures Eval(Or(And(a, b), c), m, R) == if Eval(ENot(a), m, R) == Is(BoolV(true)) then Eval(c, m, R) else Eval(b, m, R)
  {
  }

  // ---------------------------------------------------------------- listings

  /** `C`, run from its start with no open jumps. */
  function Result(C: seq<Instr>, m: Env, R: Regs): Outcome { Exec(C, m, {}, 0, |C|, R) }

  /** One register has changed, to `v`. */
  ghost predicate Only(R: Regs, o: Outcome, r: nat, v: Val) {
    o.End? && o.R(r) == v && forall i: nat | i != r :: o.R(i) == R(i)
  }

  /** `LT 1 x y; JMP 1; LOADBOOL r 0 1; LOADBOOL r 1 0`, and the other comparisons. */
  lemma ComparisonListing(m: Env, op: Comparison, cond: bool, x: nat, y: nat, r: nat, R: Regs)
    ensures var o := Result([Compare(op, cond, Reg(x), Reg(y)), Jmp(1), LoadBool(r, false, true), LoadBool(r, true, false)], m, R);
            var t := (match op case EQ => m.eq(R(x), R(y)) case LT => m.lt(R(x), R(y)) case LE => m.le(R(x), R(y)));
            if t.Raises? then o == Raise else Only(R, o, r, BoolV(t.b == cond))
  {
    var C := [Compare(op, cond, Reg(x), Reg(y)), Jmp(1), LoadBool(r, false, true), LoadBool(r, true, false)];
    var t := Taken(C[0], m, R);
    if t.Holds? {
      if t.b {
        Last(C, m, 3, R);
      } else {
        Last(C, m, 2, R);
      }
    }
  }

  /** Where one more instruction leads to the end. */
  lemma Last(C: seq<Instr>, m: Env, pc: nat, R: Regs)
    requires pc < |C| && !TMode(C[pc])
    ensures Step(C, m, {}, pc, R).Go? && Step(C, m, {}, pc, R).pc == |C| ==>
              Exec(C, m, {}, pc, |C|, R) == End(Step(C, m, {}, pc, R).R)
  {
    var x := Step(C, m, {}, pc, R);
    if x.Go? && x.pc == |C| {
      assert Exec(C, m, {}, |C|, |C|, x.R) == End(x.R);
    }
  }

  /** `TESTSET r x c; JMP 1; MOVE r y`: `or` with 1, `and` with 0. */
  lemma ChoiceListing(m: Env, c: bool, x: nat, y: nat, r: nat, R: Regs)
    ensures var o := Result([TestSet(r, x, c), Jmp(1), Move(r, y)], m, R);
            Only(R, o, r, if (R(x) == NilV || R(x) == BoolV(false)) == c then R(y) else R(x))
  {
    var C := [TestSet(r, x, c), Jmp(1), Move(r, y)];
    Last(C, m, 2, R);
    assert Exec(C, m, {}, 3, 3, Put(R, r, R(x))) == End(Put(R, r, R(x)));
  }

  /** `TEST x c; JMP 1; LOADK r k` keeps `r` if the truth of `x` is `c`. */
  lemma TestListing(m: Env, c: bool, x: nat, k: nat, r: nat, R: Regs)
    requires k < |m.k|
    ensures var o := Result([Test(x, c), Jmp(1), LoadK(r, k)], m, R);
            Only(R, o, r, if (R(x) == NilV || R(x) == BoolV(false)) == c then m.k[k] else R(r))
  {
    var C := [Test(x, c), Jmp(1), LoadK(r, k)];
    Last(C, m, 2, R);
    assert Exec(C, m, {}, 3, 3, R) == End(R);
  }

  lemma NotListing(m: Env, r: nat, x: nat, R: Regs)
    ensures Only(R, Result([Not(r, x)], m, R), r, BoolV(R(x) == NilV || R(x) == BoolV(false)))
  {
    Last([Not(r, x)], m, 0, R);
  }

  lemma NilListing(m: Env, first: nat, last: nat, R: Regs)
    ensures var o := Result([LoadNil(first, last)], m, R);
            o.End? && forall i: nat :: o.R(i) == if first <= i <= last then NilV else R(i)
  {
    Last([LoadNil(first, last)], m, 0, R);
  }
}
