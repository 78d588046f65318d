/**
 The slice of the virtual machine that expressions over locals and constants run on.
 Code may have open jumps, whose targets are not known yet: control that takes one
 leaves the code there.
 */
module Bytecode {
  datatype Val = NilV | BoolV(b: bool) | NumV(n: int) | StrV(s: string)

  predicate Truthy(v: Val) { v != NilV && v != BoolV(false) }

  type Regs = nat -> Val

  function Put(R: Regs, a: nat, v: Val): Regs {
    (r: nat) => if r == a then v else R(r)
  }

  /** A register or a constant. */
  datatype RK = Reg(r: nat) | Const(i: nat)

  datatype Comparison = EQ | LT | LE

  /** No register: the target of a test whose value has no place yet. */
  const NO_REG: int := -1
  const NO_JUMP: int := -1

  datatype Instr =
    | Move(a: nat, b: nat)
    | LoadK(a: nat, bx: nat)
    | LoadBool(a: nat, value: bool, skip: bool)
    | LoadNil(a: nat, last: nat)
    | Not(a: nat, b: nat)
    | Jmp(sbx: int)
    | Compare(op: Comparison, cond: bool, x: RK, y: RK)
    | Test(a: nat, c: bool)
    | TestSet(target: int, b: nat, c: bool)

  /** Instructions that the next one, a jump, completes. */
  predicate TMode(i: Instr) { i.Compare? || i.Test? || i.TestSet? }

  datatype Truth = Holds(b: bool) | Raises

  /** The constants of a function, and comparisons, which may be of any kind (a number
      that is no number is not equal to itself) and may raise an error. */
  datatype Env = Env(k: seq<Val>, eq: (Val, Val) -> Truth, lt: (Val, Val) -> Truth, le: (Val, Val) -> Truth)

  function Constant(m: Env, i: nat): Val { if i < |m.k| then m.k[i] else NilV }

  function Operand(m: Env, R: Regs, x: RK): Val {
    match x
    case Reg(r) => R(r)
    case Const(i) => Constant(m, i)
  }

  function Compared(m: Env, op: Comparison, v: Val, w: Val): Truth {
    match op
    case EQ => m.eq(v, w)
    case LT => m.lt(v, w)
    case LE => m.le(v, w)
  }

  // ---------------------------------------------------------------- execution

  /** Control arrives at the end; leaves through the open jump `j`, controlled by the
      instruction at `c`; raises an error; or goes astray. */
  datatype Outcome = End(R: Regs) | Exit(j: int, c: int, R: Regs) | Raise | Stuck

  datatype Next = Go(pc: int, R: Regs) | Out(o: Outcome)

  /** Whether a test takes its jump. */
  function Taken(i: Instr, m: Env, R: Regs): Truth
    requires TMode(i)
  {
    match i
    case Compare(op, cond, x, y) =>
      var r := Compared(m, op, Operand(m, R, x), Operand(m, R, y));
      if r.Raises? then Raises else Holds(r.b == cond)
    case Test(a, c) => Holds(Truthy(R(a)) == c)
    case TestSet(_, b, c) => Holds(Truthy(R(b)) == c)
  }

  /** The registers once a test took its jump. */
  function Assigned(i: Instr, R: Regs): Regs {
    if i.TestSet? && i.target >= 0 then Put(R, i.target, R(i.b)) else R
  }

  function Target(C: seq<Instr>, j: int): int
    requires 0 <= j < |C| && C[j].Jmp?
  {
    j + 1 + C[j].sbx
  }

  /** One instruction, or a test with its jump. */
  function Step(C: seq<Instr>, m: Env, O: set<int>, pc: int, R: Regs): Next
    requires 0 <= pc < |C|
  {
    match C[pc]
    case Move(a, b) => Go(pc + 1, Put(R, a, R(b)))
    case LoadK(a, bx) => Go(pc + 1, Put(R, a, Constant(m, bx)))
    case LoadBool(a, value, skip) => Go(if skip then pc + 2 else pc + 1, Put(R, a, BoolV(value)))
    case LoadNil(a, last) => Go(pc + 1, (r: nat) => if a <= r <= last then NilV else R(r))
    case Not(a, b) => Go(pc + 1, Put(R, a, BoolV(!Truthy(R(b)))))
    case Jmp(_) => if pc in O then Out(Exit(pc, pc, R)) else Go(Target(C, pc), R)
    case Compare(_, _, _, _) => StepTest(C, m, O, pc, R)
    case Test(_, _) => StepTest(C, m, O, pc, R)
    case TestSet(_, _, _) => StepTest(C, m, O, pc, R)
  }

  function StepTest(C: seq<Instr>, m: Env, O: set<int>, pc: int, R: Regs): Next
    requires 0 <= pc < |C| && TMode(C[pc])
  {
    var taken := Taken(C[pc], m, R);
    if taken.Raises? then Out(Raise)
    else if !taken.b then Go(pc + 2, R)
    else if pc + 1 in O then Out(Exit(pc + 1, pc, R))
    else if pc + 1 < |C| && C[pc + 1].Jmp? then Go(Target(C, pc + 1), Assigned(C[pc], R))
    else Out(Stuck)
  }

  /** Runs from `pc` to `end`. Jumps go forward, as in the code of any expression. */
  function Exec(C: seq<Instr>, m: Env, O: set<int>, pc: int, end: int, R: Regs): Outcome
    decreases end - pc
  {
    if pc == end then End(R)
    else if !(0 <= pc < end <= |C|) || (TMode(C[pc]) && pc + 1 == end) then Stuck
    else
      match Step(C, m, O, pc, R)
      case Out(o) => o
      case Go(next, R') => if pc < next <= end then Exec(C, m, O, next, end, R') else Stuck
  }

  // ---------------------------------------------------------------- patching

  /** The same test, with its value sent elsewhere or dropped. */
  predicate Alike(i: Instr, i': Instr) {
    i == i' || (i.TestSet? && ((i'.TestSet? && i'.b == i.b && i'.c == i.c) || (i'.Test? && i'.a == i.b && i'.c == i.c)))
  }

  /** From `start` to `mid`, `C'` differs from `C` in its open jumps and their tests only. */
  ghost predicate Patches(C: seq<Instr>, C': seq<Instr>, O: set<int>, start: int, mid: int) {
    && 0 <= start <= mid <= |C| && mid <= |C'|
    && forall i | start <= i < mid :: PatchAt(C, C', O, mid, i)
  }

  ghost predicate PatchAt(C: seq<Instr>, C': seq<Instr>, O: set<int>, mid: int, i: int)
    requires 0 <= i < mid <= |C| && mid <= |C'|
  {
    if i in O then C[i].Jmp? && C'[i].Jmp?
    else if i + 1 in O && i + 1 < mid then Alike(C[i], C'[i])
    else C'[i] == C[i]
  }

  /** What follows once control has come to `mid`, or left through a jump that is open
      in the shorter code. */
  function Resume(C: seq<Instr>, m: Env, O: set<int>, mid: int, end: int, o: Outcome): Outcome {
    match o
    case End(R) => Exec(C, m, O, mid, end, R)
    case Exit(j, c, R) =>
      if j in O then o
      else if 0 <= j < |C| && 0 <= c < |C| && C[j].Jmp? && c < Target(C, j) <= end
        then Exec(C, m, O, Target(C, j), end, Assigned(C[c], R))
      else Stuck
    case _ => o
  }

  /** A run of patched and longer code goes as in the shorter code up to where that
      ended or was left, and goes on from there. */
  lemma {:induction false} Compose(C: seq<Instr>, C': seq<Instr>, m: Env, O: set<int>, O': set<int>,
                                   start: int, pc: int, mid: int, end: int, R: Regs)
    requires Patches(C, C', O, start, mid) && start <= pc <= mid <= end <= |C'|
    requires forall i | start <= i < mid :: i in O' ==> i in O
    requires !Exec(C, m, O, pc, mid, R).Stuck?
    ensures Exec(C', m, O', pc, end, R) == Resume(C', m, O', mid, end, Exec(C, m, O, pc, mid, R))
    decreases mid - pc
  {
    if pc < mid {
      var x := Step(C, m, O, pc, R);
      StepAlike(C, C', m, O, O', start, pc, mid, R);
      if x.Go? {
        Compose(C, C', m, O, O', start, x.pc, mid, end, x.R);
      }
    }
  }

  lemma StepAlike(C: seq<Instr>, C': seq<Instr>, m: Env, O: set<int>, O': set<int>, start: int, pc: int, mid: int, R: Regs)
    requires Patches(C, C', O, start, mid) && start <= pc < mid
    requires forall i | start <= i < mid :: i in O' ==> i in O
    requires TMode(C[pc]) ==> pc + 1 < mid
    requires !Step(C, m, O, pc, R).Go? ==> !Step(C, m, O, pc, R).o.Stuck?
    ensures var x, x' := Step(C, m, O, pc, R), Step(C', m, O', pc, R);
            if x.Out? && x.o.Exit? && !(x.o.j in O') then
              0 <= x.o.j < |C'| && C'[x.o.j].Jmp? && 0 <= x.o.c < |C'|
              && x.o.c == pc && x' == Go(Target(C', x.o.j), Assigned(C'[x.o.c], x.o.R))
            else x' == x
    ensures TMode(C'[pc]) == TMode(C[pc])
  {
    assert PatchAt(C, C', O, mid, pc);
    if TMode(C[pc]) {
      assert PatchAt(C, C', O, mid, pc + 1);
      assert pc !in O;
      assert Alike(C[pc], C'[pc]) && TMode(C'[pc]);
      assert Taken(C'[pc], m, R) == Taken(C[pc], m, R);
      assert Step(C, m, O, pc, R) == StepTest(C, m, O, pc, R);
      assert Step(C', m, O', pc, R) == StepTest(C', m, O', pc, R);
    } else if C[pc].Jmp? {
      assert C'[pc].Jmp?;
    } else {
      assert C'[pc] == C[pc];
    }
  }
}
