/**
 What the code of a part of an expression does, while some of its jumps are still
 open: the meaning of an expression descriptor.
 */
module CodeFlow {
  import opened Bytecode
  import opened JumpLists

  /** Where the value of an expression is. `Void` is none yet; `Passed(b)` is an
      operand whose jumps have left if it is not true (or false) as `b` says;
      `Fell` is a comparison whose jump was not taken. */
  datatype Kind =
    | Void | Passed(b: bool) | Fell
    | VNil | VTrue | VFalse | VK(i: nat) | VKNum(n: int)
    | VLocal(r: nat) | VJmp(pc: int) | VRelocable(pc: int) | VNonReloc(r: nat)

  /** Code with pending jumps to its end `ps`, and an expression with its lists of
      jumps for true and for false. */
  datatype View = View(C: seq<Instr>, ps: seq<int>, k: Kind, ts: seq<int>, fs: seq<int>)

  /** Where the code under consideration starts, open jumps of the surroundings, and
      the code before the start with the jumps that waited there. */
  datatype Around = Around(start: int, O: set<int>, code: seq<Instr>, waiting: seq<int>)

  /** What has become of the code before the start: nothing yet, up to the links of
      the jumps that wait; or these jumps lead to the start, and nothing else changed. */
  ghost predicate Prior(C: seq<Instr>, s: seq<int>, w: Around) {
    && |w.code| == w.start <= |C|
    && ((|C| == w.start && s == w.waiting && forall i | 0 <= i < w.start :: Unpatched(C, s, w.code, i))
        || ((forall i | 0 <= i < w.start :: C[i] == PatchedAt(w.code, w.waiting, w.start, NO_REG, w.start, i))
            && forall j | j in s :: j > w.start))
  }

  predicate Unpatched(C: seq<Instr>, s: seq<int>, code: seq<Instr>, i: int)
    requires 0 <= i < |C| && i < |code|
  {
    if i in s then C[i].Jmp? && code[i].Jmp? else C[i] == code[i]
  }

  /** Pending jumps are sent to the next instruction. */
  lemma PriorEmitted(C: seq<Instr>, s: seq<int>, B: seq<Instr>, w: Around)
    requires Prior(C, s, w)
    ensures Prior(Patched(C, s, |C|, NO_REG, |C|) + B, [], w)
  {
    var D := Patched(C, s, |C|, NO_REG, |C|);
    if |C| > w.start {
      assert forall i | 0 <= i < w.start :: D[i] == C[i];
    } else if s == w.waiting && (forall i | 0 <= i < w.start :: Unpatched(C, s, w.code, i)) {
      forall i | 0 <= i < w.start ensures D[i] == PatchedAt(w.code, w.waiting, w.start, NO_REG, w.start, i) {
        assert Unpatched(C, s, w.code, i);
        assert i + 1 < w.start ==> Unpatched(C, s, w.code, i + 1);
      }
    }
  }

  /** The last instructions of these two kinds are not final yet. */
  function EndOf(V: View): int {
    match V.k
    case VJmp(_) => |V.C| - 2
    case VRelocable(_) => |V.C| - 1
    case _ => |V.C|
  }

  ghost function Open(V: View, w: Around): set<int> {
    Elems(V.ps) + Elems(V.ts) + Elems(V.fs) + w.O
  }

  /** A jump that a test controls. */
  ghost predicate Conditional(C: seq<Instr>, j: int) {
    0 < j < |C| && C[j].Jmp? && TMode(C[j - 1])
  }

  ghost predicate Shape(V: View, w: Around) {
    && 0 <= w.start <= EndOf(V) && Prior(V.C, V.ps, w)
    && Distinct(V.ps) && Distinct(V.ts) && Distinct(V.fs)
    && Elems(V.ps) !! Elems(V.ts) && Elems(V.ps) !! Elems(V.fs) && Elems(V.ts) !! Elems(V.fs)
    && Open(V.(ps := []), w) !! Elems(V.ps) && Elems(V.ts) !! w.O && Elems(V.fs) !! w.O
    && (forall j | j in V.ps :: 0 <= j < EndOf(V) && V.C[j].Jmp?)
    && (forall j | j in Elems(V.ts) + Elems(V.fs) + w.O :: j < EndOf(V) && Conditional(V.C, j))
    && (forall j | j in Elems(V.ts) + Elems(V.fs) :: w.start < j)
    && (V.k.VRelocable? ==> V.ps == [] && V.k.pc == |V.C| - 1 && V.C[V.k.pc].Not?)
    && (V.k.VJmp? ==> V.ps == [] && V.k.pc == |V.C| - 1 && V.C[V.k.pc] == Jmp(NO_JUMP) && V.C[V.k.pc - 1].Compare?)
  }

  /** Pending jumps lead to the end. */
  ghost function Arrive(V: View, o: Outcome): Outcome {
    if o.Exit? && o.j in V.ps then End(o.R) else o
  }

  /** Where control gets from the start; a comparison at the end may still raise. */
  ghost function Flow(V: View, w: Around, m: Env, R: Regs): Outcome
    requires Shape(V, w)
  {
    var o := Arrive(V, Exec(V.C, m, Open(V, w), w.start, EndOf(V), R));
    if o.End? && V.k.VJmp? && Taken(V.C[V.k.pc - 1], m, o.R).Raises? then Raise else o
  }

  // ---------------------------------------------------------------- meaning

  /** Registers below `base` are as in `Q`, except for `hole`. */
  ghost predicate Below(Q: Regs, R: Regs, base: nat, hole: int) {
    forall r: nat | r < base && r != hole :: R(r) == Q(r)
  }

  /** What is expected: a value, with the registers below `base` kept from `Q`; or
      that control leaves, by an outer jump or an error. */
  datatype Intent = Value(v: Val, Q: Regs, base: nat, hole: int) | Leave(o: Outcome)

  /** A jump through which control leaves with the value: a test that yields values
      has it in its register; any other means plain true or false. */
  ghost predicate Carries(C: seq<Instr>, j: int, c: int, R: Regs, v: Val, b: bool) {
    && c == j - 1 && 0 <= c < |C|
    && Truthy(v) == b && (if C[c].TestSet? then R(C[c].b) == v else v == BoolV(b))
  }

  /** The value is where the kind says. */
  ghost predicate Stands(V: View, m: Env, R: Regs, v: Val) {
    match V.k
    case Void => true
    case Passed(b) => Truthy(v) == b
    case Fell => v == BoolV(false)
    case VNil => v == NilV
    case VTrue => v == BoolV(true)
    case VFalse => v == BoolV(false)
    case VK(i) => v == Constant(m, i)
    case VKNum(n) => v == NumV(n)
    case VLocal(r) => v == R(r)
    case VNonReloc(r) => v == R(r)
    case VRelocable(pc) => 0 <= pc < |V.C| && V.C[pc].Not? && v == BoolV(!Truthy(R(V.C[pc].b)))
    case VJmp(pc) =>
      0 < pc <= |V.C| && TMode(V.C[pc - 1])
      && Taken(V.C[pc - 1], m, R).Holds? && v == BoolV(Taken(V.C[pc - 1], m, R).b)
  }

  ghost predicate Delivers(V: View, w: Around, m: Env, R: Regs, g: Intent)
    requires Shape(V, w)
  {
    match g
    case Leave(o) => Flow(V, w, m, R) == o && (o.Raise? || (o.Exit? && o.j in w.O))
    case Value(v, Q, base, hole) =>
      match Flow(V, w, m, R)
      case End(R1) => Below(Q, R1, base, hole) && Stands(V, m, R1, v)
      case Exit(j, c, R1) =>
        Below(Q, R1, base, hole)
        && ((j in V.ts && Carries(V.C, j, c, R1, v, true)) || (j in V.fs && Carries(V.C, j, c, R1, v, false)))
      case _ => false
  }

  // ---------------------------------------------------------------- exits

  lemma {:induction false} ExitForm(C: seq<Instr>, m: Env, O: set<int>, pc: int, end: int, R: Regs)
    ensures var o := Exec(C, m, O, pc, end, R);
            o.Exit? ==> o.j in O && pc <= o.c && o.j < end && 0 <= o.c < |C|
                        && ((o.c == o.j && C[o.c].Jmp?) || (o.c == o.j - 1 && TMode(C[o.c])))
    decreases end - pc
  {
    if 0 <= pc < end <= |C| && !(TMode(C[pc]) && pc + 1 == end) {
      var x := Step(C, m, O, pc, R);
      if x.Go? && pc < x.pc <= end {
        ExitForm(C, m, O, x.pc, end, x.R);
      }
    }
  }

  /** Code that differs in open jumps only flows the same. */
  lemma SameExec(C: seq<Instr>, C': seq<Instr>, m: Env, O: set<int>, start: int, mid: int, R: Regs)
    requires Patches(C, C', O, start, mid) && !Exec(C, m, O, start, mid, R).Stuck?
    ensures Exec(C', m, O, start, mid, R) == Exec(C, m, O, start, mid, R)
  {
    ExitForm(C, m, O, start, mid, R);
    Compose(C, C', m, O, O, start, start, mid, mid, R);
  }

  /** So do views that differ in open jumps, and in which list these are. */
  lemma SameFlow(V: View, W: View, w: Around, m: Env, R: Regs)
    requires Shape(V, w) && Shape(W, w) && W.ps == V.ps && W.k == V.k && EndOf(W) == EndOf(V)
    requires Open(W, w) == Open(V, w) && Patches(V.C, W.C, Open(V, w), w.start, EndOf(V))
    requires V.k.VJmp? ==> W.C[V.k.pc - 1] == V.C[V.k.pc - 1]
    requires !Flow(V, w, m, R).Stuck?
    ensures Flow(W, w, m, R) == Flow(V, w, m, R)
  {
    hide Open, Patches;
    SameExec(V.C, W.C, m, Open(V, w), w.start, EndOf(V), R);
  }

  // ---------------------------------------------------------------- emission

  /** Pending jumps are sent to the next instruction as it is emitted. */
  function Discharged(V: View): (D: seq<Instr>)
    ensures |D| == |V.C|
  {
    Patched(V.C, V.ps, |V.C|, NO_REG, |V.C|)
  }

  /** Nothing at the jumps `s`, or at the tests before them, has changed. */
  ghost predicate Kept(C: seq<Instr>, C': seq<Instr>, s: set<int>) {
    forall j | j in s && 0 < j < |C| :: j < |C'| && C'[j] == C[j] && C'[j - 1] == C[j - 1]
  }

  lemma DischargedKeeps(V: View, w: Around)
    requires Shape(V, w)
    ensures Kept(V.C, Discharged(V), Elems(V.ts) + Elems(V.fs) + w.O)
    ensures Patches(V.C, Discharged(V), Open(V, w), w.start, EndOf(V))
  {
    var D := Discharged(V);
    forall j | j in Elems(V.ts) + Elems(V.fs) + w.O ensures D[j] == V.C[j] && D[j - 1] == V.C[j - 1] {
      assert j in Open(V.(ps := []), w);
      assert j !in Elems(V.ps);
      assert Conditional(V.C, j);
      assert j - 1 !in V.ps;
    }
    forall i | w.start <= i < EndOf(V) ensures PatchAt(V.C, D, Open(V, w), EndOf(V), i) {
      if i in V.ps {
      } else if i + 1 in V.ps {
        assert i + 1 in Open(V, w);
      } else if i in Open(V, w) {
        assert i in Elems(V.ts) + Elems(V.fs) + w.O;
      }
    }
  }

  /** The flow through newly emitted instructions `B` goes on where the flow had
      ended, be it by falling through or by a pending jump. */
  lemma Emitted(V: View, w: Around, B: seq<Instr>, O: set<int>, end: int, m: Env, R: Regs)
    requires Shape(V, w) && EndOf(V) == |V.C| && !V.k.VJmp? && |V.C| <= end <= |V.C| + |B|
    requires forall j | 0 <= j < |V.C| :: j in O <==> j in Elems(V.ts) + Elems(V.fs) + w.O
    requires !Flow(V, w, m, R).Stuck?
    ensures var C' := Discharged(V) + B;
            var o := Flow(V, w, m, R);
            Exec(C', m, O, w.start, end, R) == if o.End? then Exec(C', m, O, |V.C|, end, o.R) else o
  {
    var C', N := Discharged(V) + B, |V.C|;
    DischargedKeeps(V, w);
    forall i | w.start <= i < N ensures PatchAt(V.C, C', Open(V, w), N, i) {
      assert PatchAt(V.C, Discharged(V), Open(V, w), N, i);
    }
    forall i | w.start <= i < N && i in O ensures i in Open(V, w) {
    }
    Compose(V.C, C', m, Open(V, w), O, w.start, w.start, N, end, R);
    ExitForm(V.C, m, Open(V, w), w.start, N, R);
    var o := Exec(V.C, m, Open(V, w), w.start, N, R);
    if o.Exit? {
      if o.j in V.ps {
        PendingArrives(V, w, B, O, o, end, m);
      } else {
        assert o.j in Elems(V.ts) + Elems(V.fs) + w.O;
      }
    }
  }

  lemma PendingArrives(V: View, w: Around, B: seq<Instr>, O: set<int>, o: Outcome, end: int, m: Env)
    requires Shape(V, w) && EndOf(V) == |V.C| && |V.C| <= end <= |V.C| + |B|
    requires forall j | 0 <= j < |V.C| :: j in O <==> j in Elems(V.ts) + Elems(V.fs) + w.O
    requires o.Exit? && o.j in V.ps && 0 <= o.c < |V.C|
    requires (o.c == o.j && V.C[o.c].Jmp?) || (o.c == o.j - 1 && TMode(V.C[o.c]))
    ensures var C' := Discharged(V) + B;
            Resume(C', m, O, |V.C|, end, o) == Exec(C', m, O, |V.C|, end, o.R)
  {
    var C', N := Discharged(V) + B, |V.C|;
    assert o.j !in O by {
      assert o.j in Elems(V.ps);
      assert o.j !in Open(V.(ps := []), w);
    }
    assert C'[o.j] == PatchedAt(V.C, V.ps, N, NO_REG, N, o.j) == Jmp(N - (o.j + 1));
    assert Target(C', o.j) == N;
    assert C'[o.c] == PatchedAt(V.C, V.ps, N, NO_REG, N, o.c);
    assert !C'[o.c].TestSet?;
  }
}
