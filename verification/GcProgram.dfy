/**
 The program whose steps interleave with the collector's, and what each of its
 operations does to the heap.
 */
module GcProgram {
  import opened GcHeap
  import opened GcColours
  import opened GcEdits
  import opened GcState
  import opened GcCycle

  /** What a run is made of: collector steps, and operations whose operands are
      slots of the running thread's stack. */
  datatype Op =
    | Step
    | Full
    | Get(slot: nat, field: nat)
    | Set(slot: nat, field: nat, from: nat)
    | Pop
    | PushRegistry
    | NewBlock(x: Id, kind: Kind, slots: seq<nat>)
    | NewThread(x: Id)
    | Intern(x: Id, hash: nat)
    | ResizeStrings(newsize: nat)
    | Capture(slot: nat, x: Id)
    | Close(level: nat)
    | Resume(slot: nat)
    | SetTypeMetatable(tag: nat, slot: nat)

  /** A table entry is overwritten, or a table grows by one. */
  function PutField(fields: seq<Value>, i: nat, v: Value): seq<Value>
    requires i <= |fields|
  {
    if i < |fields| then fields[i := v] else fields + [v]
  }

  function StackOf(h: Heap, t: Id): seq<Value> {
    if t in h && h[t].Thread? then h[t].stack else []
  }

  function OnStack(h: Heap, t: Id, stack: seq<Value>): Heap {
    if t in h && h[t].Thread? then h[t := h[t].(stack := stack)] else h
  }

  function Pushed(h: Heap, t: Id, v: Value): Heap { OnStack(h, t, StackOf(h, t) + [v]) }

  /** The object that a slot refers to; none for a slot that is no reference. */
  function At(stack: seq<Value>, slot: nat): set<Id> {
    if slot < |stack| && stack[slot].Ref? then {stack[slot].id} else {}
  }

  function AfterGet(h: Heap, t: Id, slot: nat, field: nat): Heap {
    var stack := StackOf(h, t);
    if slot < |stack| && stack[slot].Ref? && field < |Fields(h, stack[slot].id)|
      then Pushed(h, t, Fields(h, stack[slot].id)[field])
    else h
  }

  /** A store into an object, or through an open upvalue into the stack it reads. */
  function AfterSet(h: Heap, t: Id, slot: nat, field: nat, from: nat): Heap {
    var stack := StackOf(h, t);
    if slot < |stack| && from < |stack| && stack[slot].Ref? && stack[slot].id in h then
      var o := stack[slot].id;
      match h[o]
      case Block(kind, fields) =>
        if field < |fields| || (kind.Table? && field == |fields|)
          then h[o := Block(kind, PutField(fields, field, stack[from]))]
        else h
      case OpenUpval(home, level) =>
        if level < |StackOf(h, home)| then OnStack(h, home, StackOf(h, home)[level := stack[from]]) else h
      case _ => h
    else h
  }

  function AfterPop(h: Heap, t: Id): Heap {
    var n := |StackOf(h, t)|;
    if n > 0 && (h[t].openupval == [] || (h[t].openupval[0] in h && h[h[t].openupval[0]].OpenUpval?
                                          && h[h[t].openupval[0]].slot + 1 < n))
      then OnStack(h, t, StackOf(h, t)[..n - 1])
    else h
  }

  function AfterNewBlock(h: Heap, t: Id, x: Id, kind: Kind, slots: seq<nat>): Heap {
    var stack := StackOf(h, t);
    if x !in h && forall i | 0 <= i < |slots| :: slots[i] < |stack|
      then Pushed(h[x := Block(kind, seq(|slots|, i requires 0 <= i < |slots| => stack[slots[i]]))], t, Ref(x))
    else h
  }

  function AfterNewThread(h: Heap, t: Id, x: Id): Heap {
    var stack := StackOf(h, t);
    if x !in h && |stack| > 0 then Pushed(h[x := Thread([stack[0]], [])], t, Ref(x)) else h
  }

  function AfterIntern(h: Heap, t: Id, x: Id, hash: nat): Heap {
    if x !in h then Pushed(h[x := String(hash, false)], t, Ref(x))
    else if h[x].String? then Pushed(h, t, Ref(x))
    else h
  }

  /** The upvalue that is open over the slot is pushed, or a new one if there is none. */
  ghost predicate Captured(h: Heap, h': Heap, t: Id, slot: nat, x: Id) {
    if x in h || slot >= |StackOf(h, t)| then h' == h
    else exists u :: CapturedAs(h, h', t, slot, x, u)
  }

  ghost predicate CapturedAs(h: Heap, h': Heap, t: Id, slot: nat, x: Id, u: Id) {
    && h'.Keys == h.Keys + {u} && u != t && h'[u] == OpenUpval(t, slot)
    && StackOf(h', t) == StackOf(h, t) + [Ref(u)]
    && (u in h || (u == x && forall v | v in h :: h[v] != OpenUpval(t, slot)))
    && forall y | y in h && y != t :: h'[y] == h[y]
  }

  ghost predicate OpenOf(h: Heap, t: Id, u: Id) { IsOpen(h, u) && h[u].thread == t }

  /** Of the open upvalues of `t`, exactly those at or above the level are closed, and
      nothing else changes. */
  ghost predicate ClosedOnly(h: Heap, h': Heap, t: Id, level: nat) {
    && h'.Keys <= h.Keys && StackOf(h', t) == StackOf(h, t)
    && (forall u | OpenOf(h, t, u) :: IsOpen(h', u) <==> h[u].slot < level)
    && forall x | x in h && x != t && !(OpenOf(h, t, x) && h[x].slot >= level) :: x in h' && h'[x] == h[x]
  }

  /** Those that are live are not freed, and read what they read before. */
  ghost predicate Closed(s: State, s': State, t: Id, level: nat) {
    && ClosedOnly(s.heap, s'.heap, t, level)
    && (forall u | u in s.heap && Live(s.marked, s.currentwhite, u) ::
         u in s'.heap && UpvalValue(s'.heap, u) == UpvalValue(s.heap, u))
    && forall u | OpenOf(s.heap, t, u) && Live(s.marked, s.currentwhite, u) && s.heap[u].slot >= level ::
         u in s'.heap && s'.heap[u] == Block(Upval, [UpvalValue(s.heap, u)])
  }

  /** What an operation does. A collector step leaves all that is reachable as it was. */
  ghost predicate Effect(op: Op, s: State, s': State) {
    var h, t := s.heap, s.running;
    && s'.mainthread == s.mainthread && s'.registry == s.registry
    && match op
       case Resume(slot) =>
         var stack := StackOf(h, t);
         && s'.heap == h && s'.mt == s.mt
         && s'.running == if slot < |stack| && stack[slot].Ref? && stack[slot].id in h && h[stack[slot].id].Thread?
                            then stack[slot].id else t
       case SetTypeMetatable(tag, slot) =>
         var stack := StackOf(h, t);
         && s'.heap == h && s'.running == t
         && s'.mt == if slot < |stack| && tag < |s.mt| then s.mt[tag := stack[slot]] else s.mt
       case Step => SameWorld(s, s', ReachSet(s)) && s'.running == t && s'.mt == s.mt
       case Full => SameWorld(s, s', ReachSet(s)) && s'.running == t && s'.mt == s.mt
       case Capture(slot, x) => Captured(h, s'.heap, t, slot, x) && s'.running == t && s'.mt == s.mt
       case Close(level) => Closed(s, s', t, level) && s'.running == t && s'.mt == s.mt
       case _ => s'.heap == HeapAfter(op, s) && s'.running == t && s'.mt == s.mt
  }

  /** The heap after an operation of the program that neither opens nor closes upvalues. */
  function HeapAfter(op: Op, s: State): Heap {
    var h, t := s.heap, s.running;
    match op
    case Get(slot, field) => AfterGet(h, t, slot, field)
    case Set(slot, field, from) => AfterSet(h, t, slot, field, from)
    case Pop => AfterPop(h, t)
    case PushRegistry => Pushed(h, t, Ref(s.registry))
    case NewBlock(x, kind, slots) => AfterNewBlock(h, t, x, kind, slots)
    case NewThread(x) => AfterNewThread(h, t, x)
    case Intern(x, hash) => AfterIntern(h, t, x, hash)
    case _ => h
  }

  /** The objects an operation names: it may change these and no others. */
  ghost function Names(op: Op, s: State): set<Id> {
    var h, t := s.heap, s.running;
    match op
    case Set(slot, _, _) =>
      var os := At(StackOf(h, t), slot);
      os + set o | o in os && IsOpen(h, o) :: h[o].thread
    case Close(level) => {t} + set u | u in h && OpenOf(h, t, u) && h[u].slot >= level
    case ResizeStrings(_) => {}
    case Resume(_) => {}
    case SetTypeMetatable(_, _) => {}
    case _ => {t}
  }

  /** An operation of the program frees nothing live, and changes only what it names. */
  lemma EffectFrame(op: Op, s: State, s': State, x: Id)
    requires Effect(op, s, s') && !op.Step? && !op.Full?
    requires x in s.heap && Live(s.marked, s.currentwhite, x)
    ensures x in s'.heap
    ensures x !in Names(op, s) ==> s'.heap[x] == s.heap[x]
  {
    hide Fields, SameWorld, UpvalValue;
  }
}
