/**
 What operations of the program do to each other: laws over their effects.
 */
module GcLaws {
  import opened GcHeap
  import opened GcColours
  import opened GcEdits
  import opened GcState
  import opened GcProgram

  function Stack(s: State): seq<Value> { StackOf(s.heap, s.running) }

  predicate Runs(s: State) { s.running in s.heap && s.heap[s.running].Thread? }

  /** The object that a slot refers to. */
  predicate Refers(s: State, slot: nat, o: Id) {
    Runs(s) && slot < |Stack(s)| && Stack(s)[slot] == Ref(o) && o in s.heap
  }

  /** One value was pushed, and nothing else happened to the stack. */
  predicate PushedOn(s: State, s': State, v: Value) {
    Runs(s') && s'.running == s.running && Stack(s') == Stack(s) + [v]
  }

  // ---------------------------------------------------------------- fields

  /** What is stored in a field is what is read from it. */
  lemma SetThenGet(s: State, s1: State, s2: State, slot: nat, field: nat, from: nat, o: Id)
    requires Effect(Set(slot, field, from), s, s1) && Effect(Get(slot, field), s1, s2)
    requires Refers(s, slot, o) && from < |Stack(s)| && s.heap[o].Block?
    requires field < |s.heap[o].fields| || (s.heap[o].kind.Table? && field == |s.heap[o].fields|)
    ensures PushedOn(s, s2, Stack(s)[from])
  {
  }

  /** The other fields, and the fields of other objects, read as before. */
  lemma SetThenGetOther(s: State, s1: State, s2: State, t2: State, slot: nat, field: nat, from: nat, other: nat, g: nat, o: Id, p: Id)
    requires Effect(Set(slot, field, from), s, s1) && Effect(Get(other, g), s1, s2) && Effect(Get(other, g), s, t2)
    requires Refers(s, slot, o) && Refers(s, other, p) && from < |Stack(s)| && s.heap[o].Block? && s.heap[p].Block?
    requires g < |s.heap[p].fields| && (p != o || g != field)
    ensures Stack(s2) == Stack(t2) == Stack(s) + [s.heap[p].fields[g]]
  {
  }

  /** A store beyond the end of anything but a table does nothing, and neither does a
      read beyond the end. */
  lemma OutOfRange(s: State, s': State, slot: nat, field: nat, from: nat, o: Id)
    requires Refers(s, slot, o) && from < |Stack(s)| && s.heap[o].Block? && field >= |s.heap[o].fields|
    ensures Effect(Set(slot, field, from), s, s') && (!s.heap[o].kind.Table? || field > |s.heap[o].fields|) ==> s'.heap == s.heap
    ensures Effect(Get(slot, field), s, s') ==> s'.heap == s.heap
  {
  }

  /** A new object has the values of the slots it was made from. */
  lemma NewThenGet(s: State, s1: State, s2: State, x: Id, kind: Kind, slots: seq<nat>, i: nat)
    requires Runs(s) && x !in s.heap && i < |slots| && forall j | 0 <= j < |slots| :: slots[j] < |Stack(s)|
    requires Effect(NewBlock(x, kind, slots), s, s1) && Effect(Get(|Stack(s)|, i), s1, s2)
    ensures PushedOn(s, s1, Ref(x)) && s1.heap[x].Block? && s1.heap[x].kind == kind && |s1.heap[x].fields| == |slots|
    ensures PushedOn(s1, s2, Stack(s)[slots[i]])
  {
  }

  // ---------------------------------------------------------------- upvalues

  /** A store through an open upvalue reaches the slot it reads, and no other. */
  lemma SetThrough(s: State, s1: State, slot: nat, field: nat, from: nat, u: Id, home: Id, level: nat)
    requires Effect(Set(slot, field, from), s, s1)
    requires Refers(s, slot, u) && from < |Stack(s)| && s.heap[u] == OpenUpval(home, level) && level < |StackOf(s.heap, home)|
    ensures |StackOf(s1.heap, home)| == |StackOf(s.heap, home)| && StackOf(s1.heap, home)[level] == Stack(s)[from]
    ensures forall i | 0 <= i < |StackOf(s.heap, home)| && i != level :: StackOf(s1.heap, home)[i] == StackOf(s.heap, home)[i]
    ensures UpvalValue(s1.heap, u) == Stack(s)[from]
  {
  }

  /** A captured slot is read through its upvalue. */
  lemma CaptureThenGet(s: State, s1: State, s2: State, slot: nat, x: Id)
    requires Runs(s) && x !in s.heap && slot < |Stack(s)|
    requires Effect(Capture(slot, x), s, s1) && Effect(Get(|Stack(s)|, 0), s1, s2)
    ensures Runs(s1) && |Stack(s1)| == |Stack(s)| + 1 && Stack(s1)[|Stack(s)|].Ref?
    ensures PushedOn(s1, s2, Stack(s)[slot])
  {
    var u :| CapturedAs(s.heap, s1.heap, s.running, slot, x, u);
    assert Stack(s1)[|Stack(s)|] == Ref(u);
    assert UpvalValue(s1.heap, u) == Stack(s)[slot];
  }

  /** Two captures of a slot are one upvalue. */
  lemma CaptureTwice(s: State, s1: State, s2: State, slot: nat, x: Id, y: Id)
    requires Core(s1) && Runs(s) && x !in s.heap && slot < |Stack(s)| && y !in s1.heap
    requires Effect(Capture(slot, x), s, s1) && Effect(Capture(slot, y), s1, s2)
    ensures |Stack(s2)| == |Stack(s)| + 2 && Stack(s2)[|Stack(s)|] == Stack(s2)[|Stack(s)| + 1]
  {
    var u :| CapturedAs(s.heap, s1.heap, s.running, slot, x, u);
    assert slot < |Stack(s1)|;
    var v :| CapturedAs(s1.heap, s2.heap, s1.running, slot, y, v);
    OneUpvalue(s1, u, v, slot);
    assert Stack(s2)[|Stack(s)|] == Ref(u);
  }

  lemma OneUpvalue(s: State, u: Id, v: Id, slot: nat)
    requires Core(s) && Runs(s) && u in s.heap && s.heap[u] == OpenUpval(s.running, slot)
    requires v in s.heap ==> s.heap[v] == OpenUpval(s.running, slot)
    requires v !in s.heap ==> forall y | y in s.heap :: s.heap[y] != OpenUpval(s.running, slot)
    ensures u == v
  {
    var open := s.heap[s.running].openupval;
    assert OpenList(s.heap, s.running, open);
    assert u in open && (v in s.heap ==> v in open);
    if v in s.heap {
      var i :| 0 <= i < |open| && open[i] == u;
      var j :| 0 <= j < |open| && open[j] == v;
    }
  }

  /** An upvalue reads the same before and after it is closed. */
  lemma CloseThenGet(s: State, s1: State, s2: State, t2: State, level: nat, slot: nat, u: Id)
    requires Effect(Close(level), s, s1) && Effect(Get(slot, 0), s1, s2) && Effect(Get(slot, 0), s, t2)
    requires Refers(s, slot, u) && OpenOf(s.heap, s.running, u) && s.heap[u].slot < |Stack(s)|
    requires Live(s.marked, s.currentwhite, u)
    ensures Stack(s2) == Stack(t2) == Stack(s) + [Stack(s)[s.heap[u].slot]]
  {
    assert UpvalValue(s1.heap, u) == UpvalValue(s.heap, u);
    assert u != s.running;
  }

  // ---------------------------------------------------------------- the stack, threads, strings

  lemma PushThenPop(s: State, s1: State, s2: State)
    requires Runs(s) && s.heap[s.running].openupval == []
    requires Effect(PushRegistry, s, s1) && Effect(Pop, s1, s2)
    ensures PushedOn(s, s1, Ref(s.registry)) && s2.heap == s.heap
  {
    assert (Stack(s) + [Ref(s.registry)])[..|Stack(s)|] == Stack(s);
  }

  /** A new coroutine starts with the globals of the one that made it. */
  lemma NewThenResume(s: State, s1: State, s2: State, x: Id)
    requires Runs(s) && x !in s.heap && |Stack(s)| > 0
    requires Effect(NewThread(x), s, s1) && Effect(Resume(|Stack(s)|), s1, s2)
    ensures PushedOn(s, s1, Ref(x)) && s2.running == x && Stack(s2) == [Stack(s)[0]] && s2.heap == s1.heap
  {
  }

  /** Interning pushes the one string. */
  lemma InternTwice(s: State, s1: State, s2: State, x: Id, hash: nat)
    requires Runs(s) && x !in s.heap
    requires Effect(Intern(x, hash), s, s1) && Effect(Intern(x, hash), s1, s2)
    ensures PushedOn(s, s1, Ref(x)) && PushedOn(s1, s2, Ref(x)) && s2.heap[x] == String(hash, false)
    ensures s2.heap.Keys == s.heap.Keys + {x}
  {
  }

  lemma MetatableSet(s: State, s': State, tag: nat, slot: nat)
    requires Runs(s) && slot < |Stack(s)| && tag < |s.mt| && Effect(SetTypeMetatable(tag, slot), s, s')
    ensures |s'.mt| == |s.mt| && s'.mt[tag] == Stack(s)[slot] && forall i | 0 <= i < |s.mt| && i != tag :: s'.mt[i] == s.mt[i]
  {
  }

  // ---------------------------------------------------------------- what is reachable

  /** A collection keeps the threads at work, the registry and the type metatables. */
  lemma RootsReached(s: State, tag: nat)
    ensures Reach(s.heap, Roots(s), s.mainthread) && Reach(s.heap, Roots(s), s.registry) && Reach(s.heap, Roots(s), s.running)
    ensures tag < |s.mt| && s.mt[tag].Ref? ==> Reach(s.heap, Roots(s), s.mt[tag].id)
  {
    forall x | x in Roots(s) ensures Reach(s.heap, Roots(s), x) {
      ReachRoot(s.heap, Roots(s), x);
    }
  }

  /** It keeps what a reachable object has in a field, a thread on its stack, and an open
      upvalue in the slot that it reads. */
  lemma FieldsReached(s: State, x: Id, i: nat)
    requires x in s.heap && Reach(s.heap, Roots(s), x)
    ensures match s.heap[x]
            case Block(_, fields) => i < |fields| && fields[i].Ref? ==> Reach(s.heap, Roots(s), fields[i].id)
            case Thread(stack, _) => i < |stack| && stack[i].Ref? ==> Reach(s.heap, Roots(s), stack[i].id)
            case OpenUpval(t, slot) =>
              slot < |StackOf(s.heap, t)| && StackOf(s.heap, t)[slot].Ref? ==> Reach(s.heap, Roots(s), StackOf(s.heap, t)[slot].id)
            case String(_, _) => true
  {
    hide Reach;
    forall y | y in Children(s.heap, x) ensures Reach(s.heap, Roots(s), y) {
      ReachStep(s.heap, Roots(s), x, y);
    }
    if s.heap[x].OpenUpval? {
      assert Fields(s.heap, x) == [UpvalValue(s.heap, x)];
      assert UpvalValue(s.heap, x).Ref? ==> Fields(s.heap, x)[0].id in Children(s.heap, x);
    }
  }
}
