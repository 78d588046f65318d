/**
 The collectable heap of the interpreter: objects, their references, the
 lists that own them, and reachability.

 The mark byte of an object is kept in a map of its own (`Marks`), so that
 recolouring an object visibly leaves the object graph alone.
 */
module GcHeap {

  type Id = nat

  /** A Lua value, as far as the collector sees it. */
  datatype Value = Plain | Ref(id: Id)

  /** The colour bits of `marked`: two whites, black, and neither. */
  datatype Colour = White0 | White1 | Gray | Black

  predicate IsWhite(c: Colour) { c.White0? || c.White1? }

  type White = c: Colour | IsWhite(c) witness White0

  function OtherWhite(w: White): White {
    if w.White0? then White1 else White0
  }

  datatype Kind = Table | Function | Proto | Userdata | Upval

  /** `Block` is any object that owns its references; `Upval` there is a closed
      upvalue. An open upvalue reads through a stack slot of its thread. */
  datatype Object =
    | String(hash: nat, fixed: bool)
    | Block(kind: Kind, fields: seq<Value>)
    | Thread(stack: seq<Value>, openupval: seq<Id>)
    | OpenUpval(thread: Id, slot: nat)

  type Heap = map<Id, Object>
  type Marks = map<Id, Colour>

  function Ids(vs: seq<Value>): set<Id> {
    set i | 0 <= i < |vs| && vs[i].Ref? :: vs[i].id
  }

  /** The value seen through an upvalue, open or closed. */
  function UpvalValue(h: Heap, u: Id): Value {
    if u !in h then Plain
    else match h[u]
      case OpenUpval(t, slot) =>
        if t in h && h[t].Thread? && slot < |h[t].stack| then h[t].stack[slot] else Plain
      case Block(_, fields) => if |fields| > 0 then fields[0] else Plain
      case _ => Plain
  }

  /** The references of an object, in the order the collector visits them. */
  function Fields(h: Heap, x: Id): seq<Value> {
    if x !in h then []
    else match h[x]
      case String(_, _) => []
      case Block(_, fields) => fields
      case Thread(stack, _) => stack
      case OpenUpval(_, _) => [UpvalValue(h, x)]
  }

  function Children(h: Heap, x: Id): set<Id> {
    Ids(Fields(h, x))
  }

  // ---------------------------------------------------------------- reachability

  ghost predicate Path(h: Heap, roots: set<Id>, p: seq<Id>) {
    && |p| > 0 && p[0] in roots
    && forall i | 0 < i < |p| :: p[i] in Children(h, p[i - 1])
  }

  ghost predicate Reach(h: Heap, roots: set<Id>, x: Id) {
    exists p :: Path(h, roots, p) && p[|p| - 1] == x
  }

  ghost predicate ClosedUnder(h: Heap, s: set<Id>) {
    forall x | x in s :: Children(h, x) <= s
  }

  lemma ReachRoot(h: Heap, roots: set<Id>, x: Id)
    requires x in roots
    ensures Reach(h, roots, x)
  {
    assert Path(h, roots, [x]);
  }

  lemma ReachStep(h: Heap, roots: set<Id>, x: Id, y: Id)
    requires Reach(h, roots, x) && y in Children(h, x)
    ensures Reach(h, roots, y)
  {
    var p :| Path(h, roots, p) && p[|p| - 1] == x;
    var q := p + [y];
    assert Path(h, roots, q) && q[|q| - 1] == y;
  }

  /** A set that holds the roots and is closed under references holds every
      reachable object. */
  lemma {:induction false} ReachInClosed(h: Heap, roots: set<Id>, s: set<Id>, x: Id)
    requires roots <= s && ClosedUnder(h, s)
    requires Reach(h, roots, x)
    ensures x in s
  {
    var p :| Path(h, roots, p) && p[|p| - 1] == x;
    PathInClosed(h, roots, s, p, |p| - 1);
  }

  lemma {:induction false} PathInClosed(h: Heap, roots: set<Id>, s: set<Id>, p: seq<Id>, k: nat)
    requires roots <= s && ClosedUnder(h, s)
    requires Path(h, roots, p) && k < |p|
    ensures p[k] in s
  {
    if k > 0 {
      PathInClosed(h, roots, s, p, k - 1);
    }
  }

  /** Heaps that agree on the references of every reachable object have the
      same reachable objects. */
  lemma ReachSame(h: Heap, h': Heap, roots: set<Id>, x: Id)
    requires forall y | Reach(h, roots, y) :: Children(h', y) == Children(h, y)
    ensures Reach(h, roots, x) <==> Reach(h', roots, x)
  {
    if Reach(h, roots, x) {
      var p :| Path(h, roots, p) && p[|p| - 1] == x;
      PathReach(h, roots, p);
      assert Path(h', roots, p);
    }
    if Reach(h', roots, x) {
      var p :| Path(h', roots, p) && p[|p| - 1] == x;
      PathBack(h, h', roots, p, |p| - 1);
    }
  }

  lemma PathReach(h: Heap, roots: set<Id>, p: seq<Id>)
    requires Path(h, roots, p)
    ensures forall k | 0 <= k < |p| :: Reach(h, roots, p[k])
  {
    forall k | 0 <= k < |p| ensures Reach(h, roots, p[k]) {
      assert Path(h, roots, p[..k + 1]);
    }
  }

  lemma {:induction false} PathBack(h: Heap, h': Heap, roots: set<Id>, p: seq<Id>, k: nat)
    requires forall y | Reach(h, roots, y) :: Children(h', y) == Children(h, y)
    requires Path(h', roots, p) && k < |p|
    ensures Reach(h, roots, p[k])
  {
    if k == 0 {
      ReachRoot(h, roots, p[0]);
    } else {
      PathBack(h, h', roots, p, k - 1);
      ReachStep(h, roots, p[k - 1], p[k]);
    }
  }

  // ---------------------------------------------------------------- ownership

  ghost predicate Distinct<T(!new)>(s: seq<T>) {
    forall i, j | 0 <= i < j < |s| :: s[i] != s[j]
  }

  ghost predicate Rooted(h: Heap, rootgc: seq<Id>) {
    && Distinct(rootgc)
    && forall x :: x in rootgc <==> x in h && (h[x].Block? || h[x].Thread?)
  }

  ghost predicate Bucket(h: Heap, size: nat, b: nat, bucket: seq<Id>)
    requires size > 0
  {
    && Distinct(bucket)
    && forall x :: x in bucket <==> x in h && h[x].String? && h[x].hash % size == b
  }

  ghost predicate Interned(h: Heap, strt: seq<seq<Id>>) {
    && |strt| > 0
    && forall b | 0 <= b < |strt| :: Bucket(h, |strt|, b, strt[b])
  }

  /** The open upvalues of a thread: exactly those listed, by strictly
      descending stack slot. */
  ghost predicate OpenList(h: Heap, t: Id, open: seq<Id>) {
    && (forall u :: u in open <==> u in h && h[u].OpenUpval? && h[u].thread == t)
    && (forall i | 0 <= i < |open| :: open[i] in h && h[open[i]].OpenUpval?)
    && (forall i, j | 0 <= i < j < |open| :: h[open[i]].slot > h[open[j]].slot)
  }

  ghost predicate OpenLists(h: Heap) {
    forall t | t in h && h[t].Thread? :: OpenList(h, t, h[t].openupval)
  }

  ghost predicate OpenHomes(h: Heap) {
    forall u | u in h && h[u].OpenUpval? ::
      h[u].thread in h && h[h[u].thread].Thread? && h[u].slot < |h[h[u].thread].stack|
  }

  ghost predicate AllOpen(h: Heap, uvhead: seq<Id>) {
    && Distinct(uvhead)
    && forall u :: u in uvhead <==> u in h && h[u].OpenUpval?
  }

  /** Every object is owned by exactly one list: the root list, its string
      bucket, or the open list of its thread. */
  ghost predicate Owned(h: Heap, rootgc: seq<Id>, strt: seq<seq<Id>>, uvhead: seq<Id>) {
    Rooted(h, rootgc) && Interned(h, strt) && OpenLists(h) && OpenHomes(h) && AllOpen(h, uvhead)
  }
}
