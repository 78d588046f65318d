/**
 What each change of the heap (allocation, a store, opening and closing an
 upvalue, freeing) does to ownership, liveness and the references of others.
 */
module GcEdits {
  import opened GcHeap
  import opened GcColours

  /** The list without one of its elements. */
  function Remove(s: seq<Id>, x: Id): (r: seq<Id>)
    ensures forall y :: y in r <==> y in s && y != x
    ensures Distinct(s) ==> Distinct(r)
  {
    if s == [] then []
    else
      assert forall y :: y in s <==> y == s[0] || y in s[1..];
      var rest := Remove(s[1..], x);
      assert Distinct(s) ==> s[0] !in rest;
      if s[0] == x then rest else [s[0]] + rest
  }

  function Cut<T>(s: seq<T>, i: nat): seq<T>
    requires i < |s|
  {
    s[..i] + s[i + 1..]
  }

  lemma CutElems<T(!new)>(s: seq<T>, i: nat)
    requires i < |s| && Distinct(s)
    ensures Distinct(Cut(s, i))
    ensures forall y :: y in Cut(s, i) <==> y in s && y != s[i]
  {
    forall y | y in s && y != s[i] ensures y in Cut(s, i) {
      var k :| 0 <= k < |s| && s[k] == y;
      assert Cut(s, i)[if k < i then k else k - 1] == y;
    }
  }

  predicate Fixed(h: Heap, main: Id, x: Id) {
    x == main || (x in h && h[x].String? && h[x].fixed)
  }

  /** The object is the same, up to its open list and up to being closed. */
  ghost predicate SameObject(a: Object, b: Object) {
    match a
    case Thread(stack, _) => b.Thread? && b.stack == stack
    case OpenUpval(_, _) => b == a || (b.Block? && b.kind.Upval?)
    case _ => b == a
  }

  /** What sweeping may do: only dead objects that are not fixed go, live ones
      keep their references, and the dead stay dead until they go. */
  ghost predicate Swept(h: Heap, m: Marks, h': Heap, m': Marks, cw: White, main: Id) {
    && h'.Keys <= h.Keys
    && (forall x | x in h' :: SameObject(h[x], h'[x]))
    && (forall x | x in h && Live(m, cw, x) :: x in h' && Live(m', cw, x) && Fields(h', x) == Fields(h, x))
    && (forall x | IsCurrent(m, cw, x) :: IsCurrent(m', cw, x))
    && (forall x | x in h && Fixed(h, main, x) :: x in h')
    && (forall x | x in h' && x in m && !Live(m, cw, x) && !Fixed(h, main, x) :: x in m' && m'[x] == m[x])
  }

  lemma SweptTrans(h0: Heap, m0: Marks, h1: Heap, m1: Marks, h2: Heap, m2: Marks, cw: White, main: Id)
    requires m0.Keys == h0.Keys && m1.Keys == h1.Keys && m2.Keys == h2.Keys
    requires Swept(h0, m0, h1, m1, cw, main) && Swept(h1, m1, h2, m2, cw, main)
    ensures Swept(h0, m0, h2, m2, cw, main)
  {
    hide Fields;
  }

  /** Live objects keep their references, and any newly live one has live references. */
  lemma LiveClosedKept(h: Heap, m: Marks, h': Heap, m': Marks, cw: White)
    requires LiveClosed(h, m, cw)
    requires forall x | Live(m, cw, x) :: Live(m', cw, x)
    requires forall x | Live(m', cw, x) ::
               || (Live(m, cw, x) && Fields(h', x) == Fields(h, x))
               || (forall y | y in Children(h', x) :: Live(m', cw, y))
    ensures LiveClosed(h', m', cw)
  {
    hide Fields, Ids;
    forall x, y | Live(m', cw, x) && y in Children(h', x) ensures Live(m', cw, y) {
      if Live(m, cw, x) && Fields(h', x) == Fields(h, x) {
        assert y in Children(h, x);
        assert Live(m, cw, y);
      }
    }
  }

  predicate IsRoot(h: Heap, x: Id) { x in h && (h[x].Block? || h[x].Thread?) }

  predicate IsString(h: Heap, x: Id) { x in h && h[x].String? }

  predicate IsOpen(h: Heap, x: Id) { x in h && h[x].OpenUpval? }

  lemma RootedKept(h: Heap, h': Heap, rootgc: seq<Id>)
    requires Rooted(h, rootgc) && forall x :: IsRoot(h', x) <==> IsRoot(h, x)
    ensures Rooted(h', rootgc)
  {
    assert forall x :: x in rootgc <==> IsRoot(h, x);
  }

  lemma InternedKept(h: Heap, h': Heap, strt: seq<seq<Id>>)
    requires Interned(h, strt)
    requires forall x :: IsString(h', x) <==> IsString(h, x)
    requires forall x | IsString(h, x) :: x in h' && h'[x] == h[x]
    ensures Interned(h', strt)
  {
    forall b | 0 <= b < |strt| ensures Bucket(h', |strt|, b, strt[b]) {
      assert Bucket(h, |strt|, b, strt[b]);
      forall x ensures x in strt[b] <==> x in h' && h'[x].String? && h'[x].hash % |strt| == b {
        assert IsString(h', x) <==> IsString(h, x);
      }
    }
  }

  lemma OpenKept(h: Heap, h': Heap, uvhead: seq<Id>)
    requires OpenLists(h) && OpenHomes(h) && AllOpen(h, uvhead)
    requires forall x :: IsOpen(h', x) <==> IsOpen(h, x)
    requires forall x | IsOpen(h, x) :: x in h' && h'[x] == h[x]
    requires forall t | t in h' && h'[t].Thread? ::
               if t in h then h[t].Thread? && h[t].openupval == h'[t].openupval else h'[t].openupval == []
    requires forall u | IsOpen(h, u) && h[u].thread in h ::
               && h[u].thread in h' && h'[h[u].thread].Thread?
               && h[u].slot < |h'[h[u].thread].stack|
    ensures OpenLists(h') && OpenHomes(h') && AllOpen(h', uvhead)
  {
    assert forall u :: u in uvhead <==> IsOpen(h, u);
    forall t | t in h' && h'[t].Thread? ensures OpenList(h', t, h'[t].openupval) {
      if t in h {
        assert OpenList(h, t, h[t].openupval);
        assert forall u :: u in h[t].openupval <==> IsOpen(h, u) && h[u].thread == t;
      } else {
        assert forall u | IsOpen(h', u) :: IsOpen(h, u) && h[u].thread in h;
      }
    }
  }

  // ---------------------------------------------------------------- freeing

  /** Freeing a dead, unfixed object that no other reads through. */
  lemma FreeDead(h: Heap, m: Marks, cw: White, main: Id, x: Id)
    requires ColourOk(h, m) && LiveClosed(h, m, cw)
    requires x in h && !Live(m, cw, x) && !Fixed(h, main, x)
    requires forall u | IsOpen(h, u) :: h[u].thread != x
    ensures ColourOk(h - {x}, m - {x}) && LiveClosed(h - {x}, m - {x}, cw)
    ensures Swept(h, m, h - {x}, m - {x}, cw, main)
  {
    hide LiveClosed, Children, Ids;
    var h', m' := h - {x}, m - {x};
    assert forall y | y in h' :: Fields(h', y) == Fields(h, y);
    LiveClosedKept(h, m, h', m', cw);
  }

  /** A thread's open list is no reference. */
  lemma ListChange(h: Heap, m: Marks, cw: White, main: Id, t: Id, open: seq<Id>)
    requires ColourOk(h, m) && LiveClosed(h, m, cw)
    requires t in h && h[t].Thread?
    ensures var h' := h[t := h[t].(openupval := open)];
            && ColourOk(h', m) && LiveClosed(h', m, cw)
            && (forall y | y in h :: Fields(h', y) == Fields(h, y))
            && Swept(h, m, h', m, cw, main)
  {
    hide LiveClosed, Children, Ids;
    var h' := h[t := h[t].(openupval := open)];
    assert forall y | y in h :: Fields(h', y) == Fields(h, y);
    LiveClosedKept(h, m, h', m, cw);
  }

  lemma FreeString(h: Heap, m: Marks, cw: White, main: Id, rootgc: seq<Id>, strt: seq<seq<Id>>, uvhead: seq<Id>,
                   b: nat, i: nat)
    requires Owned(h, rootgc, strt, uvhead) && ColourOk(h, m) && LiveClosed(h, m, cw)
    requires b < |strt| && i < |strt[b]|
    requires !Live(m, cw, strt[b][i]) && !Fixed(h, main, strt[b][i])
    ensures var x := strt[b][i];
            && x in h && h[x].String?
            && Owned(h - {x}, rootgc, strt[b := Cut(strt[b], i)], uvhead)
            && ColourOk(h - {x}, m - {x}) && LiveClosed(h - {x}, m - {x}, cw)
            && Swept(h, m, h - {x}, m - {x}, cw, main)
  {
    hide Interned, Rooted, OpenLists, OpenHomes, AllOpen, LiveClosed, ColourOk, Swept;
    var x := strt[b][i];
    UnlinkString(h, strt, b, i);
    HomesAreThreads(h);
    FreeDead(h, m, cw, main, x);
    RootedKept(h, h - {x}, rootgc);
    OpenKept(h, h - {x}, uvhead);
  }

  lemma HomesAreThreads(h: Heap)
    requires OpenHomes(h)
    ensures forall u | IsOpen(h, u) ::
      h[u].thread in h && h[h[u].thread].Thread? && h[u].slot < |h[h[u].thread].stack|
  {
  }

  lemma UnlinkString(h: Heap, strt: seq<seq<Id>>, b: nat, i: nat)
    requires Interned(h, strt) && b < |strt| && i < |strt[b]|
    ensures strt[b][i] in h && h[strt[b][i]].String?
    ensures Interned(h - {strt[b][i]}, strt[b := Cut(strt[b], i)])
  {
    var x := strt[b][i];
    assert Bucket(h, |strt|, b, strt[b]) && x in strt[b];
    CutElems(strt[b], i);
    var strt' := strt[b := Cut(strt[b], i)];
    forall c | 0 <= c < |strt'| ensures Bucket(h - {x}, |strt'|, c, strt'[c]) {
      assert Bucket(h, |strt|, c, strt[c]);
    }
  }

  lemma FreeRoot(h: Heap, m: Marks, cw: White, main: Id, rootgc: seq<Id>, strt: seq<seq<Id>>, uvhead: seq<Id>, i: nat)
    requires Owned(h, rootgc, strt, uvhead) && ColourOk(h, m) && LiveClosed(h, m, cw)
    requires i < |rootgc|
    requires var x := rootgc[i];
             && x in h && !Live(m, cw, x) && !Fixed(h, main, x)
             && (h[x].Thread? ==> h[x].openupval == [])
    ensures var x := rootgc[i];
            && Owned(h - {x}, Cut(rootgc, i), strt, uvhead)
            && ColourOk(h - {x}, m - {x}) && LiveClosed(h - {x}, m - {x}, cw)
            && Swept(h, m, h - {x}, m - {x}, cw, main)
  {
    hide Interned, Rooted, OpenLists, OpenHomes, AllOpen, LiveClosed, ColourOk, Swept;
    var x := rootgc[i];
    UnlinkRoot(h, rootgc, i);
    NoOpenOf(h, x);
    HomesAreThreads(h);
    FreeDead(h, m, cw, main, x);
    InternedKept(h, h - {x}, strt);
    OpenKept(h, h - {x}, uvhead);
  }

  lemma NoOpenOf(h: Heap, x: Id)
    requires OpenLists(h) && OpenHomes(h)
    requires x in h && (h[x].Thread? ==> h[x].openupval == [])
    ensures forall u | IsOpen(h, u) :: h[u].thread != x
  {
    assert h[x].Thread? ==> OpenList(h, x, []);
  }

  lemma UnlinkRoot(h: Heap, rootgc: seq<Id>, i: nat)
    requires Rooted(h, rootgc) && i < |rootgc|
    ensures IsRoot(h, rootgc[i])
    ensures Rooted(h - {rootgc[i]}, Cut(rootgc, i))
  {
    assert rootgc[i] in rootgc;
    CutElems(rootgc, i);
  }

  lemma FreeOpen(h: Heap, m: Marks, cw: White, main: Id, rootgc: seq<Id>, strt: seq<seq<Id>>, uvhead: seq<Id>,
                 t: Id, i: nat)
    requires Owned(h, rootgc, strt, uvhead) && ColourOk(h, m) && LiveClosed(h, m, cw)
    requires t in h && h[t].Thread? && i < |h[t].openupval|
    requires main in h && h[main].Thread?
    requires !Live(m, cw, h[t].openupval[i])
    ensures var u := h[t].openupval[i];
            var h' := h[t := h[t].(openupval := Cut(h[t].openupval, i))] - {u};
            && IsOpen(h, u) && u != t
            && Owned(h', rootgc, strt, Remove(uvhead, u))
            && ColourOk(h', m - {u}) && LiveClosed(h', m - {u}, cw)
            && Swept(h, m, h', m - {u}, cw, main)
  {
    hide Interned, Rooted, OpenLists, OpenHomes, AllOpen, LiveClosed, ColourOk, Swept;
    var u := h[t].openupval[i];
    var h1 := h[t := h[t].(openupval := Cut(h[t].openupval, i))];
    UnlinkOpen(h, uvhead, t, i);
    HomesAreThreads(h);
    SameKeys(h, m);
    ListChange(h, m, cw, main, t, Cut(h[t].openupval, i));
    FreeDead(h1, m, cw, main, u);
    SameKeys(h1 - {u}, m - {u});
    SweptTrans(h, m, h1, m, h1 - {u}, m - {u}, cw, main);
    InternedKept(h, h1 - {u}, strt);
    RootedKept(h, h1 - {u}, rootgc);
  }

  lemma SameKeys(h: Heap, m: Marks)
    requires ColourOk(h, m)
    ensures m.Keys == h.Keys
  {
  }

  lemma UnlinkOpen(h: Heap, uvhead: seq<Id>, t: Id, i: nat)
    requires OpenLists(h) && OpenHomes(h) && AllOpen(h, uvhead)
    requires t in h && h[t].Thread? && i < |h[t].openupval|
    ensures var u := h[t].openupval[i];
            var h' := h[t := h[t].(openupval := Cut(h[t].openupval, i))] - {u};
            && IsOpen(h, u) && u != t
            && OpenLists(h') && OpenHomes(h') && AllOpen(h', Remove(uvhead, u))
  {
    var open := h[t].openupval;
    var u := open[i];
    var h' := h[t := h[t].(openupval := Cut(open, i))] - {u};
    assert OpenList(h, t, open) && u in open;
    CutList(h, h', t, open, i);
    forall s | s in h' && h'[s].Thread? && s != t ensures OpenList(h', s, h'[s].openupval) {
      assert OpenList(h, s, h[s].openupval);
    }
  }

  lemma CutList(h: Heap, h': Heap, t: Id, open: seq<Id>, i: nat)
    requires OpenList(h, t, open) && i < |open|
    requires h'.Keys == h.Keys - {open[i]}
    requires forall y | y in h' && h[y].OpenUpval? :: h'[y] == h[y]
    requires forall y | y in h' && h'[y].OpenUpval? :: h[y].OpenUpval?
    ensures OpenList(h', t, Cut(open, i))
  {
    assert Distinct(open);
    CutElems(open, i);
  }

  // ---------------------------------------------------------------- closing

  /** Closing moves the value into the upvalue and the upvalue to the root list. */
  lemma CloseOpen(h: Heap, m: Marks, cw: White, main: Id, rootgc: seq<Id>, strt: seq<seq<Id>>, uvhead: seq<Id>, t: Id)
    requires Owned(h, rootgc, strt, uvhead) && ColourOk(h, m) && LiveClosed(h, m, cw)
    requires t in h && h[t].Thread? && h[t].openupval != []
    ensures var u := h[t].openupval[0];
            var h' := h[t := h[t].(openupval := h[t].openupval[1..])][u := Block(Upval, [UpvalValue(h, u)])];
            && IsOpen(h, u) && u != t && h'.Keys == h.Keys
            && Owned(h', [u] + rootgc, strt, Remove(uvhead, u))
            && ColourOk(h', m) && LiveClosed(h', m, cw)
            && Swept(h, m, h', m, cw, main)
            && (forall x | x in h :: Fields(h', x) == Fields(h, x))
  {
    hide Interned, Rooted, OpenLists, OpenHomes, AllOpen, LiveClosed, ColourOk, Swept;
    var u := h[t].openupval[0];
    var h1 := h[t := h[t].(openupval := h[t].openupval[1..])];
    var h' := h1[u := Block(Upval, [UpvalValue(h, u)])];
    assert Cut(h[t].openupval, 0) == h[t].openupval[1..];
    UnlinkOpen(h, uvhead, t, 0);
    HomesAreThreads(h);
    ListChange(h, m, cw, main, t, h[t].openupval[1..]);
    CloseFields(h1, m, cw, main, u);
    SameKeys(h, m);
    SameKeys(h1, m);
    SameKeys(h', m);
    SweptTrans(h, m, h1, m, h', m, cw, main);
    InternedKept(h, h', strt);
    LinkNew(h, h', rootgc, u);
    OpenKept(h1 - {u}, h', Remove(uvhead, u));
  }

  lemma LinkNew(h: Heap, h': Heap, rootgc: seq<Id>, u: Id)
    requires Rooted(h, rootgc) && !IsRoot(h, u) && IsRoot(h', u)
    requires forall x | x != u :: IsRoot(h', x) <==> IsRoot(h, x)
    ensures Rooted(h', [u] + rootgc)
  {
    assert forall x :: x in rootgc <==> IsRoot(h, x);
  }

  lemma CloseFields(h: Heap, m: Marks, cw: White, main: Id, u: Id)
    requires ColourOk(h, m) && LiveClosed(h, m, cw)
    requires IsOpen(h, u)
    requires forall v | IsOpen(h, v) :: h[v].thread in h && h[h[v].thread].Thread?
    ensures var h' := h[u := Block(Upval, [UpvalValue(h, u)])];
            && ColourOk(h', m) && LiveClosed(h', m, cw)
            && (forall y | y in h :: Fields(h', y) == Fields(h, y))
            && Swept(h, m, h', m, cw, main)
  {
    hide LiveClosed, Children, Ids;
    var h' := h[u := Block(Upval, [UpvalValue(h, u)])];
    assert forall y | y in h :: Fields(h', y) == Fields(h, y);
    LiveClosedKept(h, m, h', m, cw);
  }
}
