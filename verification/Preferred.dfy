/**
 The match that a pattern is meant to give, by recursion on its pieces; the derivation
 that takes precedence is that match, and so is what the search finds.
 */
module Preferred {
  import opened Bytes
  import opened Pattern
  import opened Syntax
  import opened Derivation
  import opened Matcher
  import opened Meaning

  datatype Answer = No | Yes(e: nat, out: Captures)

  /** The class admits the character at `s`. */
  predicate Accepts(S: seq<byte>, cls: Class, s: nat) { s < |S| && Admits(cls, S[s]) }

  /** Where the bracket that opens at `s` is closed, looking from `k` on, or -1: when as
      many have been closed as opened; brackets that are alike close one another. */
  function Partner(S: seq<byte>, b: byte, e: byte, s: nat, k: nat): (r: int)
    requires s < k
    ensures r < 0 || k <= r < |S|
    decreases |S| - k
  {
    if k >= |S| then -1 else if Even(S, b, e, s, k) then k else Partner(S, b, e, s, k + 1)
  }

  predicate Even(S: seq<byte>, b: byte, e: byte, s: nat, k: nat)
    requires s < k < |S|
  {
    if b == e then S[k] == e else multiset(S[s..k + 1])[b] == multiset(S[s..k + 1])[e]
  }

  /** Captures lie before `s`, and `open` lists some of them. */
  ghost predicate Fit(S: seq<byte>, s: nat, caps: Captures, open: seq<nat>) {
    Within(S, s, caps) && forall i | 0 <= i < |open| :: open[i] < |caps|
  }

  datatype Stepped = Stuck | Moved(s: nat, caps: Captures, open: seq<nat>)

  /** What a piece that leaves no choice does at `s`. `open` is the stack of captures
      not yet finished. */
  ghost function Forth(S: seq<byte>, x: Piece, s: nat, caps: Captures, open: seq<nat>): (r: Stepped)
    requires Fit(S, s, caps, open)
    ensures r.Moved? ==> Fit(S, r.s, r.caps, r.open)
  {
    match x
    case Times(cls, _) => if Accepts(S, cls, s) then Moved(s + 1, caps, open) else Stuck
    case Begin => if |caps| >= 32 then Stuck else Moved(s, caps + [Capture(s, Unfinished)], open + [|caps|])
    case Here => if |caps| >= 32 then Stuck else Moved(s, caps + [Capture(s, Position)], open)
    case Finish =>
      if open == [] then Stuck
      else
        var l := open[|open| - 1];
        Moved(s, caps[l := Capture(caps[l].init, Closed(s - caps[l].init))], open[..|open| - 1])
    case Between(b, e) =>
      var k := if s < |S| && S[s] == b then Partner(S, b, e, s, s + 1) else -1;
      if k < 0 then Stuck else Moved(k + 1, caps, open)
    case Edge(negative, elems) =>
      var before, after := (if s == 0 then 0 else S[s - 1]), (if s < |S| then S[s] else 0);
      if !SetAdmits(negative, elems, before) && SetAdmits(negative, elems, after) then Moved(s, caps, open) else Stuck
    case Again(n) =>
      if 1 <= n <= |caps| && caps[n - 1].len.Closed? then
        var text := S[caps[n - 1].init..caps[n - 1].init + caps[n - 1].len.n];
        if text <= S[s..] then Moved(s + |text|, caps, open) else Stuck
      else Stuck
  }

  /** The match of the pieces at `s`. */
  ghost function Best(S: seq<byte>, xs: seq<Piece>, anchored: bool, s: nat, caps: Captures, open: seq<nat>): Answer
    requires Fit(S, s, caps, open)
    decreases |xs|, 0, 0
  {
    if xs == [] then if anchored && s < |S| then No else Yes(s, caps)
    else
      var x, ys, next := xs[0], xs[1..], Forth(S, xs[0], s, caps, open);
      if x.Times? && x.rep.Star? then Most(S, x.cls, ys, anchored, s, caps, open)
      else if x.Times? && x.rep.Minus? then Fewest(S, x.cls, ys, anchored, s, caps, open)
      else if x.Times? && x.rep.Plus? then
        if next.Stuck? then No else Most(S, x.cls, ys, anchored, s + 1, caps, open)
      else
        var a := if next.Stuck? then No else Best(S, ys, anchored, next.s, next.caps, next.open);
        if a.No? && x.Times? && x.rep.Optional? then Best(S, ys, anchored, s, caps, open) else a
  }

  /** One more repetition, if that leads to a match, and otherwise the rest. */
  ghost function Most(S: seq<byte>, cls: Class, ys: seq<Piece>, anchored: bool, s: nat, caps: Captures, open: seq<nat>): Answer
    requires Fit(S, s, caps, open)
    decreases |ys|, 1, |S| - s
  {
    var a := if Accepts(S, cls, s) then Most(S, cls, ys, anchored, s + 1, caps, open) else No;
    if a.Yes? then a else Best(S, ys, anchored, s, caps, open)
  }

  /** The rest, if that leads to a match, and otherwise one more repetition. */
  ghost function Fewest(S: seq<byte>, cls: Class, ys: seq<Piece>, anchored: bool, s: nat, caps: Captures, open: seq<nat>): Answer
    requires Fit(S, s, caps, open)
    decreases |ys|, 1, |S| - s
  {
    var a := Best(S, ys, anchored, s, caps, open);
    if a.Yes? then a
    else if Accepts(S, cls, s) then Fewest(S, cls, ys, anchored, s + 1, caps, open)
    else No
  }

  // ---------------------------------------------------------------- balance

  lemma {:induction false} DepthCounts(S: seq<byte>, b: byte, e: byte, s: nat, k: nat)
    requires s <= k < |S| && S[s] == b
    ensures Depth(S, b, e, s, k) + multiset(S[s..k + 1])[e] == if b == e then 2 else multiset(S[s..k + 1])[b]
    decreases k
  {
    if s < k {
      DepthCounts(S, b, e, s, k - 1);
      assert S[s..k + 1] == S[s..k] + [S[k]];
    } else {
      assert S[s..k + 1] == [S[s]];
    }
  }

  /** The first place where the counts are even is where the balance is reached first. */
  lemma {:induction false} PartnerIs(S: seq<byte>, b: byte, e: byte, s: nat, k: nat)
    requires s < k && s < |S| && S[s] == b
    requires forall j | s <= j < k && j < |S| :: Depth(S, b, e, s, j) > 0
    ensures var r := Partner(S, b, e, s, k);
            if r < 0 then forall j :: !BalancedAt(S, b, e, s, j) else BalancedAt(S, b, e, s, r)
    decreases |S| - k
  {
    hide Depth, Even;
    if k < |S| {
      EvenIs(S, b, e, s, k);
      if !Even(S, b, e, s, k) {
        PartnerIs(S, b, e, s, k + 1);
      }
    }
  }

  lemma EvenIs(S: seq<byte>, b: byte, e: byte, s: nat, k: nat)
    requires s < k < |S| && S[s] == b && Depth(S, b, e, s, k - 1) > 0
    requires forall j | s <= j < k :: Depth(S, b, e, s, j) > 0
    ensures Even(S, b, e, s, k) <==> Depth(S, b, e, s, k) == 0
    ensures Depth(S, b, e, s, k) >= 0
  {
    DepthCounts(S, b, e, s, k);
    if b == e {
      DepthOfOne(S, b, s, k - 1);
    }
  }

  lemma {:induction false} DepthOfOne(S: seq<byte>, b: byte, s: nat, k: nat)
    requires s <= k < |S| && S[s] == b && forall j | s <= j <= k :: Depth(S, b, b, s, j) > 0
    ensures Depth(S, b, b, s, k) == 1
    decreases k
  {
    if s < k {
      DepthOfOne(S, b, s, k - 1);
    }
  }

  // ---------------------------------------------------------------- the same match

  /** The stack lists the unfinished captures, innermost last. */
  ghost predicate Held(S: seq<byte>, s: nat, caps: Captures, open: seq<nat>) {
    && Fit(S, s, caps, open)
    && (forall i, j | 0 <= i < j < |open| :: open[i] < open[j])
    && (forall i | 0 <= i < |open| :: caps[open[i]].len.Unfinished?)
    && (forall i | 0 <= i < |caps| && caps[i].len.Unfinished? :: i in open)
  }

  ghost predicate Same(a: Answer, S: seq<byte>, P: seq<byte>, p: nat, s: nat, caps: Captures) {
    match a
    case Yes(e, out) => Some(S, P, p, s, caps, e, out)
    case No => None(S, P, p, s, caps)
  }

  lemma HeldWithin(S: seq<byte>, s: nat, caps: Captures, open: seq<nat>)
    requires Held(S, s, caps, open)
    ensures s <= |S|
  {
  }

  lemma HeldLater(S: seq<byte>, s: nat, s': nat, caps: Captures, open: seq<nat>)
    requires Held(S, s, caps, open) && s <= s' <= |S|
    ensures Held(S, s', caps, open)
  {
  }

  lemma HeldBegin(S: seq<byte>, s: nat, caps: Captures, open: seq<nat>)
    requires Held(S, s, caps, open)
    ensures Held(S, s, caps + [Capture(s, Unfinished)], open + [|caps|])
  {
  }

  lemma HeldHere(S: seq<byte>, s: nat, caps: Captures, open: seq<nat>)
    requires Held(S, s, caps, open)
    ensures Held(S, s, caps + [Capture(s, Position)], open)
  {
  }

  lemma Innermost(S: seq<byte>, s: nat, caps: Captures, open: seq<nat>)
    requires Held(S, s, caps, open)
    ensures ToClose(caps) == if open == [] then -1 else open[|open| - 1]
  {
    hide ToClose;
    var l := ToClose(caps);
    if open != [] {
      assert caps[open[|open| - 1]].len.Unfinished?;
    }
    if l >= 0 {
      assert l in open;
    }
  }

  lemma HeldFinish(S: seq<byte>, s: nat, caps: Captures, open: seq<nat>)
    requires Held(S, s, caps, open) && open != []
    ensures var l := open[|open| - 1]; Held(S, s, caps[l := Capture(caps[l].init, Closed(s - caps[l].init))], open[..|open| - 1])
  {
  }

  lemma RefIs(S: seq<byte>, s: nat, caps: Captures, n: nat, digit: byte)
    requires Within(S, s, caps) && digit as int == 48 + n && 1 <= n <= 9
    ensures GoodRef(caps, digit) && Repeats(S, s, caps[RefIndex(digit)]) <==>
            n <= |caps| && caps[n - 1].len.Closed? && S[caps[n - 1].init..caps[n - 1].init + caps[n - 1].len.n] <= S[s..]
  {
    if n <= |caps| && caps[n - 1].len.Closed? {
      var len := caps[n - 1].len.n;
      assert s + len <= |S| ==> S[s..s + len] == S[s..][..len];
    }
  }

  lemma BalanceStep(S: seq<byte>, b: byte, e: byte, s: nat)
    requires s <= |S|
    ensures var k := if s < |S| && S[s] == b then Partner(S, b, e, s, s + 1) else -1;
            if k < 0 then forall j :: !BalancedAt(S, b, e, s, j) else BalancedAt(S, b, e, s, k)
  {
    hide Partner;
    if s < |S| && S[s] == b {
      PartnerIs(S, b, e, s, s + 1);
    }
  }

  /** The item does what its piece does. */
  ghost predicate Follows(S: seq<byte>, P: seq<byte>, i: Item, s: nat, caps: Captures, r: Stepped) {
    Forcing(i) && if r.Stuck? then forall s', caps' :: !StepTo(S, P, i, s, caps, s', caps')
                  else StepTo(S, P, i, s, caps, r.s, r.caps) && Held(S, r.s, r.caps, r.open)
  }

  /** An item that leaves no choice does what its piece does. */
  lemma ForthIs(S: seq<byte>, P: seq<byte>, p: nat, x: Piece, next: nat, i: Item, s: nat, caps: Captures, open: seq<nat>)
    requires Stands(P, p, x, next, i) && WrittenPiece(x) && Held(S, s, caps, open) && (x.Times? ==> x.rep.Once?)
    ensures Follows(S, P, i, s, caps, Forth(S, x, s, caps, open))
  {
    hide ToClose, SingleMatch, MatchSet, SetAdmits, Admits, Partner, BalancedAt, TextClass, WrittenSet, WrittenClass, Repeats, GoodRef;
    var r := Forth(S, x, s, caps, open);
    match x
    case Times(_, _) =>
      if r.Moved? {
        HeldLater(S, s, s + 1, caps, open);
      }
    case Edge(_, _) =>
    case Between(b, e) =>
      BalanceStep(S, b, e, s);
      if r.Moved? {
        HeldLater(S, s, r.s, caps, open);
      }
    case Begin => HeldBegin(S, s, caps, open);
    case Here => HeldHere(S, s, caps, open);
    case Finish => FinishIs(S, P, i, s, caps, open);
    case Again(n) => AgainIs(S, P, i, n, s, caps, open);
  }

  lemma FinishIs(S: seq<byte>, P: seq<byte>, i: Item, s: nat, caps: Captures, open: seq<nat>)
    requires i.Close? && Held(S, s, caps, open)
    ensures Follows(S, P, i, s, caps, Forth(S, Finish, s, caps, open))
  {
    hide ToClose;
    Innermost(S, s, caps, open);
    if open != [] {
      HeldFinish(S, s, caps, open);
    }
  }

  lemma AgainIs(S: seq<byte>, P: seq<byte>, i: Item, n: nat, s: nat, caps: Captures, open: seq<nat>)
    requires i.BackRef? && i.digit as int == 48 + n && 1 <= n <= 9 && Held(S, s, caps, open)
    ensures Follows(S, P, i, s, caps, Forth(S, Again(n), s, caps, open))
  {
    hide Repeats, GoodRef;
    var r := Forth(S, Again(n), s, caps, open);
    RefIs(S, s, caps, n, i.digit);
    if r.Moved? {
      HeldLater(S, s, r.s, caps, open);
    }
  }

  lemma Forwards(S: seq<byte>, P: seq<byte>, p: nat, s: nat, caps: Captures, s': nat, caps': Captures, a: Answer)
    requires Forcing(ItemAt(P, p)) && StepTo(S, P, ItemAt(P, p), s, caps, s', caps')
    requires Same(a, S, P, ItemAt(P, p).next, s', caps')
    ensures Same(a, S, P, p, s, caps)
  {
    hide Some, None, ItemAt, StepTo;
    ForcedSame(S, P, p, s, caps, s', caps');
  }

  lemma EndIs(S: seq<byte>, P: seq<byte>, p: nat, anchored: bool, s: nat, caps: Captures)
    requires ItemAt(P, p) == (if anchored then AtEnd else Item.End) && s <= |S|
    ensures Same(if anchored && s < |S| then No else Yes(s, caps), S, P, p, s, caps)
  {
    hide Some, None, ItemAt;
    if anchored && s < |S| {
      ForcedNone(S, P, p, s, caps);
    } else {
      EndFirst(S, P, p, s, caps);
    }
  }

  // ---------------------------------------------------------------- repetitions

  /** A repetition before others. */
  lemma RunOn(S: seq<byte>, P: seq<byte>, p: nat, ep: nat, cls: Class, s: nat)
    requires s <= |S| && forall c :: SingleMatch(P, p, ep, c) <==> Admits(cls, c)
    ensures Run(S, P, p, ep, s, 0) && (Run(S, P, p, ep, s, 1) <==> Accepts(S, cls, s))
    ensures forall k: nat | k > 0 :: Run(S, P, p, ep, s, k) <==> Accepts(S, cls, s) && Run(S, P, p, ep, s + 1, k - 1)
  {
  }

  ghost predicate LongestIs(a: Answer, S: seq<byte>, P: seq<byte>, from: nat, ep: nat, s: nat, caps: Captures) {
    match a
    case Yes(e, out) => exists k: nat :: Longest(S, P, from, ep, s, caps, k, e, out)
    case No => Nowhere(S, P, from, ep, s, caps)
  }

  ghost predicate ShortestIs(a: Answer, S: seq<byte>, P: seq<byte>, from: nat, ep: nat, s: nat, caps: Captures) {
    match a
    case Yes(e, out) => exists k: nat :: Shortest(S, P, from, ep, s, caps, k, e, out)
    case No => Nowhere(S, P, from, ep, s, caps)
  }

  lemma LongestOn(S: seq<byte>, P: seq<byte>, p: nat, ep: nat, cls: Class, s: nat, caps: Captures, a: Answer, b: Answer)
    requires s <= |S| && forall c :: SingleMatch(P, p, ep, c) <==> Admits(cls, c)
    requires Same(b, S, P, ep + 1, s, caps)
    requires if Accepts(S, cls, s) then LongestIs(a, S, P, p, ep, s + 1, caps) else a == No
    ensures LongestIs(if a.Yes? then a else b, S, P, p, ep, s, caps)
  {
    RunOn(S, P, p, ep, cls, s);
    hide Some, None, SingleMatch, Admits, Run;
    assert s + 0 == s;
    if a.Yes? {
      var k: nat :| Longest(S, P, p, ep, s + 1, caps, k, a.e, a.out);
      assert s + 1 + k == s + (k + 1);
      forall j: nat | j > k + 1 && Run(S, P, p, ep, s, j) ensures None(S, P, ep + 1, s + j, caps) {
        assert Run(S, P, p, ep, s + 1, j - 1);
        assert None(S, P, ep + 1, s + 1 + (j - 1), caps);
      }
      assert Longest(S, P, p, ep, s, caps, k + 1, a.e, a.out);
    } else {
      forall j: nat | j > 0 && Run(S, P, p, ep, s, j) ensures None(S, P, ep + 1, s + j, caps) {
        assert Run(S, P, p, ep, s + 1, j - 1);
        assert None(S, P, ep + 1, s + 1 + (j - 1), caps);
      }
      if b.Yes? {
        assert Longest(S, P, p, ep, s, caps, 0, b.e, b.out);
      }
    }
  }

  lemma ShortestOn(S: seq<byte>, P: seq<byte>, p: nat, ep: nat, cls: Class, s: nat, caps: Captures, a: Answer, b: Answer)
    requires s <= |S| && forall c :: SingleMatch(P, p, ep, c) <==> Admits(cls, c)
    requires Same(b, S, P, ep + 1, s, caps)
    requires if Accepts(S, cls, s) then ShortestIs(a, S, P, p, ep, s + 1, caps) else a == No
    ensures ShortestIs(if b.Yes? then b else a, S, P, p, ep, s, caps)
  {
    RunOn(S, P, p, ep, cls, s);
    hide Some, None, SingleMatch, Admits, Run;
    assert s + 0 == s;
    if b.Yes? {
      assert Shortest(S, P, p, ep, s, caps, 0, b.e, b.out);
    } else if a.Yes? {
      var k: nat :| Shortest(S, P, p, ep, s + 1, caps, k, a.e, a.out);
      assert s + 1 + k == s + (k + 1);
      forall j: nat | j < k + 1 && Run(S, P, p, ep, s, j) ensures None(S, P, ep + 1, s + j, caps) {
        if j > 0 {
          assert Run(S, P, p, ep, s + 1, j - 1);
          assert None(S, P, ep + 1, s + 1 + (j - 1), caps);
        }
      }
      assert Shortest(S, P, p, ep, s, caps, k + 1, a.e, a.out);
    } else {
      forall j: nat | Run(S, P, p, ep, s, j) ensures None(S, P, ep + 1, s + j, caps) {
        if j > 0 {
          assert Run(S, P, p, ep, s + 1, j - 1);
          assert None(S, P, ep + 1, s + 1 + (j - 1), caps);
        }
      }
    }
  }

  lemma {:induction false} MostIs(S: seq<byte>, P: seq<byte>, p: nat, ep: nat, cls: Class, ys: seq<Piece>, anchored: bool,
                                  s: nat, caps: Captures, open: seq<nat>)
    requires Reads(P, ep + 1, ys, anchored) && Held(S, s, caps, open)
    requires forall c :: SingleMatch(P, p, ep, c) <==> Admits(cls, c)
    ensures LongestIs(Most(S, cls, ys, anchored, s, caps, open), S, P, p, ep, s, caps)
    decreases |ys|, 1, |S| - s
  {
    hide Reads, Best, SingleMatch, Admits, LongestIs, Same;
    BestIsFirst(S, P, ep + 1, ys, anchored, s, caps, open);
    if Accepts(S, cls, s) {
      HeldLater(S, s, s + 1, caps, open);
      MostIs(S, P, p, ep, cls, ys, anchored, s + 1, caps, open);
    }
    var a := if Accepts(S, cls, s) then Most(S, cls, ys, anchored, s + 1, caps, open) else No;
    LongestOn(S, P, p, ep, cls, s, caps, a, Best(S, ys, anchored, s, caps, open));
  }

  lemma {:induction false} FewestIs(S: seq<byte>, P: seq<byte>, p: nat, ep: nat, cls: Class, ys: seq<Piece>, anchored: bool,
                                    s: nat, caps: Captures, open: seq<nat>)
    requires Reads(P, ep + 1, ys, anchored) && Held(S, s, caps, open)
    requires forall c :: SingleMatch(P, p, ep, c) <==> Admits(cls, c)
    ensures ShortestIs(Fewest(S, cls, ys, anchored, s, caps, open), S, P, p, ep, s, caps)
    decreases |ys|, 1, |S| - s
  {
    hide Reads, Best, SingleMatch, Admits, ShortestIs, Same;
    BestIsFirst(S, P, ep + 1, ys, anchored, s, caps, open);
    if Accepts(S, cls, s) {
      HeldLater(S, s, s + 1, caps, open);
      FewestIs(S, P, p, ep, cls, ys, anchored, s + 1, caps, open);
    }
    var a := if Accepts(S, cls, s) then Fewest(S, cls, ys, anchored, s + 1, caps, open) else No;
    ShortestOn(S, P, p, ep, cls, s, caps, a, Best(S, ys, anchored, s, caps, open));
  }

  lemma {:induction false} RepeatedIs(S: seq<byte>, P: seq<byte>, p: nat, ep: nat, xs: seq<Piece>, anchored: bool,
                                      s: nat, caps: Captures, open: seq<nat>)
    requires xs != [] && xs[0].Times? && !xs[0].rep.Once? && Reads(P, ep + 1, xs[1..], anchored) && Held(S, s, caps, open)
    requires Repeating(P, p, ep, xs[0].rep) && forall c :: SingleMatch(P, p, ep, c) <==> Admits(xs[0].cls, c)
    ensures Same(Best(S, xs, anchored, s, caps, open), S, P, p, s, caps)
    decreases |xs| - 1, 2, 0
  {
    hide Reads, Within, SingleMatch, Admits, Most, Fewest, Some, None, ItemAt, Longest, Shortest, Nowhere;
    var cls, ys := xs[0].cls, xs[1..];
    HeldWithin(S, s, caps, open);
    RunOn(S, P, p, ep, cls, s);
    if s < |S| {
      HeldLater(S, s, s + 1, caps, open);
    }
    match xs[0].rep
    case Star =>
      MostIs(S, P, p, ep, cls, ys, anchored, s, caps, open);
      StarTried(S, P, p, ep, s, caps);
    case Minus =>
      FewestIs(S, P, p, ep, cls, ys, anchored, s, caps, open);
      MinusTried(S, P, p, ep, s, caps);
    case Plus =>
      if Accepts(S, cls, s) {
        MostIs(S, P, p, ep, cls, ys, anchored, s + 1, caps, open);
      }
      PlusTried(S, P, p, ep, s, s + 1, caps);
    case Optional =>
      if Accepts(S, cls, s) {
        BestIsFirst(S, P, ep + 1, ys, anchored, s + 1, caps, open);
      }
      BestIsFirst(S, P, ep + 1, ys, anchored, s, caps, open);
      OptionalTried(S, P, p, ep, s, caps);
  }

  /** The match of the pieces is the derivation that takes precedence. */
  lemma {:induction false} BestIsFirst(S: seq<byte>, P: seq<byte>, p: nat, xs: seq<Piece>, anchored: bool, s: nat, caps: Captures, open: seq<nat>)
    requires Reads(P, p, xs, anchored) && Held(S, s, caps, open)
    ensures Same(Best(S, xs, anchored, s, caps, open), S, P, p, s, caps)
    decreases |xs|, 0, 0
  {
    hide Reads, Within, ItemAt, StepTo, Text, TextPiece, TextClass, Admits, Forth, Some, None, SingleMatch, WrittenPiece, Most, Fewest, Apart;
    NextReads(P, p, xs, anchored);
    HeldWithin(S, s, caps, open);
    if xs == [] {
      EndIs(S, P, p, anchored, s, caps);
    } else {
      var x, ys, q, i := xs[0], xs[1..], p + |TextPiece(xs[0])|, ItemAt(P, p);
      WrittenHead(P, p, xs, anchored);
      if x.Times? && !x.rep.Once? {
        RepeatedIs(S, P, p, p + |TextClass(x.cls)|, xs, anchored, s, caps, open);
      } else {
        var next := Forth(S, x, s, caps, open);
        ForthIs(S, P, p, x, q, i, s, caps, open);
        if next.Stuck? {
          ForcedNone(S, P, p, s, caps);
        } else {
          BestIsFirst(S, P, q, ys, anchored, next.s, next.caps, next.open);
          NextIs(P, p, x, q);
          Forwards(S, P, p, s, caps, next.s, next.caps, Best(S, ys, anchored, next.s, next.caps, next.open));
        }
      }
    }
  }

  lemma WrittenHead(P: seq<byte>, p: nat, xs: seq<Piece>, anchored: bool)
    requires Reads(P, p, xs, anchored) && xs != []
    ensures WrittenPiece(xs[0])
  {
  }

  lemma NextIs(P: seq<byte>, p: nat, x: Piece, next: nat)
    requires Stands(P, p, x, next, ItemAt(P, p)) && Forcing(ItemAt(P, p))
    ensures ItemAt(P, p).next == next
  {
    hide ItemAt;
  }

  // ---------------------------------------------------------------- patterns without errors

  /** Brackets of captures are opened before they are closed, back references refer to
      finished captures, and there are at most 32 captures, `n` of them so far. */
  predicate Sound(xs: seq<Piece>, n: nat, open: seq<nat>) {
    xs != [] ==>
      var ys := xs[1..];
      match xs[0]
      case Begin => n < 32 && Sound(ys, n + 1, open + [n])
      case Here => n < 32 && Sound(ys, n + 1, open)
      case Finish => open != [] && Sound(ys, n, open[..|open| - 1])
      case Again(k) => 1 <= k <= n && k - 1 !in open && Sound(ys, n, open)
      case _ => Sound(ys, n, open)
  }

  /** The stack lists the captures not yet finished, innermost last. */
  predicate Stacked(shape: seq<bool>, open: seq<nat>) {
    && (forall i, j | 0 <= i < j < |open| :: open[i] < open[j])
    && (forall i | 0 <= i < |open| :: open[i] < |shape| && !shape[open[i]])
    && (forall i | 0 <= i < |shape| && !shape[i] :: i in open)
  }

  lemma LastStacked(shape: seq<bool>, open: seq<nat>)
    requires Stacked(shape, open)
    ensures LastOpen(shape) == if open == [] then -1 else open[|open| - 1]
  {
    hide LastOpen;
    var l := LastOpen(shape);
    if open != [] {
      assert !shape[open[|open| - 1]];
    }
    if l >= 0 {
      assert l in open;
    }
  }

  lemma StackedOn(shape: seq<bool>, open: seq<nat>)
    requires Stacked(shape, open)
    ensures Stacked(shape + [false], open + [|shape|]) && Stacked(shape + [true], open)
    ensures open != [] ==> Stacked(shape[open[|open| - 1] := true], open[..|open| - 1])
  {
  }

  /** A pattern raises no error exactly if its captures are in order. */
  lemma {:induction false} SoundIs(P: seq<byte>, p: nat, xs: seq<Piece>, anchored: bool, shape: seq<bool>, open: seq<nat>)
    requires Reads(P, p, xs, anchored) && Stacked(shape, open)
    ensures WellFormed(P, p, shape) <==> Sound(xs, |shape|, open)
    decreases |xs|
  {
    hide Reads, Stacked, ItemAt, TextPiece, TextClass, SingleMatch, MatchSet, SetAdmits, Admits, Apart, LastOpen;
    NextReads(P, p, xs, anchored);
    if xs != [] {
      var x, ys, q := xs[0], xs[1..], p + |TextPiece(xs[0])|;
      StackedOn(shape, open);
      LastStacked(shape, open);
      match x
      case Begin => SoundIs(P, q, ys, anchored, shape + [false], open + [|shape|]);
      case Here => SoundIs(P, q, ys, anchored, shape + [true], open);
      case Finish =>
        if open != [] {
          SoundIs(P, q, ys, anchored, shape[open[|open| - 1] := true], open[..|open| - 1]);
        }
      case Again(k) =>
        if 1 <= k <= |shape| {
          Finished(shape, open, k);
        }
        SoundIs(P, q, ys, anchored, shape, open);
      case _ => SoundIs(P, q, ys, anchored, shape, open);
    }
  }

  lemma Finished(shape: seq<bool>, open: seq<nat>, k: nat)
    requires Stacked(shape, open) && 1 <= k <= |shape|
    ensures shape[k - 1] <==> k - 1 !in open
  {
  }

  // ---------------------------------------------------------------- searching

  /** Where a search starts: positions count from one, negative ones from the end. */
  function Start(pos: int, len: nat): nat {
    if pos > 0 then if pos - 1 <= len then pos - 1 else len
    else if pos < 0 then if len + pos >= 0 then len + pos else 0
    else 0
  }

  lemma StartMeans(pos: int, len: nat)
    ensures StartOf(pos, len) == Start(pos, len) <= len
  {
  }

  /** The first place from `s` on where the pieces match; under `^`, only `s`. */
  ghost function Leftmost(S: seq<byte>, xs: seq<Piece>, head: bool, anchored: bool, s: nat): Search
    requires s <= |S|
    decreases |S| - s
  {
    var a := Best(S, xs, anchored, s, [], []);
    if a.Yes? then FoundAt(s, a.e, a.out)
    else if head || s == |S| then NotFound
    else Leftmost(S, xs, head, anchored, s + 1)
  }

  function WholeText(xs: seq<Piece>, head: bool, anchored: bool): seq<byte> {
    (if head then [94] else []) + Text(xs, anchored)
  }

  /** The search for a written pattern gives the leftmost match of its pieces, captures
      included; it raises an error only if the captures are not in order. */
  lemma FindMeans(S: seq<byte>, xs: seq<Piece>, head: bool, anchored: bool, pos: int, r: Search)
    requires Written(xs) && Answers(S, WholeText(xs, head, anchored), pos, r)
    ensures if r.SearchError? then !Sound(xs, 0, []) else r == Leftmost(S, xs, head, anchored, Start(pos, |S|))
  {
    hide *;
    WholeReads(xs, head, anchored);
    StartMeans(pos, |S|);
    Searched(S, WholeText(xs, head, anchored), if head then 1 else 0, xs, head, anchored, pos, r);
  }

  lemma WholeReads(xs: seq<Piece>, head: bool, anchored: bool)
    requires Written(xs)
    ensures Reads(WholeText(xs, head, anchored), if head then 1 else 0, xs, anchored)
    ensures At(WholeText(xs, head, anchored), 0) == 94 <==> head
  {
    var P, p := WholeText(xs, head, anchored), if head then 1 else 0;
    assert P[p..] == Text(xs, anchored);
    NextReads(P, p, xs, anchored);
  }

  lemma Searched(S: seq<byte>, P: seq<byte>, p: nat, xs: seq<Piece>, head: bool, anchored: bool, pos: int, r: Search)
    requires Reads(P, p, xs, anchored) && (At(P, 0) == 94 <==> head) && p == (if head then 1 else 0) && Answers(S, P, pos, r)
    ensures if r.SearchError? then !Sound(xs, 0, []) else r == Leftmost(S, xs, head, anchored, StartOf(pos, |S|))
  {
    hide Some, None, WellFormed, Reads, StartOf, Sound, Best;
    assert p == Body(P);
    match r
    case SearchError(_) => SoundIs(P, p, xs, anchored, [], []);
    case FoundAt(s, e, caps) =>
      BestAlone(S, P, p, xs, anchored, s);
      SomeAlone(S, P, p, s, e, caps);
      SkipTo(S, P, p, xs, head, anchored, StartOf(pos, |S|), s);
    case NotFound =>
      var last := if head then StartOf(pos, |S|) else |S|;
      BestAlone(S, P, p, xs, anchored, last);
      assert None(S, P, p, last, []);
      NoneAlone(S, P, p, last);
      SkipTo(S, P, p, xs, head, anchored, StartOf(pos, |S|), last);
  }

  lemma SomeAlone(S: seq<byte>, P: seq<byte>, p: nat, s: nat, e: nat, out: Captures)
    requires Some(S, P, p, s, [], e, out)
    ensures !None(S, P, p, s, [])
    ensures forall e', out' | Some(S, P, p, s, [], e', out') :: e' == e && out' == out
  {
    forall e', out' | Some(S, P, p, s, [], e', out') ensures e' == e && out' == out {
      SomeOnce(S, P, p, s, [], e, out, e', out');
    }
  }

  lemma BestAlone(S: seq<byte>, P: seq<byte>, p: nat, xs: seq<Piece>, anchored: bool, s: nat)
    requires Reads(P, p, xs, anchored) && s <= |S|
    ensures Same(Best(S, xs, anchored, s, [], []), S, P, p, s, [])
  {
    hide Best, Reads, Same;
    BestIsFirst(S, P, p, xs, anchored, s, [], []);
  }

  lemma {:induction false} SkipTo(S: seq<byte>, P: seq<byte>, p: nat, xs: seq<Piece>, head: bool, anchored: bool, from: nat, to: nat)
    requires Reads(P, p, xs, anchored) && from <= to <= |S| && (head ==> from == to)
    requires forall q | from <= q < to :: None(S, P, p, q, [])
    ensures Leftmost(S, xs, head, anchored, from) == Leftmost(S, xs, head, anchored, to)
    decreases |S| - from
  {
    hide Best, Reads, None, Some;
    if from < to {
      BestAlone(S, P, p, xs, anchored, from);
      NoneAlone(S, P, p, from);
      SkipTo(S, P, p, xs, head, anchored, from + 1, to);
    }
  }

  lemma NoneAlone(S: seq<byte>, P: seq<byte>, p: nat, s: nat)
    requires None(S, P, p, s, [])
    ensures forall e, out :: !Some(S, P, p, s, [], e, out)
  {
    hide Derives, Precedes;
  }
}
