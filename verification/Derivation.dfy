/**
 The derivation that takes precedence, item by item.
 */
module Derivation {
  import opened Bytes
  import opened Pattern

  /** `t` derives a match, and takes precedence over all other derivations. */
  ghost predicate First(S: seq<byte>, P: seq<byte>, p: nat, s: nat, caps: Captures, t: seq<nat>, e: nat, out: Captures) {
    && Derives(S, P, p, s, caps, t, e, out)
    && forall u, e', out' | Derives(S, P, p, s, caps, u, e', out') :: u == t || Precedes(P, p, t, u)
  }

  ghost predicate Some(S: seq<byte>, P: seq<byte>, p: nat, s: nat, caps: Captures, e: nat, out: Captures) {
    exists t :: First(S, P, p, s, caps, t, e, out)
  }

  ghost predicate None(S: seq<byte>, P: seq<byte>, p: nat, s: nat, caps: Captures) {
    forall t, e, out :: !Derives(S, P, p, s, caps, t, e, out)
  }

  // ---------------------------------------------------------------- general facts

  lemma StepOnce(S: seq<byte>, P: seq<byte>, i: Item, s: nat, caps: Captures, s1: nat, caps1: Captures, s2: nat, caps2: Captures)
    requires StepTo(S, P, i, s, caps, s1, caps1) && StepTo(S, P, i, s, caps, s2, caps2)
    ensures s1 == s2 && caps1 == caps2
  {
    if i.Balance? {
      BalancedOnce(S, i.b, i.e, s, s1 - 1, s2 - 1);
    }
  }

  lemma BalancedOnce(S: seq<byte>, b: byte, e: byte, s: nat, j: nat, k: nat)
    requires BalancedAt(S, b, e, s, j) && BalancedAt(S, b, e, s, k)
    ensures j == k
  {
    hide Depth;
    assert j >= k && k >= j;
  }

  /** The repetitions determine the match. */
  lemma {:induction false} DerivesOnce(S: seq<byte>, P: seq<byte>, p: nat, s: nat, caps: Captures, t: seq<nat>,
                                       e: nat, out: Captures, e': nat, out': Captures)
    requires Derives(S, P, p, s, caps, t, e, out) && Derives(S, P, p, s, caps, t, e', out')
    ensures e == e' && out == out'
    decreases |P| - p
  {
    hide StepTo, ItemAt;
    var i := ItemAt(P, p);
    if Repeated(i) {
      DerivesOnce(S, P, i.next, s + t[0], caps, t[1..], e, out, e', out');
    } else if Forcing(i) {
      var s1, caps1 :| StepTo(S, P, i, s, caps, s1, caps1) && Derives(S, P, i.next, s1, caps1, t, e, out);
      var s2, caps2 :| StepTo(S, P, i, s, caps, s2, caps2) && Derives(S, P, i.next, s2, caps2, t, e', out');
      StepOnce(S, P, i, s, caps, s1, caps1, s2, caps2);
      DerivesOnce(S, P, i.next, s1, caps1, t, e, out, e', out');
    }
  }

  /** Of two different derivations, exactly one takes precedence. */
  lemma {:induction false} Ranked(S: seq<byte>, P: seq<byte>, p: nat, s: nat, caps: Captures, t: seq<nat>, e: nat, out: Captures,
                                  s': nat, caps': Captures, u: seq<nat>, e': nat, out': Captures)
    requires Derives(S, P, p, s, caps, t, e, out) && Derives(S, P, p, s', caps', u, e', out')
    ensures t != u <==> Precedes(P, p, t, u) || Precedes(P, p, u, t)
    ensures !(Precedes(P, p, t, u) && Precedes(P, p, u, t))
    decreases |P| - p
  {
    hide StepTo, ItemAt;
    var i := ItemAt(P, p);
    if Repeated(i) {
      assert t == [t[0]] + t[1..] && u == [u[0]] + u[1..];
      if t[0] == u[0] {
        Ranked(S, P, i.next, s + t[0], caps, t[1..], e, out, s' + u[0], caps', u[1..], e', out');
      }
    } else if Forcing(i) {
      var s1, caps1 :| StepTo(S, P, i, s, caps, s1, caps1) && Derives(S, P, i.next, s1, caps1, t, e, out);
      var s2, caps2 :| StepTo(S, P, i, s', caps', s2, caps2) && Derives(S, P, i.next, s2, caps2, u, e', out');
      Ranked(S, P, i.next, s1, caps1, t, e, out, s2, caps2, u, e', out');
    }
  }

  /** There is only one match that takes precedence. */
  lemma SomeOnce(S: seq<byte>, P: seq<byte>, p: nat, s: nat, caps: Captures, e: nat, out: Captures, e': nat, out': Captures)
    requires Some(S, P, p, s, caps, e, out) && Some(S, P, p, s, caps, e', out')
    ensures e == e' && out == out'
  {
    hide Derives, Precedes;
    var t :| First(S, P, p, s, caps, t, e, out);
    var u :| First(S, P, p, s, caps, u, e', out');
    Ranked(S, P, p, s, caps, t, e, out, s, caps, u, e', out');
    assert t == u;
    DerivesOnce(S, P, p, s, caps, t, e, out, e', out');
  }

  // ---------------------------------------------------------------- items without a choice

  lemma ForcedSame(S: seq<byte>, P: seq<byte>, p: nat, s: nat, caps: Captures, s': nat, caps': Captures)
    requires Forcing(ItemAt(P, p)) && StepTo(S, P, ItemAt(P, p), s, caps, s', caps')
    ensures None(S, P, ItemAt(P, p).next, s', caps') ==> None(S, P, p, s, caps)
    ensures forall e, out :: Some(S, P, ItemAt(P, p).next, s', caps', e, out) ==> Some(S, P, p, s, caps, e, out)
  {
    hide StepTo, ItemAt;
    var i := ItemAt(P, p);
    forall t, e, out ensures Derives(S, P, p, s, caps, t, e, out) <==> Derives(S, P, i.next, s', caps', t, e, out) {
      if Derives(S, P, p, s, caps, t, e, out) {
        var s1, caps1 :| StepTo(S, P, i, s, caps, s1, caps1) && Derives(S, P, i.next, s1, caps1, t, e, out);
        StepOnce(S, P, i, s, caps, s', caps', s1, caps1);
      }
    }
    assert forall t, u :: Precedes(P, p, t, u) <==> Precedes(P, i.next, t, u);
    hide Derives, Precedes;
    forall e, out | Some(S, P, i.next, s', caps', e, out) ensures Some(S, P, p, s, caps, e, out) {
      var t :| First(S, P, i.next, s', caps', t, e, out);
      assert First(S, P, p, s, caps, t, e, out);
    }
  }

  lemma ForcedNone(S: seq<byte>, P: seq<byte>, p: nat, s: nat, caps: Captures)
    requires var i := ItemAt(P, p);
             i.Bad? || (i.AtEnd? && s != |S|) || (Forcing(i) && forall s', caps' :: !StepTo(S, P, i, s, caps, s', caps'))
    ensures None(S, P, p, s, caps)
  {
    hide StepTo, ItemAt;
  }

  lemma EndFirst(S: seq<byte>, P: seq<byte>, p: nat, s: nat, caps: Captures)
    requires ItemAt(P, p).End? || (ItemAt(P, p).AtEnd? && s == |S|)
    ensures Some(S, P, p, s, caps, s, caps)
  {
    assert First(S, P, p, s, caps, [], s, caps);
  }

  // ---------------------------------------------------------------- repetitions

  /** Among the repetitions allowed, `k` is the first to be tried that can be followed
      by a match. */
  ghost predicate Chosen(S: seq<byte>, P: seq<byte>, from: nat, ep: nat, rep: Repetition, s: nat, caps: Captures, k: nat, e: nat, out: Captures) {
    && Allowed(rep, k) && Run(S, P, from, ep, s, k) && Some(S, P, ep + 1, s + k, caps, e, out)
    && forall j: nat | Allowed(rep, j) && Run(S, P, from, ep, s, j) && (if rep.Minus? then j < k else j > k) ::
         None(S, P, ep + 1, s + j, caps)
  }

  lemma ChosenFirst(S: seq<byte>, P: seq<byte>, p: nat, s: nat, caps: Captures, k: nat, e: nat, out: Captures)
    requires var i := ItemAt(P, p);
             i.Single? && !i.rep.Once? && i.next == i.ep + 1 && Chosen(S, P, p, i.ep, i.rep, s, caps, k, e, out)
    ensures Some(S, P, p, s, caps, e, out)
  {
    var i := ItemAt(P, p);
    var t :| First(S, P, i.next, s + k, caps, t, e, out);
    var w := [k] + t;
    assert w[1..] == t;
    assert Derives(S, P, p, s, caps, w, e, out);
    forall u, e', out' | Derives(S, P, p, s, caps, u, e', out') ensures u == w || Precedes(P, p, w, u) {
      assert Derives(S, P, i.next, s + u[0], caps, u[1..], e', out');
      assert u == [u[0]] + u[1..];
      assert u[0] == k || if i.rep.Minus? then u[0] > k else u[0] < k;
    }
    assert First(S, P, p, s, caps, w, e, out);
  }

  lemma NoneAllowed(S: seq<byte>, P: seq<byte>, p: nat, s: nat, caps: Captures)
    requires var i := ItemAt(P, p);
             i.Single? && !i.rep.Once? && i.next == i.ep + 1
             && forall j: nat | Allowed(i.rep, j) && Run(S, P, p, i.ep, s, j) :: None(S, P, i.ep + 1, s + j, caps)
    ensures None(S, P, p, s, caps)
  {
    forall t, e, out ensures !Derives(S, P, p, s, caps, t, e, out) {
      NotDerived(S, P, p, s, caps, t, e, out);
    }
  }

  lemma NotDerived(S: seq<byte>, P: seq<byte>, p: nat, s: nat, caps: Captures, t: seq<nat>, e: nat, out: Captures)
    requires var i := ItemAt(P, p);
             i.Single? && !i.rep.Once? && i.next == i.ep + 1
             && forall j: nat | Allowed(i.rep, j) && Run(S, P, p, i.ep, s, j) :: None(S, P, i.ep + 1, s + j, caps)
    ensures !Derives(S, P, p, s, caps, t, e, out)
  {
    hide Run;
    var i := ItemAt(P, p);
    if t != [] && Allowed(i.rep, t[0]) && Run(S, P, p, i.ep, s, t[0]) {
      assert None(S, P, i.ep + 1, s + t[0], caps);
    }
  }

  // ---------------------------------------------------------------- well-formed patterns

  lemma {:induction false} LastOpenIs(caps: Captures)
    ensures LastOpen(Shape(caps)) == ToClose(caps)
  {
    if caps != [] {
      var n := |caps| - 1;
      assert Shape(caps)[..n] == Shape(caps[..n]);
      LastOpenIs(caps[..n]);
    }
  }

  /** Whether captures are finished can be told from the pattern. */
  lemma StepShape(S: seq<byte>, P: seq<byte>, p: nat, s: nat, caps: Captures, s': nat, caps': Captures)
    requires var i := ItemAt(P, p); Forcing(i) && StepTo(S, P, i, s, caps, s', caps')
    ensures WellFormed(P, p, Shape(caps)) ==> WellFormed(P, ItemAt(P, p).next, Shape(caps'))
  {
    var i := ItemAt(P, p);
    LastOpenIs(caps);
    match i
    case Open(position, _) => assert Shape(caps') == Shape(caps) + [position];
    case Close(_) => assert Shape(caps') == Shape(caps)[ToClose(caps) := true];
    case _ =>
  }

  /** What the rest of the pattern comes to, so does the item before it. */
  lemma Forwarded(S: seq<byte>, P: seq<byte>, p: nat, s: nat, caps: Captures, s': nat, caps': Captures)
    requires var i := ItemAt(P, p); Forcing(i) && StepTo(S, P, i, s, caps, s', caps')
    ensures None(S, P, ItemAt(P, p).next, s', caps') ==> None(S, P, p, s, caps)
    ensures forall e, out :: Some(S, P, ItemAt(P, p).next, s', caps', e, out) ==> Some(S, P, p, s, caps, e, out)
    ensures WellFormed(P, p, Shape(caps)) ==> WellFormed(P, ItemAt(P, p).next, Shape(caps'))
  {
    hide StepTo, ItemAt, None, Some, WellFormed;
    ForcedSame(S, P, p, s, caps, s', caps');
    StepShape(S, P, p, s, caps, s', caps');
  }

  // ---------------------------------------------------------------- the ways to repeat

  /** The most repetitions that can be followed by a match. */
  ghost predicate Longest(S: seq<byte>, P: seq<byte>, from: nat, ep: nat, s: nat, caps: Captures, k: nat, e: nat, out: Captures) {
    && Run(S, P, from, ep, s, k) && Some(S, P, ep + 1, s + k, caps, e, out)
    && forall j | j > k && Run(S, P, from, ep, s, j) :: None(S, P, ep + 1, s + j, caps)
  }

  ghost predicate Shortest(S: seq<byte>, P: seq<byte>, from: nat, ep: nat, s: nat, caps: Captures, k: nat, e: nat, out: Captures) {
    && Run(S, P, from, ep, s, k) && Some(S, P, ep + 1, s + k, caps, e, out)
    && forall j: nat | j < k && Run(S, P, from, ep, s, j) :: None(S, P, ep + 1, s + j, caps)
  }

  ghost predicate Nowhere(S: seq<byte>, P: seq<byte>, from: nat, ep: nat, s: nat, caps: Captures) {
    forall k: nat | Run(S, P, from, ep, s, k) :: None(S, P, ep + 1, s + k, caps)
  }

  ghost predicate Repeating(P: seq<byte>, p: nat, ep: nat, rep: Repetition) {
    !rep.Once? && ItemAt(P, p) == Single(p, ep, rep, ep + 1)
  }

  lemma StarTried(S: seq<byte>, P: seq<byte>, p: nat, ep: nat, s: nat, caps: Captures)
    requires Repeating(P, p, ep, Star)
    ensures Nowhere(S, P, p, ep, s, caps) ==> None(S, P, p, s, caps)
    ensures forall k, e, out :: Longest(S, P, p, ep, s, caps, k, e, out) ==> Some(S, P, p, s, caps, e, out)
  {
    hide None, Some, ItemAt;
    if Nowhere(S, P, p, ep, s, caps) {
      NoneAllowed(S, P, p, s, caps);
    }
    forall k, e, out | Longest(S, P, p, ep, s, caps, k, e, out) ensures Some(S, P, p, s, caps, e, out) {
      ChosenFirst(S, P, p, s, caps, k, e, out);
    }
  }

  lemma MinusTried(S: seq<byte>, P: seq<byte>, p: nat, ep: nat, s: nat, caps: Captures)
    requires Repeating(P, p, ep, Minus)
    ensures Nowhere(S, P, p, ep, s, caps) ==> None(S, P, p, s, caps)
    ensures forall k, e, out :: Shortest(S, P, p, ep, s, caps, k, e, out) ==> Some(S, P, p, s, caps, e, out)
  {
    hide None, Some, ItemAt;
    if Nowhere(S, P, p, ep, s, caps) {
      NoneAllowed(S, P, p, s, caps);
    }
    forall k, e, out | Shortest(S, P, p, ep, s, caps, k, e, out) ensures Some(S, P, p, s, caps, e, out) {
      ChosenFirst(S, P, p, s, caps, k, e, out);
    }
  }

  /** After one repetition, `+` goes on as `*`. */
  lemma PlusTried(S: seq<byte>, P: seq<byte>, p: nat, ep: nat, s: nat, s1: nat, caps: Captures)
    requires Repeating(P, p, ep, Plus) && s1 == s + 1
    ensures !Run(S, P, p, ep, s, 1) || Nowhere(S, P, p, ep, s1, caps) ==> None(S, P, p, s, caps)
    ensures Run(S, P, p, ep, s, 1) ==>
              forall k: nat, e, out :: Longest(S, P, p, ep, s1, caps, k, e, out) ==> Some(S, P, p, s, caps, e, out)
  {
    hide None, Some, ItemAt;
    forall j: nat | j >= 1 && Run(S, P, p, ep, s, j)
      ensures Run(S, P, p, ep, s, 1) && Run(S, P, p, ep, s1, j - 1) && s1 + (j - 1) == s + j
    {
    }
    if !Run(S, P, p, ep, s, 1) || Nowhere(S, P, p, ep, s1, caps) {
      forall j: nat | j >= 1 && Run(S, P, p, ep, s, j) ensures None(S, P, ep + 1, s + j, caps) {
        assert None(S, P, ep + 1, s1 + (j - 1), caps);
      }
      NoneAllowed(S, P, p, s, caps);
    }
    if Run(S, P, p, ep, s, 1) {
      forall k: nat, e, out | Longest(S, P, p, ep, s1, caps, k, e, out) ensures Some(S, P, p, s, caps, e, out) {
        assert s + (k + 1) == s1 + k;
        forall j: nat | j > k + 1 && Run(S, P, p, ep, s, j) ensures None(S, P, ep + 1, s + j, caps) {
          assert None(S, P, ep + 1, s1 + (j - 1), caps);
        }
        ChosenFirst(S, P, p, s, caps, k + 1, e, out);
      }
    }
  }

  lemma OptionalTried(S: seq<byte>, P: seq<byte>, p: nat, ep: nat, s: nat, caps: Captures)
    requires Repeating(P, p, ep, Optional) && s <= |S|
    ensures var m, next := Run(S, P, p, ep, s, 1), ep + 1;
            && (m ==> forall e, out :: Some(S, P, next, s + 1, caps, e, out) ==> Some(S, P, p, s, caps, e, out))
            && (!m || None(S, P, next, s + 1, caps) ==>
                  && (None(S, P, next, s, caps) ==> None(S, P, p, s, caps))
                  && forall e, out :: Some(S, P, next, s, caps, e, out) ==> Some(S, P, p, s, caps, e, out))
  {
    hide None, Some, ItemAt;
    var m, next := Run(S, P, p, ep, s, 1), ep + 1;
    assert s + 0 == s && Run(S, P, p, ep, s, 0) == (s <= |S|);
    if m {
      forall e, out | Some(S, P, next, s + 1, caps, e, out) ensures Some(S, P, p, s, caps, e, out) {
        ChosenFirst(S, P, p, s, caps, 1, e, out);
      }
    }
    if !m || None(S, P, next, s + 1, caps) {
      if None(S, P, next, s, caps) {
        NoneAllowed(S, P, p, s, caps);
      }
      forall e, out | Some(S, P, next, s, caps, e, out) ensures Some(S, P, p, s, caps, e, out) {
        ChosenFirst(S, P, p, s, caps, 0, e, out);
      }
    }
  }
}
