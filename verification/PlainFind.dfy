/**
 `string.find`: a plain search when the pattern has no special characters, else a
 search for the pattern; and when the two would agree.
 */
module PlainFind {
  import opened Bytes
  import opened Pattern
  import opened Derivation
  import opened Matcher

  /** One of `^$*+?.([%-`. */
  predicate Special(c: byte) {
    c == 94 || c == 36 || c == 42 || c == 43 || c == 63 || c == 46 || c == 40 || c == 91 || c == 37 || c == 45
  }

  /** `strpbrk` finds none, up to the first zero. */
  predicate NoSpecials(P: seq<byte>) {
    P == [] || P[0] == 0 || (!Special(P[0]) && NoSpecials(P[1..]))
  }

  predicate Occurs(S: seq<byte>, P: seq<byte>, s: nat) {
    s + |P| <= |S| && S[s..s + |P|] == P
  }

  predicate NoneIn(S: seq<byte>, P: seq<byte>, from: nat, to: nat) {
    forall k | from <= k < to :: !Occurs(S, P, k)
  }

  /** Where its first character is not, the string is not. */
  lemma NoFirst(S: seq<byte>, P: seq<byte>, from: nat, to: nat)
    requires P != [] && from <= to <= |S| && P[0] !in S[from..to]
    ensures NoneIn(S, P, from, to)
  {
    forall k | from <= k < to ensures !Occurs(S, P, k) {
      assert S[k] == S[from..to][k - from];
      assert k + |P| <= |S| ==> S[k..k + |P|][0] == S[k];
    }
  }

  /** `memchr`: the first `c` among `n` bytes from `from` on, or -1. */
  method MemChr(S: seq<byte>, from: nat, c: byte, n: nat) returns (i: int)
    requires from + n <= |S|
    ensures i == -1 ==> c !in S[from..from + n]
    ensures i != -1 ==> from <= i < from + n && S[i] == c && c !in S[from..i]
  {
    i := from;
    while i < from + n
      invariant from <= i <= from + n && c !in S[from..i]
    {
      if S[i] == c {
        return;
      }
      i := i + 1;
    }
    return -1;
  }

  /** `lmemfind`: where the string first occurs, from `init` on, or -1. */
  method LMemFind(S: seq<byte>, init: nat, P: seq<byte>) returns (i: int)
    requires init <= |S|
    ensures i == -1 ==> NoneIn(S, P, init, |S| + 1)
    ensures i != -1 ==> init <= i && Occurs(S, P, i) && NoneIn(S, P, init, i)
  {
    if |P| == 0 {
      return init;
    } else if |P| > |S| - init {
      return -1;
    }
    var l2 := |P| - 1;
    var s1 := init;
    var l1 := |S| - init - l2;
    while l1 > 0
      invariant init <= s1 && 0 <= l1 && s1 + l1 + l2 == |S|
      invariant NoneIn(S, P, init, s1)
      decreases l1
    {
      var q := MemChr(S, s1, P[0], l1);
      NoFirst(S, P, s1, if q == -1 then s1 + l1 else q);
      if q == -1 {
        return -1;
      }
      if S[q + 1..q + 1 + l2] == P[1..] {
        assert S[q..q + |P|] == [S[q]] + S[q + 1..q + 1 + l2];
        return q;
      }
      assert S[q..q + |P|][1..] == S[q + 1..q + 1 + l2];
      l1 := l1 - (q + 1 - s1);
      s1 := q + 1;
    }
    return -1;
  }

  /** Where the string first occurs from the start position. */
  ghost predicate PlainAnswers(S: seq<byte>, P: seq<byte>, pos: int, r: Search) {
    var init := StartOf(pos, |S|);
    match r
    case FoundAt(s, e, caps) =>
      init <= s && Occurs(S, P, s) && e == s + |P| && caps == [] && NoneIn(S, P, init, s)
    case NotFound => NoneIn(S, P, init, |S| + 1)
    case SearchError(_) => false
  }

  /** `str_find_aux`, as `string.find` calls it. */
  method StrFind(S: seq<byte>, P: seq<byte>, pos: int, plain: bool) returns (r: Search)
    ensures if plain || NoSpecials(P) then PlainAnswers(S, P, pos, r) else Answers(S, P, pos, r)
  {
    if plain || NoSpecials(P) {
      var i := LMemFind(S, StartOf(pos, |S|), P);
      return if i == -1 then NotFound else FoundAt(i, i + |P|, []);
    }
    r := Find(S, P, pos);
  }

  // ---------------------------------------------------------------- where both searches agree

  /** A character that stands for itself in every place of a pattern. */
  predicate Literal(c: byte) { c != 0 && c != 41 && !Special(c) }

  predicate AllLiteral(P: seq<byte>, p: nat, n: nat) {
    n <= |P| && forall k | p <= k < n :: Literal(P[k])
  }

  /** `P[p..n]` lies in the subject at `s`. */
  predicate Lies(S: seq<byte>, P: seq<byte>, p: nat, n: nat, s: nat)
    requires p <= n <= |P|
  {
    s + (n - p) <= |S| && S[s..s + (n - p)] == P[p..n]
  }

  lemma LiteralItem(P: seq<byte>, p: nat, n: nat)
    requires p < n && AllLiteral(P, p, n) && (n == |P| || P[n] == 0 || P[n] == 41)
    ensures ItemAt(P, p) == Single(p, p + 1, Once, p + 1)
  {
    assert Literal(P[p]) && (p + 1 < n ==> Literal(P[p + 1]));
  }

  lemma LiesOn(S: seq<byte>, P: seq<byte>, p: nat, n: nat, s: nat)
    requires p < n <= |P|
    ensures Lies(S, P, p, n, s) <==> s < |S| && S[s] == P[p] && Lies(S, P, p + 1, n, s + 1)
  {
    if s < |S| && s + (n - p) <= |S| {
      assert S[s..s + (n - p)] == [S[s]] + S[s + 1..s + (n - p)];
      assert P[p..n] == [P[p]] + P[p + 1..n];
    }
  }

  /** Literal characters up to the end of a pattern have one derivation. */
  lemma {:induction false} LiteralDerives(S: seq<byte>, P: seq<byte>, p: nat, n: nat, s: nat, t: seq<nat>, e: nat, out: Captures)
    requires p <= n && AllLiteral(P, p, n) && (n == |P| || P[n] == 0) && s <= |S|
    ensures Derives(S, P, p, s, [], t, e, out) <==> t == [] && out == [] && e == s + (n - p) && Lies(S, P, p, n, s)
    decreases n - p
  {
    hide Derives, ItemAt, Literal, Special;
    if p < n {
      LiteralItem(P, p, n);
      LiesOn(S, P, p, n, s);
      LiteralStep(S, P, p, n, s, t, e, out);
      if s < |S| {
        LiteralDerives(S, P, p + 1, n, s + 1, t, e, out);
      }
    } else {
      EndDerives(S, P, n, s, t, e, out);
    }
  }

  lemma EndDerives(S: seq<byte>, P: seq<byte>, n: nat, s: nat, t: seq<nat>, e: nat, out: Captures)
    requires n == |P| || (n < |P| && P[n] == 0)
    ensures Derives(S, P, n, s, [], t, e, out) <==> t == [] && out == [] && e == s
  {
    assert ItemAt(P, n) == Item.End;
  }

  lemma LiteralStep(S: seq<byte>, P: seq<byte>, p: nat, n: nat, s: nat, t: seq<nat>, e: nat, out: Captures)
    requires p < n && AllLiteral(P, p, n) && ItemAt(P, p) == Single(p, p + 1, Once, p + 1)
    ensures Derives(S, P, p, s, [], t, e, out) <==> s < |S| && S[s] == P[p] && Derives(S, P, p + 1, s + 1, [], t, e, out)
  {
    var i := ItemAt(P, p);
    assert Literal(P[p]);
    assert s < |S| && S[s] == P[p] <==> Run(S, P, p, p + 1, s, 1);
    if s < |S| && S[s] == P[p] && Derives(S, P, p + 1, s + 1, [], t, e, out) {
      assert StepTo(S, P, i, s, [], s + 1, []);
    }
  }

  /** A bracket that closes nothing derives nothing. */
  lemma {:induction false} CloseStuck(S: seq<byte>, P: seq<byte>, p: nat, n: nat, s: nat, t: seq<nat>, e: nat, out: Captures)
    requires p <= n < |P| && AllLiteral(P, p, n) && P[n] == 41
    ensures !Derives(S, P, p, s, [], t, e, out)
    decreases n - p
  {
    hide Literal, Special, Derives, ItemAt;
    if p < n {
      LiteralItem(P, p, n);
      CloseStuck(S, P, p + 1, n, s + 1, t, e, out);
      LiteralStep(S, P, p, n, s, t, e, out);
    } else {
      NothingToClose(S, P, n, s, t, e, out);
    }
  }

  lemma NothingToClose(S: seq<byte>, P: seq<byte>, n: nat, s: nat, t: seq<nat>, e: nat, out: Captures)
    requires n < |P| && P[n] == 41
    ensures !Derives(S, P, n, s, [], t, e, out)
  {
    assert ItemAt(P, n) == Close(n + 1);
  }

  /** At `s` the pattern is found if and only if the string is there. */
  ghost predicate Agree(S: seq<byte>, P: seq<byte>, s: nat) {
    Occurs(S, P, s) <==> exists e, out :: Some(S, P, 0, s, [], e, out)
  }

  /** For a pattern without special characters the plain search finds what the search
      for the pattern would find, in every subject, exactly if the pattern has no zero
      and no closing bracket. */
  lemma PlainAgrees(P: seq<byte>)
    requires NoSpecials(P)
    ensures AllLiteral(P, 0, |P|) <==> forall S, s | 0 <= s <= |S| :: Agree(S, P, s)
  {
    if AllLiteral(P, 0, |P|) {
      forall S, s | 0 <= s <= |S| ensures Agree(S, P, s) {
        LiteralAgrees(S, P, s);
      }
    } else {
      var k := FirstOdd(P);
      if P[k] == 0 {
        ZeroDisagrees(P, k);
      } else {
        BracketDisagrees(P, k);
      }
    }
  }

  lemma LiteralAgrees(S: seq<byte>, P: seq<byte>, s: nat)
    requires AllLiteral(P, 0, |P|) && s <= |S|
    ensures Agree(S, P, s)
    ensures Occurs(S, P, s) ==> Some(S, P, 0, s, [], s + |P|, [])
    ensures !Occurs(S, P, s) ==> None(S, P, 0, s, [])
  {
    assert P[0..|P|] == P;
    forall t, e, out
      ensures Derives(S, P, 0, s, [], t, e, out) <==> t == [] && out == [] && e == s + |P| && Occurs(S, P, s)
    {
      LiteralDerives(S, P, 0, |P|, s, t, e, out);
    }
    if Occurs(S, P, s) {
      assert First(S, P, 0, s, [], [], s + |P|, []);
      assert Some(S, P, 0, s, [], s + |P|, []);
    } else {
      forall e, out ensures !Some(S, P, 0, s, [], e, out) {
      }
    }
  }

  /** The first character that is not literal. */
  lemma {:induction false} FirstOdd(P: seq<byte>) returns (k: nat)
    requires NoSpecials(P) && !AllLiteral(P, 0, |P|)
    ensures k < |P| && AllLiteral(P, 0, k) && (P[k] == 0 || P[k] == 41)
  {
    if Literal(P[0]) {
      assert forall i | 0 <= i < |P| - 1 :: P[1..][i] == P[i + 1];
      k := FirstOdd(P[1..]);
      k := k + 1;
      assert forall i | 1 <= i < k :: P[i] == P[1..][i - 1];
    } else {
      k := 0;
    }
  }

  /** The search for a pattern stops at its zero, the plain search does not. */
  lemma ZeroDisagrees(P: seq<byte>, k: nat)
    requires k < |P| && AllLiteral(P, 0, k) && P[k] == 0
    ensures !Agree(P[..k], P, 0)
  {
    var S := P[..k];
    forall t, e, out ensures Derives(S, P, 0, 0, [], t, e, out) <==> t == [] && out == [] && e == k {
      LiteralDerives(S, P, 0, k, 0, t, e, out);
    }
    assert First(S, P, 0, 0, [], [], k, []);
    assert Some(S, P, 0, 0, [], k, []);
  }

  lemma BracketDisagrees(P: seq<byte>, k: nat)
    requires k < |P| && AllLiteral(P, 0, k) && P[k] == 41
    ensures !Agree(P, P, 0)
  {
    assert Occurs(P, P, 0);
    forall e, out ensures !Some(P, P, 0, 0, [], e, out) {
      forall t ensures !Derives(P, P, 0, 0, [], t, e, out) {
        CloseStuck(P, P, 0, k, 0, t, e, out);
      }
    }
  }
}
