/**
 Patterns: what their items are, which strings they derive, and which derivation
 takes precedence.
 */
module Pattern {
  import opened Bytes

  /** Strings end in a zero byte that can be read. */
  function At(s: seq<byte>, i: nat): byte { if i < |s| then s[i] else 0 }

  const ESC: byte := 37

  const LUA_MAXCAPTURES: nat := 32

  // ---------------------------------------------------------------- character classes

  predicate IsUpper(c: byte) { 65 <= c <= 90 }
  predicate IsLower(c: byte) { 97 <= c <= 122 }
  predicate IsAlpha(c: byte) { IsUpper(c) || IsLower(c) }
  predicate IsDigit(c: byte) { 48 <= c <= 57 }
  predicate IsAlnum(c: byte) { IsAlpha(c) || IsDigit(c) }
  predicate IsCntrl(c: byte) { c < 32 || c == 127 }
  predicate IsSpace(c: byte) { c == 32 || 9 <= c <= 13 }
  predicate IsPunct(c: byte) { 33 <= c <= 126 && !IsAlnum(c) }
  predicate IsXDigit(c: byte) { IsDigit(c) || 65 <= c <= 70 || 97 <= c <= 102 }

  function ToLower(c: byte): byte { if IsUpper(c) then c + 32 else c }

  /** `match_class`: `%a` and the like, their complements in upper case, and any other
      character for itself. */
  predicate MatchClass(c: byte, cl: byte) {
    var k := ToLower(cl);
    if k == 97 then IsAlpha(c) == IsLower(cl)
    else if k == 99 then IsCntrl(c) == IsLower(cl)
    else if k == 100 then IsDigit(c) == IsLower(cl)
    else if k == 108 then IsLower(c) == IsLower(cl)
    else if k == 112 then IsPunct(c) == IsLower(cl)
    else if k == 115 then IsSpace(c) == IsLower(cl)
    else if k == 117 then IsUpper(c) == IsLower(cl)
    else if k == 119 then IsAlnum(c) == IsLower(cl)
    else if k == 120 then IsXDigit(c) == IsLower(cl)
    else if k == 122 then (c == 0) == IsLower(cl)
    else cl == c
  }

  /** What a set, from `p` up to its bracket at `ec`, lists. */
  predicate InSet(P: seq<byte>, p: nat, ec: nat, c: byte)
    decreases ec - p
  {
    if p >= ec then false
    else if At(P, p) == ESC then MatchClass(c, At(P, p + 1)) || InSet(P, p + 2, ec, c)
    else if At(P, p + 1) == 45 && p + 2 < ec then At(P, p) <= c <= At(P, p + 2) || InSet(P, p + 3, ec, c)
    else At(P, p) == c || InSet(P, p + 1, ec, c)
  }

  /** `matchbracketclass`, for the set that starts at `p`. */
  predicate MatchSet(P: seq<byte>, p: nat, ec: nat, c: byte) {
    if At(P, p + 1) == 94 then !InSet(P, p + 2, ec, c) else InSet(P, p + 1, ec, c)
  }

  /** `singlematch`, for the item from `p` to `ep`. */
  predicate SingleMatch(P: seq<byte>, p: nat, ep: nat, c: byte) {
    if At(P, p) == 46 then true
    else if At(P, p) == ESC then MatchClass(c, At(P, p + 1))
    else if At(P, p) == 91 then MatchSet(P, p, if ep > 0 then ep - 1 else 0, c)
    else At(P, p) == c
  }

  // ---------------------------------------------------------------- items

  datatype Ending = Ends(ep: nat) | Malformed(message: string)

  /** The end of a set whose next element is at `p`; the first one may be a bracket. */
  function SetEnd(P: seq<byte>, p: nat): (r: Ending)
    ensures r.Ends? ==> p + 1 < r.ep <= |P|
    decreases if p < |P| then |P| - p else 0
  {
    if At(P, p) == 0 then Malformed("malformed pattern (missing ']')")
    else
      var q := if At(P, p) == ESC && At(P, p + 1) != 0 then p + 2 else p + 1;
      if At(P, q) == 93 then Ends(q + 1) else SetEnd(P, q)
  }

  /** `classend`: where the single-character class at `p` ends. */
  function ClassEnd(P: seq<byte>, p: nat): (r: Ending)
    requires At(P, p) != 0
    ensures r.Ends? ==> p < r.ep <= |P|
  {
    if At(P, p) == ESC then
      if At(P, p + 1) == 0 then Malformed("malformed pattern (ends with '%')") else Ends(p + 2)
    else if At(P, p) == 91 then SetEnd(P, if At(P, p + 1) == 94 then p + 2 else p + 1)
    else Ends(p + 1)
  }

  datatype Repetition = Once | Optional | Star | Plus | Minus

  /** The item at a place of a pattern, and where the next one is. */
  datatype Item =
    | End
    | AtEnd
    | Open(position: bool, next: nat)
    | Close(next: nat)
    | Balance(b: byte, e: byte, next: nat)
    | Frontier(from: nat, next: nat)
    | BackRef(digit: byte, next: nat)
    | Single(from: nat, ep: nat, rep: Repetition, next: nat)
    | Bad(message: string)

  function SingleAt(P: seq<byte>, p: nat): (r: Item)
    requires At(P, p) != 0
    ensures r.Single? ==> p == r.from < r.ep <= r.next <= |P|
    ensures r.Single? || r.Bad?
  {
    var end := ClassEnd(P, p);
    if end.Malformed? then Bad(end.message)
    else
      var c := At(P, end.ep);
      if c == 63 then Single(p, end.ep, Optional, end.ep + 1)
      else if c == 42 then Single(p, end.ep, Star, end.ep + 1)
      else if c == 43 then Single(p, end.ep, Plus, end.ep + 1)
      else if c == 45 then Single(p, end.ep, Minus, end.ep + 1)
      else Single(p, end.ep, Once, end.ep)
  }

  function ItemAt(P: seq<byte>, p: nat): (r: Item)
    ensures r.Open? || r.Close? || r.Balance? || r.Frontier? || r.BackRef? || r.Single? ==> p < r.next <= |P|
    ensures r.Single? ==> p == r.from < r.ep <= r.next
  {
    var c := At(P, p);
    if c == 40 then if At(P, p + 1) == 41 then Open(true, p + 2) else Open(false, p + 1)
    else if c == 41 then Close(p + 1)
    else if c == ESC then
      var d := At(P, p + 1);
      if d == 98 then
        if At(P, p + 2) == 0 || At(P, p + 3) == 0 then Bad("unbalanced pattern")
        else Balance(At(P, p + 2), At(P, p + 3), p + 4)
      else if d == 102 then
        if At(P, p + 2) != 91 then Bad("missing '[' after '%f' in pattern")
        else
          var end := ClassEnd(P, p + 2);
          if end.Malformed? then Bad(end.message) else Frontier(p + 2, end.ep)
      else if IsDigit(d) then BackRef(d, p + 2)
      else SingleAt(P, p)
    else if c == 0 then End
    else if c == 36 && At(P, p + 1) == 0 then AtEnd
    else SingleAt(P, p)
  }

  // ---------------------------------------------------------------- captures

  datatype CapLen = Unfinished | Position | Closed(n: nat)

  datatype Capture = Capture(init: nat, len: CapLen)

  type Captures = seq<Capture>

  /** `capture_to_close`: the innermost unfinished capture, or -1. */
  function ToClose(caps: Captures): (r: int)
    ensures -1 <= r < |caps|
    ensures r >= 0 ==> caps[r].len.Unfinished?
    ensures forall i | r < i < |caps| :: !caps[i].len.Unfinished?
  {
    if caps == [] then -1
    else if caps[|caps| - 1].len.Unfinished? then |caps| - 1
    else ToClose(caps[..|caps| - 1])
  }

  /** Captures begin within the subject, and end there. */
  ghost predicate Within(S: seq<byte>, s: nat, caps: Captures) {
    s <= |S| && forall i | 0 <= i < |caps| ::
      caps[i].init <= s && (caps[i].len.Closed? ==> caps[i].init + caps[i].len.n <= s)
  }

  // ---------------------------------------------------------------- balance and references

  /** How many delimiters are open once position `k` has been read, from `s` on. */
  function Depth(S: seq<byte>, b: byte, e: byte, s: nat, k: nat): int
    requires s <= k < |S|
  {
    if k == s then 1
    else Depth(S, b, e, s, k - 1) + if S[k] == e then -1 else if S[k] == b then 1 else 0
  }

  /** The delimiters that open at `s` are balanced at `k`, for the first time. */
  ghost predicate BalancedAt(S: seq<byte>, b: byte, e: byte, s: nat, k: nat) {
    && s < k < |S| && S[s] == b && Depth(S, b, e, s, k) == 0
    && forall j | s <= j < k :: Depth(S, b, e, s, j) > 0
  }

  /** The capture that `%1` to `%9` refers to. */
  function RefIndex(digit: byte): int { digit as int - 49 }

  predicate GoodRef(caps: Captures, digit: byte) {
    0 <= RefIndex(digit) < |caps| && !caps[RefIndex(digit)].len.Unfinished?
  }

  /** The subject repeats a capture at `s`; a position never repeats. */
  predicate Repeats(S: seq<byte>, s: nat, cap: Capture) {
    && cap.len.Closed? && s + cap.len.n <= |S| && cap.init + cap.len.n <= |S|
    && S[s..s + cap.len.n] == S[cap.init..cap.init + cap.len.n]
  }

  predicate AtFrontier(S: seq<byte>, P: seq<byte>, from: nat, next: nat, s: nat)
    requires next > 0
  {
    !MatchSet(P, from, next - 1, if s == 0 then 0 else At(S, s - 1)) && MatchSet(P, from, next - 1, At(S, s))
  }

  // ---------------------------------------------------------------- derivations

  datatype Result = NoMatch | Match(e: nat, caps: Captures) | Error(message: string)

  /** `k` characters from `s` on match a single-character class. */
  predicate Run(S: seq<byte>, P: seq<byte>, from: nat, ep: nat, s: nat, k: nat) {
    s + k <= |S| && forall i | s <= i < s + k :: SingleMatch(P, from, ep, S[i])
  }

  predicate Allowed(rep: Repetition, k: nat) {
    match rep
    case Once => k == 1
    case Optional => k <= 1
    case Star => true
    case Plus => k >= 1
    case Minus => true
  }

  /** A single-character class that may be repeated. */
  predicate Repeated(i: Item) { i.Single? && !i.rep.Once? }

  predicate Forcing(i: Item) {
    i.Open? || i.Close? || i.Balance? || i.Frontier? || i.BackRef? || (i.Single? && i.rep.Once?)
  }

  /** An item that leaves no choice takes the subject from `s` to `s'`. */
  ghost predicate StepTo(S: seq<byte>, P: seq<byte>, i: Item, s: nat, caps: Captures, s': nat, caps': Captures) {
    match i
    case Open(position, _) =>
      |caps| < LUA_MAXCAPTURES && s' == s && caps' == caps + [Capture(s, if position then Position else Unfinished)]
    case Close(_) =>
      var l := ToClose(caps);
      l >= 0 && caps[l].init <= s && s' == s && caps' == caps[l := Capture(caps[l].init, Closed(s - caps[l].init))]
    case Balance(b, d, _) => s' > s && BalancedAt(S, b, d, s, s' - 1) && caps' == caps
    case Frontier(from, next) => next > 0 && AtFrontier(S, P, from, next, s) && s' == s && caps' == caps
    case BackRef(digit, _) =>
      && GoodRef(caps, digit) && Repeats(S, s, caps[RefIndex(digit)])
      && s' == s + caps[RefIndex(digit)].len.n && caps' == caps
    case Single(from, ep, _, _) => Run(S, P, from, ep, s, 1) && s' == s + 1 && caps' == caps
    case _ => false
  }

  /** A derivation: the items of the pattern from `p` on, in order, take the subject
      from `s` to `e`; `t` says how often each repeatable item is repeated. */
  ghost predicate Derives(S: seq<byte>, P: seq<byte>, p: nat, s: nat, caps: Captures, t: seq<nat>, e: nat, out: Captures)
    decreases |P| - p
  {
    var i := ItemAt(P, p);
    if i.End? || i.AtEnd? then t == [] && (i.AtEnd? ==> s == |S|) && e == s && out == caps
    else if Repeated(i) then
      && t != [] && Allowed(i.rep, t[0]) && Run(S, P, i.from, i.ep, s, t[0])
      && Derives(S, P, i.next, s + t[0], caps, t[1..], e, out)
    else
      Forcing(i) && exists s', caps' :: StepTo(S, P, i, s, caps, s', caps') && Derives(S, P, i.next, s', caps', t, e, out)
  }

  /** Which of two derivations takes precedence: at the first item where they differ,
      more repetitions win, or fewer for `-`. */
  ghost predicate Precedes(P: seq<byte>, p: nat, t: seq<nat>, u: seq<nat>)
    decreases |P| - p
  {
    var i := ItemAt(P, p);
    if Repeated(i) then
      && t != [] && u != []
      && if t[0] == u[0] then Precedes(P, i.next, t[1..], u[1..])
         else if i.rep.Minus? then t[0] < u[0] else t[0] > u[0]
    else Forcing(i) && Precedes(P, i.next, t, u)
  }

  // ---------------------------------------------------------------- well-formed patterns

  /** What is known of captures from the pattern alone: which are finished. */
  function Shape(caps: Captures): (r: seq<bool>)
    ensures |r| == |caps|
    ensures forall i | 0 <= i < |r| :: r[i] == !caps[i].len.Unfinished?
  {
    seq(|caps|, i requires 0 <= i < |caps| => !caps[i].len.Unfinished?)
  }

  function LastOpen(shape: seq<bool>): (r: int)
    ensures -1 <= r < |shape|
    ensures r >= 0 ==> !shape[r]
    ensures forall i | r < i < |shape| :: shape[i]
  {
    if shape == [] then -1 else if !shape[|shape| - 1] then |shape| - 1 else LastOpen(shape[..|shape| - 1])
  }

  /** No item is malformed, closes nothing, or refers to a capture that is not finished. */
  predicate WellFormed(P: seq<byte>, p: nat, shape: seq<bool>)
    decreases |P| - p
  {
    match ItemAt(P, p)
    case End => true
    case AtEnd => true
    case Open(position, next) => |shape| < LUA_MAXCAPTURES && WellFormed(P, next, shape + [position])
    case Close(next) => LastOpen(shape) >= 0 && WellFormed(P, next, shape[LastOpen(shape) := true])
    case Balance(_, _, next) => WellFormed(P, next, shape)
    case Frontier(_, next) => WellFormed(P, next, shape)
    case BackRef(digit, next) =>
      0 <= RefIndex(digit) < |shape| && shape[RefIndex(digit)] && WellFormed(P, next, shape)
    case Single(_, _, _, next) => WellFormed(P, next, shape)
    case Bad(_) => false
  }
}
