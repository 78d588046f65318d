/**
 The backtracking matcher, which keeps its captures in place and undoes them when a
 try fails.
 */
module Matcher {
  import opened Bytes
  import opened Pattern
  import opened Derivation

  /** A match up to a position, none, or a Lua error. */
  datatype Found = Null | To(e: nat) | Raised(message: string)

  class MatchState {
    const src: seq<byte>
    const pat: seq<byte>
    var level: nat
    const capture: array<Capture>

    ghost predicate Valid()
      reads this
    {
      capture.Length == LUA_MAXCAPTURES && level <= LUA_MAXCAPTURES
    }

    ghost function Caps(): Captures
      reads this, capture
      requires Valid()
    {
      capture[..level]
    }

    ghost predicate Ready(s: nat)
      reads this, capture
    {
      Valid() && Within(src, s, Caps())
    }

    constructor (src: seq<byte>, pat: seq<byte>)
      ensures Valid() && level == 0 && this.src == src && this.pat == pat && fresh(capture)
    {
      this.src := src;
      this.pat := pat;
      level := 0;
      capture := new Capture[LUA_MAXCAPTURES](_ => Capture(0, Unfinished));
    }

    /** What a try from pattern position `p` and subject position `s` with captures
        `caps` may come to: the first derivation, with its captures; or no derivation,
        with the captures as they were; or an error in the pattern. */
    ghost predicate Tried(r: Found, p: nat, s: nat, caps: Captures)
      reads this, capture
    {
      && Valid()
      && match r
         case Null => None(src, pat, p, s, caps) && Caps() == caps
         case To(e) => Some(src, pat, p, s, caps, e, Caps()) && s <= e <= |src|
         case Raised(_) => !WellFormed(pat, p, Shape(caps))
    }

    // -------------------------------------------------------------- single characters

    /** `classend`. */
    method FindClassEnd(p0: nat) returns (r: Ending)
      requires At(pat, p0) != 0
      ensures r == ClassEnd(pat, p0)
    {
      var p := p0 + 1;
      if At(pat, p0) == ESC {
        if At(pat, p) == 0 {
          return Malformed("malformed pattern (ends with '%')");
        }
        return Ends(p + 1);
      } else if At(pat, p0) == 91 {
        if At(pat, p) == 94 {
          p := p + 1;
        }
        ghost var first := p;
        while true
          invariant SetEnd(pat, first) == SetEnd(pat, p)
          decreases if p < |pat| then |pat| - p else 0
        {
          if At(pat, p) == 0 {
            return Malformed("malformed pattern (missing ']')");
          }
          p := p + 1;
          if At(pat, p - 1) == ESC && At(pat, p) != 0 {
            p := p + 1;
          }
          if At(pat, p) == 93 {
            return Ends(p + 1);
          }
        }
      } else {
        return Ends(p);
      }
    }

    /** `matchbracketclass`. */
    method MatchBracketClass(c: byte, p0: nat, ec: nat) returns (b: bool)
      ensures b == MatchSet(pat, p0, ec, c)
    {
      var sig := true;
      var p := p0;
      if At(pat, p + 1) == 94 {
        sig := false;
        p := p + 1;
      }
      p := p + 1;
      while p < ec
        invariant MatchSet(pat, p0, ec, c) == (if InSet(pat, p, ec, c) then sig else !sig)
        decreases ec - p
      {
        if At(pat, p) == ESC {
          p := p + 1;
          if MatchClass(c, At(pat, p)) {
            return sig;
          }
        } else if At(pat, p + 1) == 45 && p + 2 < ec {
          p := p + 2;
          if At(pat, p - 2) <= c <= At(pat, p) {
            return sig;
          }
        } else if At(pat, p) == c {
          return sig;
        }
        p := p + 1;
      }
      return !sig;
    }

    /** `singlematch`. */
    method MatchSingle(c: byte, p: nat, ep: nat) returns (b: bool)
      requires ep > 0
      ensures b == SingleMatch(pat, p, ep, c)
    {
      if At(pat, p) == 46 {
        return true;
      } else if At(pat, p) == ESC {
        return MatchClass(c, At(pat, p + 1));
      } else if At(pat, p) == 91 {
        b := MatchBracketClass(c, p, ep - 1);
      } else {
        return At(pat, p) == c;
      }
    }

    /** `matchbalance`: behind the delimiter that balances the one at `s`, if any. */
    method MatchBalance(s: nat, b: byte, e: byte) returns (r: int)
      requires s <= |src| && b != 0
      ensures r >= 0 ==> s < r <= |src| && BalancedAt(src, b, e, s, r - 1)
      ensures r < 0 ==> forall k :: !BalancedAt(src, b, e, s, k)
    {
      if At(src, s) != b {
        return -1;
      }
      var cont := 1;
      var k := s + 1;
      while k < |src|
        invariant s < k <= |src| && cont == Depth(src, b, e, s, k - 1) > 0
        invariant forall j | s <= j < k :: Depth(src, b, e, s, j) > 0
      {
        if src[k] == e {
          cont := cont - 1;
          if cont == 0 {
            return k + 1;
          }
        } else if src[k] == b {
          cont := cont + 1;
        }
        k := k + 1;
      }
      return -1;
    }

    // -------------------------------------------------------------- captures

    /** `capture_to_close`. */
    method CaptureToClose() returns (l: int)
      requires Valid()
      ensures l == ToClose(Caps())
    {
      l := level - 1;
      assert capture[..level] == Caps();
      while l >= 0
        invariant -1 <= l < level && ToClose(Caps()) == ToClose(Caps()[..l + 1])
        decreases l
      {
        if capture[l].len.Unfinished? {
          assert Caps()[..l + 1][l] == capture[l];
          return;
        }
        assert Caps()[..l + 1][..l] == Caps()[..l];
        l := l - 1;
      }
      assert Caps()[..0] == [];
    }

    /** `check_capture` and `match_capture`: the subject position behind a repetition
        of a capture. */
    method MatchCapture(s: nat, digit: byte) returns (r: Found)
      requires Ready(s) && IsDigit(digit)
      ensures r.Raised? <==> !GoodRef(Caps(), digit)
      ensures r.To? ==> Repeats(src, s, Caps()[RefIndex(digit)]) && r.e == s + Caps()[RefIndex(digit)].len.n
      ensures r.Null? ==> !Repeats(src, s, Caps()[RefIndex(digit)])
    {
      var l := digit - 49;
      if l < 0 || l >= level || capture[l].len.Unfinished? {
        return Raised("invalid capture index");
      }
      assert Caps()[l] == capture[l];
      match capture[l].len {
        case Closed(len) =>
          var init := capture[l].init;
          if |src| - s >= len && src[init..init + len] == src[s..s + len] {
            return To(s + len);
          }
        case _ =>
      }
      return Null;
    }

    /** `start_capture`: a capture that starts here, taken back if the rest fails. */
    method StartCapture(s: nat, p: nat, what: CapLen) returns (r: Found)
      requires Ready(s) && p <= |pat| && !what.Closed?
      modifies this`level, capture
      ensures Valid()
      ensures var caps := old(Caps()) + [Capture(s, what)];
              if |caps| > LUA_MAXCAPTURES then r.Raised?
              else if r.Null? then None(src, pat, p, s, caps) && Caps() == old(Caps())
              else Tried(r, p, s, caps)
      decreases |pat| - p, 4
    {
      if level >= LUA_MAXCAPTURES {
        return Raised("too many captures");
      }
      ghost var caps := Caps();
      capture[level] := Capture(s, what);
      level := level + 1;
      assert Caps() == caps + [Capture(s, what)];
      r := DoMatch(s, p);
      if r == Null {
        level := level - 1;
        assert Caps() == (caps + [Capture(s, what)])[..level] == caps;
      }
    }

    /** `end_capture`: closes the innermost open capture, and opens it again if the
        rest fails. */
    method EndCapture(s: nat, p: nat) returns (r: Found)
      requires Ready(s) && p <= |pat|
      modifies this`level, capture
      ensures Valid()
      ensures var caps := old(Caps()); var l := ToClose(caps);
              if l < 0 then r.Raised?
              else
                var closed := caps[l := Capture(caps[l].init, Closed(if s >= caps[l].init then s - caps[l].init else 0))];
                caps[l].init <= s
                && if r.Null? then None(src, pat, p, s, closed) && Caps() == caps else Tried(r, p, s, closed)
      decreases |pat| - p, 4
    {
      var l := CaptureToClose();
      if l < 0 {
        return Raised("invalid pattern capture");
      }
      ghost var caps := Caps();
      assert caps[l] == capture[l];
      capture[l] := Capture(capture[l].init, Closed(s - capture[l].init));
      assert Caps() == caps[l := capture[l]];
      r := DoMatch(s, p);
      if r == Null {
        capture[l] := Capture(capture[l].init, Unfinished);
        assert Caps() == caps;
      }
    }

    // -------------------------------------------------------------- repetition

    /** `max_expand`: as many repetitions as possible first, then fewer. */
    method MaxExpand(s: nat, p: nat, ep: nat) returns (r: Found)
      requires Ready(s) && p < ep < |pat|
      modifies this`level, capture
      ensures Valid()
      ensures r.Null? ==> Caps() == old(Caps()) && forall k | Run(src, pat, p, ep, s, k) :: None(src, pat, ep + 1, s + k, old(Caps()))
      ensures r.To? ==> s <= r.e <= |src| && exists k :: Longest(src, pat, p, ep, s, old(Caps()), k, r.e, Caps())
      ensures r.Raised? ==> !WellFormed(pat, ep + 1, Shape(old(Caps())))
      decreases |pat| - ep, 0
    {
      ghost var caps := Caps();
      var i := 0;
      while true
        invariant 0 <= i && Run(src, pat, p, ep, s, i) && Ready(s) && Caps() == caps
        decreases |src| - s - i
      {
        if s + i >= |src| {
          break;
        }
        var m := MatchSingle(src[s + i], p, ep);
        if !m {
          break;
        }
        i := i + 1;
      }
      while i >= 0
        invariant -1 <= i && (i >= 0 ==> Run(src, pat, p, ep, s, i)) && Ready(s) && Caps() == caps
        invariant forall k | k > i && Run(src, pat, p, ep, s, k) :: None(src, pat, ep + 1, s + k, caps)
        decreases i
      {
        WithinLater(src, s, s + i, Caps());
        r := DoMatch(s + i, ep + 1);
        if r != Null {
          if r.To? {
            assert Longest(src, pat, p, ep, s, caps, i, r.e, Caps());
          }
          return;
        }
        i := i - 1;
      }
      return Null;
    }

    /** `min_expand`: as few repetitions as possible first, then more. */
    method MinExpand(s0: nat, p: nat, ep: nat) returns (r: Found)
      requires Ready(s0) && p < ep < |pat|
      modifies this`level, capture
      ensures Valid()
      ensures r.Null? ==> Caps() == old(Caps()) && forall k | Run(src, pat, p, ep, s0, k) :: None(src, pat, ep + 1, s0 + k, old(Caps()))
      ensures r.To? ==> s0 <= r.e <= |src| && exists k :: Shortest(src, pat, p, ep, s0, old(Caps()), k, r.e, Caps())
      ensures r.Raised? ==> !WellFormed(pat, ep + 1, Shape(old(Caps())))
      decreases |pat| - ep, 0
    {
      ghost var caps := Caps();
      var s := s0;
      while true
        invariant s0 <= s <= |src| && Run(src, pat, p, ep, s0, s - s0) && Ready(s) && Caps() == caps
        invariant forall k: nat | k < s - s0 && Run(src, pat, p, ep, s0, k) :: None(src, pat, ep + 1, s0 + k, caps)
        decreases |src| - s
      {
        r := DoMatch(s, ep + 1);
        if r != Null {
          if r.To? {
            assert s0 + (s - s0) == s;
            assert Shortest(src, pat, p, ep, s0, caps, s - s0, r.e, Caps());
          }
          return;
        }
        if s >= |src| {
          return Null;
        }
        var m := MatchSingle(src[s], p, ep);
        if !m {
          return Null;
        }
        WithinLater(src, s, s + 1, Caps());
        s := s + 1;
      }
    }

    // -------------------------------------------------------------- matching

    /** `match`: the first derivation in the order of preference, if there is any. */
    method DoMatch(s: nat, p: nat) returns (r: Found)
      requires Ready(s) && p <= |pat|
      modifies this`level, capture
      ensures Tried(r, p, s, old(Caps()))
      decreases |pat| - p, 3
    {
      hide None, Some, WellFormed, ItemAt, SingleAt, StepTo;
      ghost var caps := Caps();
      ItemIs(pat, p);
      var c := At(pat, p);
      if c == 40 {
        if At(pat, p + 1) == 41 {
          r := StartCapture(s, p + 2, Position);
          Opened(src, pat, p, s, caps, Position);
        } else {
          r := StartCapture(s, p + 1, Unfinished);
          Opened(src, pat, p, s, caps, Unfinished);
        }
      } else if c == 41 {
        r := EndCapture(s, p + 1);
        Closes(src, pat, p, s, caps);
      } else if c == ESC && (At(pat, p + 1) == 98 || At(pat, p + 1) == 102 || IsDigit(At(pat, p + 1))) {
        r := MatchEscape(s, p);
      } else if c == 0 {
        EndFirst(src, pat, p, s, caps);
        r := To(s);
      } else if c == 36 && At(pat, p + 1) == 0 {
        if s == |src| {
          EndFirst(src, pat, p, s, caps);
          r := To(s);
        } else {
          ForcedNone(src, pat, p, s, caps);
          r := Null;
        }
      } else {
        r := MatchItem(s, p);
      }
    }

    /** The items of `match` that start with `%`. */
    method MatchEscape(s: nat, p: nat) returns (r: Found)
      requires Ready(s) && p <= |pat| && At(pat, p) == ESC
      requires At(pat, p + 1) == 98 || At(pat, p + 1) == 102 || IsDigit(At(pat, p + 1))
      modifies this`level, capture
      ensures Tried(r, p, s, old(Caps()))
      decreases |pat| - p, 2
    {
      hide None, Some, WellFormed, ItemAt, StepTo;
      ghost var caps := Caps();
      EscapeIs(pat, p);
      if At(pat, p + 1) == 98 {
        if At(pat, p + 2) == 0 || At(pat, p + 3) == 0 {
          BadItem(pat, p, Shape(caps));
          return Raised("unbalanced pattern");
        }
        var t := MatchBalance(s, At(pat, p + 2), At(pat, p + 3));
        BalanceTried(src, pat, p, s, caps, t);
        if t < 0 {
          return Null;
        }
        r := DoMatch(t, p + 4);
      } else if At(pat, p + 1) == 102 {
        r := MatchFrontier(s, p);
      } else {
        r := MatchCapture(s, At(pat, p + 1));
        RefTried(src, pat, p, s, caps, At(pat, p + 1));
        if r.To? {
          WithinLater(src, s, r.e, caps);
          r := DoMatch(r.e, p + 2);
        }
      }
    }

    /** `%f`: the set does not match the character before, but the one here. */
    method MatchFrontier(s: nat, p: nat) returns (r: Found)
      requires Ready(s) && p <= |pat| && At(pat, p) == ESC && At(pat, p + 1) == 102
      modifies this`level, capture
      ensures Tried(r, p, s, old(Caps()))
      decreases |pat| - p, 1
    {
      hide None, Some, WellFormed, ItemAt, StepTo;
      ghost var caps := Caps();
      EscapeIs(pat, p);
      if At(pat, p + 2) != 91 {
        BadItem(pat, p, Shape(caps));
        return Raised("missing '[' after '%f' in pattern");
      }
      var end := FindClassEnd(p + 2);
      if end.Malformed? {
        BadItem(pat, p, Shape(caps));
        return Raised(end.message);
      }
      FrontierTried(src, pat, p, s, caps);
      var previous := if s == 0 then 0 else src[s - 1];
      var m := MatchBracketClass(previous, p + 2, end.ep - 1);
      if m {
        return Null;
      }
      m := MatchBracketClass(At(src, s), p + 2, end.ep - 1);
      if !m {
        return Null;
      }
      r := DoMatch(s, end.ep);
    }

    /** A single-character class and its suffix. */
    method MatchItem(s: nat, p: nat) returns (r: Found)
      requires Ready(s) && p <= |pat| && At(pat, p) != 0 && ItemAt(pat, p) == SingleAt(pat, p)
      modifies this`level, capture
      ensures Tried(r, p, s, old(Caps()))
      decreases |pat| - p, 2
    {
      hide None, Some, WellFormed, ItemAt, StepTo;
      ghost var caps := Caps();
      var end := FindClassEnd(p);
      if end.Malformed? {
        BadItem(pat, p, Shape(caps));
        return Raised(end.message);
      }
      var ep := end.ep;
      var m := false;
      if s < |src| {
        m := MatchSingle(src[s], p, ep);
      }
      assert m == Run(src, pat, p, ep, s, 1);
      SingleShape(pat, p, Shape(caps));
      if m {
        WithinLater(src, s, s + 1, caps);
      }
      if At(pat, ep) == 63 {
        OptionalTried(src, pat, p, ep, s, caps);
        if m {
          r := DoMatch(s + 1, ep + 1);
          if r != Null {
            return;
          }
        }
        r := DoMatch(s, ep + 1);
      } else if At(pat, ep) == 42 {
        StarTried(src, pat, p, ep, s, caps);
        r := MaxExpand(s, p, ep);
      } else if At(pat, ep) == 43 {
        PlusTried(src, pat, p, ep, s, s + 1, caps);
        r := Null;
        if m {
          r := MaxExpand(s + 1, p, ep);
        }
      } else if At(pat, ep) == 45 {
        MinusTried(src, pat, p, ep, s, caps);
        r := MinExpand(s, p, ep);
      } else {
        OnceTried(src, pat, p, ep, s, caps);
        if !m {
          return Null;
        }
        r := DoMatch(s + 1, ep);
      }
    }
  }

  // ---------------------------------------------------------------- search

  datatype Search = NotFound | FoundAt(s: nat, e: nat, caps: Captures) | SearchError(message: string)

  /** `posrelat`: negative positions count from the end. */
  function PosRelat(pos: int, len: nat): int {
    var q := if pos < 0 then pos + len + 1 else pos;
    if q >= 0 then q else 0
  }

  /** Where a search starts, from the position asked for. */
  function StartOf(pos: int, len: nat): (r: nat)
    ensures r <= len
  {
    var init := PosRelat(pos, len) - 1;
    if init < 0 then 0 else if init > len then len else init
  }

  /** Where the items start: behind the anchor. */
  function Body(P: seq<byte>): nat { if At(P, 0) == 94 then 1 else 0 }

  /** The leftmost match from the start position, or that there is none. */
  ghost predicate Answers(S: seq<byte>, P: seq<byte>, pos: int, r: Search) {
    var p, init := Body(P), StartOf(pos, |S|);
    match r
    case FoundAt(s, e, caps) =>
      && init <= s <= |S| && Some(S, P, p, s, [], e, caps) && (p == 1 ==> s == init)
      && forall q | init <= q < s :: None(S, P, p, q, [])
    case NotFound => forall q | init <= q <= |S| && (p == 1 ==> q == init) :: None(S, P, p, q, [])
    case SearchError(_) => !WellFormed(P, p, [])
  }

  /** The pattern loop of `str_find_aux`: the leftmost match. A `^` anchors it. */
  method Find(S: seq<byte>, P: seq<byte>, pos: int) returns (r: Search)
    ensures Answers(S, P, pos, r)
  {
    hide None, Some, WellFormed;
    var init := PosRelat(pos, |S|) - 1;
    if init < 0 {
      init := 0;
    } else if init > |S| {
      init := |S|;
    }
    var anchor := At(P, 0) == 94;
    var p := if anchor then 1 else 0;
    var ms := new MatchState(S, P);
    var s1 := init;
    assert Shape([]) == [];
    while true
      invariant ms.Valid() && init <= s1 <= |S| && (anchor ==> s1 == init) && fresh(ms) && fresh(ms.capture)
      invariant forall q | init <= q < s1 :: None(S, P, p, q, [])
      decreases |S| - s1
    {
      ms.level := 0;
      assert ms.Caps() == [];
      var m := ms.DoMatch(s1, p);
      if m.Raised? {
        return SearchError(m.message);
      }
      if m.To? {
        return FoundAt(s1, m.e, ms.capture[..ms.level]);
      }
      if s1 >= |S| || anchor {
        return NotFound;
      }
      s1 := s1 + 1;
    }
  }

  lemma BadItem(P: seq<byte>, p: nat, shape: seq<bool>)
    requires ItemAt(P, p).Bad?
    ensures !WellFormed(P, p, shape)
  {
  }

  lemma SingleShape(P: seq<byte>, p: nat, shape: seq<bool>)
    requires ItemAt(P, p).Single?
    ensures WellFormed(P, p, shape) == WellFormed(P, ItemAt(P, p).next, shape)
  {
  }

  /** The items that start with `%`, other than classes. */
  lemma EscapeIs(P: seq<byte>, p: nat)
    requires At(P, p) == ESC && p <= |P|
    ensures var d, i := At(P, p + 1), ItemAt(P, p);
            if d == 98 then
              if At(P, p + 2) == 0 || At(P, p + 3) == 0 then i.Bad?
              else i == Balance(At(P, p + 2), At(P, p + 3), p + 4) && p + 4 <= |P|
            else if d == 102 then
              if At(P, p + 2) != 91 then i.Bad?
              else
                var end := ClassEnd(P, p + 2);
                if end.Malformed? then i.Bad? else i == Frontier(p + 2, end.ep) && p + 2 < end.ep <= |P|
            else IsDigit(d) ==> i == BackRef(d, p + 2) && p + 2 <= |P|
  {
  }

  lemma BalanceTried(S: seq<byte>, P: seq<byte>, p: nat, s: nat, caps: Captures, r: int)
    requires s <= |S| && Within(S, s, caps) && ItemAt(P, p).Balance?
    requires r >= 0 ==> s < r <= |S| && BalancedAt(S, ItemAt(P, p).b, ItemAt(P, p).e, s, r - 1)
    requires r < 0 ==> forall k :: !BalancedAt(S, ItemAt(P, p).b, ItemAt(P, p).e, s, k)
    ensures r < 0 ==> None(S, P, p, s, caps)
    ensures r >= 0 ==> Passed(S, P, p, s, caps, r, caps) && Within(S, r, caps)
  {
    hide None, Some, WellFormed, ItemAt, BalancedAt;
    if r < 0 {
      ForcedNone(S, P, p, s, caps);
    } else {
      Forwarded(S, P, p, s, caps, r, caps);
    }
  }

  /** What a try of the rest comes to, so does one from the item before it. */
  ghost predicate Passed(S: seq<byte>, P: seq<byte>, p: nat, s: nat, caps: Captures, s': nat, caps': Captures) {
    var i := ItemAt(P, p);
    && Forcing(i)
    && (None(S, P, i.next, s', caps') ==> None(S, P, p, s, caps))
    && (forall e, out :: Some(S, P, i.next, s', caps', e, out) ==> Some(S, P, p, s, caps, e, out))
    && (WellFormed(P, p, Shape(caps)) ==> WellFormed(P, i.next, Shape(caps')))
  }

  lemma FrontierTried(S: seq<byte>, P: seq<byte>, p: nat, s: nat, caps: Captures)
    requires ItemAt(P, p).Frontier? && ItemAt(P, p).next > 0
    ensures if AtFrontier(S, P, ItemAt(P, p).from, ItemAt(P, p).next, s) then Passed(S, P, p, s, caps, s, caps) else None(S, P, p, s, caps)
  {
    hide None, Some, WellFormed, ItemAt, AtFrontier;
    if AtFrontier(S, P, ItemAt(P, p).from, ItemAt(P, p).next, s) {
      Forwarded(S, P, p, s, caps, s, caps);
    } else {
      ForcedNone(S, P, p, s, caps);
    }
  }

  lemma RefTried(S: seq<byte>, P: seq<byte>, p: nat, s: nat, caps: Captures, digit: byte)
    requires IsDigit(digit) && ItemAt(P, p) == BackRef(digit, p + 2)
    ensures if !GoodRef(caps, digit) then !WellFormed(P, p, Shape(caps))
            else if Repeats(S, s, caps[RefIndex(digit)])
              then Passed(S, P, p, s, caps, s + caps[RefIndex(digit)].len.n, caps)
            else None(S, P, p, s, caps)
  {
    hide None, Some, ItemAt, Repeats;
    if GoodRef(caps, digit) {
      if Repeats(S, s, caps[RefIndex(digit)]) {
        RepeatsClosed(S, s, caps[RefIndex(digit)]);
        Forwarded(S, P, p, s, caps, s + caps[RefIndex(digit)].len.n, caps);
      } else {
        ForcedNone(S, P, p, s, caps);
      }
    }
  }

  lemma RepeatsClosed(S: seq<byte>, s: nat, cap: Capture)
    requires Repeats(S, s, cap)
    ensures cap.len.Closed?
  {
  }

  lemma OnceTried(S: seq<byte>, P: seq<byte>, p: nat, ep: nat, s: nat, caps: Captures)
    requires ItemAt(P, p) == Single(p, ep, Once, ep)
    ensures if Run(S, P, p, ep, s, 1) then Passed(S, P, p, s, caps, s + 1, caps) else None(S, P, p, s, caps)
  {
    hide None, Some, WellFormed, ItemAt, Run;
    if Run(S, P, p, ep, s, 1) {
      Forwarded(S, P, p, s, caps, s + 1, caps);
    } else {
      ForcedNone(S, P, p, s, caps);
    }
  }

  /** What `match` tells items apart by. */
  lemma ItemIs(P: seq<byte>, p: nat)
    ensures var c, d, i := At(P, p), At(P, p + 1), ItemAt(P, p);
            && (c == 40 ==> i == if d == 41 then Open(true, p + 2) else Open(false, p + 1))
            && (c == 41 ==> i == Close(p + 1))
            && (c == 0 ==> i == End)
            && (c == 36 && d == 0 ==> i == AtEnd)
            && (c != 0 && c != 40 && c != 41 && !(c == 36 && d == 0) && !(c == ESC && (d == 98 || d == 102 || IsDigit(d)))
                ==> i == SingleAt(P, p))
            && (i.Open? || i.Close? ==> p < i.next <= |P|)
    ensures p > |P| ==> At(P, p) == 0
  {
  }

  lemma Opened(S: seq<byte>, P: seq<byte>, p: nat, s: nat, caps: Captures, what: CapLen)
    requires ItemAt(P, p).Open? && !what.Closed? && what.Position? == ItemAt(P, p).position
    ensures var next, caps' := ItemAt(P, p).next, caps + [Capture(s, what)];
            if |caps| >= LUA_MAXCAPTURES then !WellFormed(P, p, Shape(caps))
            else
              && (None(S, P, next, s, caps') ==> None(S, P, p, s, caps))
              && (forall e, out :: Some(S, P, next, s, caps', e, out) ==> Some(S, P, p, s, caps, e, out))
              && (WellFormed(P, p, Shape(caps)) ==> WellFormed(P, next, Shape(caps')))
  {
    if |caps| < LUA_MAXCAPTURES {
      Forwarded(S, P, p, s, caps, s, caps + [Capture(s, what)]);
    }
  }

  lemma Closes(S: seq<byte>, P: seq<byte>, p: nat, s: nat, caps: Captures)
    requires ItemAt(P, p).Close?
    ensures var next, l := ItemAt(P, p).next, ToClose(caps);
            if l < 0 then !WellFormed(P, p, Shape(caps))
            else
              caps[l].init <= s ==>
                var caps' := caps[l := Capture(caps[l].init, Closed(s - caps[l].init))];
                && (None(S, P, next, s, caps') ==> None(S, P, p, s, caps))
                && (forall e, out :: Some(S, P, next, s, caps', e, out) ==> Some(S, P, p, s, caps, e, out))
                && (WellFormed(P, p, Shape(caps)) ==> WellFormed(P, next, Shape(caps')))
  {
    LastOpenIs(caps);
    var l := ToClose(caps);
    if l >= 0 && caps[l].init <= s {
      Forwarded(S, P, p, s, caps, s, caps[l := Capture(caps[l].init, Closed(s - caps[l].init))]);
    }
  }

  lemma WithinLater(S: seq<byte>, s: nat, s': nat, caps: Captures)
    requires Within(S, s, caps) && s <= s' <= |S|
    ensures Within(S, s', caps)
  {
  }
}
