/**
 Jump lists, threaded through the operands of the jumps that are still to be
 patched, and what patching changes.
 */
module JumpLists {
  import opened Bytecode

  /** `getjump`: a jump to itself ends its list. */
  function NextJump(C: seq<Instr>, j: int): int
    requires 0 <= j < |C| && C[j].Jmp?
  {
    if C[j].sbx == NO_JUMP then NO_JUMP else j + 1 + C[j].sbx
  }

  /** The jumps `s` are the list that starts at `l`. */
  ghost predicate IsList(C: seq<Instr>, l: int, s: seq<int>)
    decreases |s|
  {
    if s == [] then l == NO_JUMP
    else l == s[0] && 0 <= l < |C| && C[l].Jmp? && IsList(C, NextJump(C, l), s[1..])
  }

  ghost function Elems(s: seq<int>): set<int> { set x | x in s }

  ghost predicate Distinct(s: seq<int>) {
    forall i, j | 0 <= i < j < |s| :: s[i] != s[j]
  }

  lemma {:induction false} ListMembers(C: seq<Instr>, l: int, s: seq<int>)
    requires IsList(C, l, s)
    ensures forall j | j in s :: 0 <= j < |C| && C[j].Jmp?
    ensures s != [] <==> l != NO_JUMP
    decreases |s|
  {
    if s != [] {
      ListMembers(C, NextJump(C, l), s[1..]);
      forall j | j in s ensures 0 <= j < |C| && C[j].Jmp? {
        assert j == s[0] || j in s[1..];
      }
    }
  }

  /** Where a walk along a list stands. */
  lemma ListStep(C: seq<Instr>, l: int, s: seq<int>, n: nat)
    requires n <= |s| && IsList(C, l, s[n..])
    ensures l == NO_JUMP ==> n == |s| && s[..n] == s
    ensures l != NO_JUMP ==>
              && n < |s| && l == s[n] && s[n] in s && s[..n + 1] == s[..n] + [s[n]]
              && 0 <= l < |C| && C[l].Jmp? && IsList(C, NextJump(C, l), s[n + 1..])
  {
    ListMembers(C, l, s[n..]);
    if n < |s| {
      assert s[n..][0] == s[n] && s[n..][1..] == s[n + 1..];
    }
  }

  /** A list depends on its own jumps only. */
  lemma {:induction false} ListFrame(C: seq<Instr>, D: seq<Instr>, l: int, s: seq<int>)
    requires IsList(C, l, s)
    requires forall j | j in s && 0 <= j < |C| :: j < |D| && D[j] == C[j]
    ensures IsList(D, l, s)
    decreases |s|
  {
    if s != [] {
      assert s[0] in s;
      assert forall j | j in s[1..] :: j in s;
      ListFrame(C, D, NextJump(C, l), s[1..]);
    }
  }

  /** A list has only one sequence of jumps. */
  lemma {:induction false} ListUnique(C: seq<Instr>, l: int, s: seq<int>, t: seq<int>)
    requires IsList(C, l, s) && IsList(C, l, t)
    ensures s == t
    decreases |s|
  {
    if s != [] && t != [] {
      ListUnique(C, NextJump(C, l), s[1..], t[1..]);
      assert s == [s[0]] + s[1..] && t == [t[0]] + t[1..];
    } else if s != [] {
      ListMembers(C, l, s);
    } else if t != [] {
      ListMembers(C, l, t);
    }
  }

  /** `fixjump`. */
  function Fixed(C: seq<Instr>, j: int, dest: int): seq<Instr>
    requires 0 <= j < |C|
  {
    C[j := Jmp(dest - (j + 1))]
  }

  /** The end of one list linked to the start of another. */
  lemma {:induction false} ListsJoined(C: seq<Instr>, l1: int, s1: seq<int>, l2: int, s2: seq<int>)
    requires IsList(C, l1, s1) && IsList(C, l2, s2) && s1 != [] && s2 != [] && Distinct(s1 + s2)
    ensures 0 <= s1[|s1| - 1] < |C| && IsList(Fixed(C, s1[|s1| - 1], l2), l1, s1 + s2)
    decreases |s1|
  {
    ListMembers(C, l1, s1);
    var last := s1[|s1| - 1];
    assert last in s1;
    var D := Fixed(C, last, l2);
    if |s1| == 1 {
      assert (s1 + s2)[|s1|..] == s2;
      forall j | j in s2 ensures j != last {
        var i :| 0 <= i < |s2| && s2[i] == j;
        assert (s1 + s2)[|s1| + i] == j && (s1 + s2)[0] == last;
      }
      ListFrame(C, D, l2, s2);
      assert (s1 + s2)[0] != (s1 + s2)[1];
      assert (s1 + s2)[1..] == s2;
      assert NextJump(D, last) == l2;
    } else {
      assert (s1 + s2)[1..] == s1[1..] + s2;
      assert Distinct(s1[1..] + s2);
      ListsJoined(C, NextJump(C, l1), s1[1..], l2, s2);
      assert s1[1..][|s1[1..]| - 1] == last;
      assert (s1 + s2)[0] != (s1 + s2)[|s1| - 1];
      assert D[l1] == C[l1];
    }
  }

  // ---------------------------------------------------------------- patching

  /** `patchtestreg`: the test that controls a jump sends its value to `reg`, or
      drops it. */
  function PatchedTest(i: Instr, reg: int): Instr {
    if i.TestSet? then
      if reg != NO_REG && reg != i.b then TestSet(reg, i.b, i.c) else Test(i.b, i.c)
    else i
  }

  /** Whether the jump `j` is controlled by a test that yields a value. */
  predicate YieldsValue(C: seq<Instr>, j: int) {
    0 < j <= |C| && C[j - 1].TestSet?
  }

  function PatchedAt(C: seq<Instr>, s: seq<int>, vtarget: int, reg: int, dtarget: int, i: int): Instr
    requires 0 <= i < |C|
  {
    if i in s then Jmp((if YieldsValue(C, i) then vtarget else dtarget) - (i + 1))
    else if i + 1 in s then PatchedTest(C[i], reg)
    else C[i]
  }

  /** `patchlistaux`: the jumps of the list go to their targets, their tests are
      patched, and nothing else changes. */
  function Patched(C: seq<Instr>, s: seq<int>, vtarget: int, reg: int, dtarget: int): (D: seq<Instr>)
    ensures |D| == |C|
    ensures forall i | 0 <= i < |C| :: D[i] == PatchedAt(C, s, vtarget, reg, dtarget, i)
  {
    seq(|C|, i requires 0 <= i < |C| => PatchedAt(C, s, vtarget, reg, dtarget, i))
  }

  /** One more jump. */
  lemma PatchedMore(C: seq<Instr>, s: seq<int>, n: nat, vtarget: int, reg: int, dtarget: int)
    requires n < |s| && Distinct(s) && forall j | j in s :: 0 <= j < |C| && C[j].Jmp?
    ensures var D, j := Patched(C, s[..n], vtarget, reg, dtarget), s[n];
            && 0 <= j < |D| && D[j] == C[j] && YieldsValue(D, j) == YieldsValue(C, j)
            && var E := if YieldsValue(D, j) then D[j - 1 := PatchedTest(D[j - 1], reg)] else D;
               Fixed(E, j, if YieldsValue(D, j) then vtarget else dtarget) == Patched(C, s[..n + 1], vtarget, reg, dtarget)
  {
    var D, j := Patched(C, s[..n], vtarget, reg, dtarget), s[n];
    assert j in s && j !in s[..n];
    if j > 0 {
      assert j - 1 + 1 !in s[..n];
      assert j - 1 in s[..n] ==> j - 1 in s;
    }
    var E := if YieldsValue(D, j) then D[j - 1 := PatchedTest(D[j - 1], reg)] else D;
    var F := Fixed(E, j, if YieldsValue(D, j) then vtarget else dtarget);
    assert s[..n + 1] == s[..n] + [j];
    forall i | 0 <= i < |C| ensures F[i] == PatchedAt(C, s[..n + 1], vtarget, reg, dtarget, i) {
      assert i in s[..n + 1] <==> i in s[..n] || i == j;
      assert i + 1 in s[..n + 1] <==> i + 1 in s[..n] || i + 1 == j;
      assert i + 1 in s[..n] ==> i + 1 in s;
    }
  }

  /** The values of a list are dropped: its tests no longer yield any. */
  function Removed(C: seq<Instr>, s: seq<int>): (D: seq<Instr>)
    ensures |D| == |C|
    ensures forall i | 0 <= i < |C| :: D[i] == if i + 1 in s then PatchedTest(C[i], NO_REG) else C[i]
  {
    seq(|C|, i requires 0 <= i < |C| => if i + 1 in s then PatchedTest(C[i], NO_REG) else C[i])
  }

  lemma RemovedMore(C: seq<Instr>, s: seq<int>, n: nat)
    requires n < |s| && Distinct(s) && forall j | j in s :: 0 <= j < |C| && C[j].Jmp?
    ensures var D, j := Removed(C, s[..n]), s[n];
            && 0 <= j < |D| && D[j] == C[j] && Removed(C, s[..n + 1])[j] == C[j]
            && (if YieldsValue(D, j) then D[j - 1 := PatchedTest(D[j - 1], NO_REG)] else D) == Removed(C, s[..n + 1])
  {
    var D, j := Removed(C, s[..n]), s[n];
    assert j in s && j !in s[..n];
    assert s[..n + 1] == s[..n] + [j];
    assert j + 1 in s[..n + 1] ==> j + 1 in s;
    var E := if YieldsValue(D, j) then D[j - 1 := PatchedTest(D[j - 1], NO_REG)] else D;
    forall i | 0 <= i < |C| ensures E[i] == Removed(C, s[..n + 1])[i] {
      assert i + 1 in s[..n + 1] <==> i + 1 in s[..n] || i + 1 == j;
    }
  }

  /** The values of two lists are dropped one after the other. */
  lemma RemovedTwice(C: seq<Instr>, s: seq<int>, t: seq<int>)
    ensures Removed(Removed(C, s), t) == Removed(C, s + t)
  {
  }
}
