/**
 The code generator for expressions: instructions are patched in place, jump lists
 run through their operands.
 */
module CodeGen {
  import opened Bytecode
  import opened JumpLists
  import opened CodeFlow
  import opened CodeOps
  import opened CodeJumps
  import opened CodeClose
  import opened CodeExpr
  import opened CodeSteps

  const MAXINDEXRK: nat := 255

  /** An expression: where its value is, and its lists of jumps for true and false. */
  datatype Expdesc = Expdesc(k: Kind, t: int, f: int)

  class FuncState {
    var code: seq<Instr>
    var k: seq<Val>
    /** The list of jumps that wait for the next instruction. */
    var jpc: int
    var freereg: nat
    const nactvar: nat
    ghost var ps: seq<int>

    ghost predicate Pending()
      reads this
    {
      IsList(code, jpc, ps) && Distinct(ps)
    }

    // -------------------------------------------------------------- jump lists

    /** `getjump`. */
    method GetJump(pc: int) returns (next: int)
      requires 0 <= pc < |code| && code[pc].Jmp?
      ensures next == NextJump(code, pc)
    {
      var offset := code[pc].sbx;
      if offset == NO_JUMP {
        return NO_JUMP;
      } else {
        return pc + 1 + offset;
      }
    }

    /** `fixjump`. */
    method FixJump(pc: int, dest: int)
      requires 0 <= pc < |code| && code[pc].Jmp?
      modifies `code
      ensures code == Fixed(old(code), pc, dest)
    {
      var offset := dest - (pc + 1);
      code := code[pc := Jmp(offset)];
    }

    /** `getjumpcontrol`: the test before a jump, or else the jump. */
    method GetJumpControl(pc: int) returns (c: int)
      requires 0 <= pc < |code|
      ensures c == if pc >= 1 && TMode(code[pc - 1]) then pc - 1 else pc
    {
      if pc >= 1 && TMode(code[pc - 1]) {
        return pc - 1;
      } else {
        return pc;
      }
    }

    /** `need_value`: whether some jump of the list brings no value. */
    method NeedValue(list0: int, ghost s: seq<int>) returns (b: bool)
      requires IsList(code, list0, s)
      ensures b <==> exists j :: j in s && !YieldsValue(code, j)
    {
      hide IsList;
      var list := list0;
      ghost var n := 0;
      assert s[0..] == s;
      while list != NO_JUMP
        invariant n <= |s| && IsList(code, list, s[n..])
        invariant forall j | j in s[..n] :: YieldsValue(code, j)
        decreases |s| - n
      {
        ListStep(code, list, s, n);
        var c := GetJumpControl(list);
        if !code[c].TestSet? {
          return true;
        }
        list := GetJump(list);
        n := n + 1;
      }
      ListStep(code, list, s, n);
      return false;
    }

    /** `patchtestreg`. */
    method PatchTestReg(node: int, reg: int) returns (b: bool)
      requires 0 <= node < |code| && code[node].Jmp?
      modifies `code
      ensures b == YieldsValue(old(code), node)
      ensures code == if b then old(code)[node - 1 := PatchedTest(old(code)[node - 1], reg)] else old(code)
    {
      var c := GetJumpControl(node);
      var i := code[c];
      if !i.TestSet? {
        return false;
      }
      if reg != NO_REG && reg != i.b {
        code := code[c := i.(target := reg)];
      } else {
        code := code[c := Test(i.b, i.c)];
      }
      return true;
    }

    /** `removevalues`. */
    method RemoveValues(list0: int, ghost s: seq<int>)
      requires IsList(code, list0, s) && Distinct(s)
      modifies `code
      ensures code == Removed(old(code), s)
    {
      hide IsList, Distinct;
      ghost var C := code;
      ListMembers(C, list0, s);
      var list := list0;
      ghost var n := 0;
      assert s[0..] == s && Removed(C, s[..0]) == C;
      while list != NO_JUMP
        invariant n <= |s| && IsList(C, list, s[n..]) && code == Removed(C, s[..n])
        decreases |s| - n
      {
        ListStep(C, list, s, n);
        RemovedMore(C, s, n);
        var b := PatchTestReg(list, NO_REG);
        list := GetJump(list);
        n := n + 1;
      }
      ListStep(C, list, s, n);
    }

    /** `patchlistaux`: jumps that bring a value go to one target, the others to
        another. */
    method PatchListAux(list0: int, ghost s: seq<int>, vtarget: int, reg: int, dtarget: int)
      requires IsList(code, list0, s) && Distinct(s)
      modifies `code
      ensures code == Patched(old(code), s, vtarget, reg, dtarget)
    {
      hide IsList, Distinct;
      ghost var C := code;
      ListMembers(C, list0, s);
      var list := list0;
      ghost var n := 0;
      assert s[0..] == s && Patched(C, s[..0], vtarget, reg, dtarget) == C;
      while list != NO_JUMP
        invariant n <= |s| && IsList(C, list, s[n..]) && code == Patched(C, s[..n], vtarget, reg, dtarget)
        decreases |s| - n
      {
        ListStep(C, list, s, n);
        PatchedMore(C, s, n, vtarget, reg, dtarget);
        var next := GetJump(list);
        var b := PatchTestReg(list, reg);
        if b {
          FixJump(list, vtarget);
        } else {
          FixJump(list, dtarget);
        }
        list := next;
        n := n + 1;
      }
      ListStep(C, list, s, n);
    }

    /** `luaK_concat`: the end of one list is linked to the start of the other. */
    method Concat(l1: int, l2: int, ghost s1: seq<int>, ghost s2: seq<int>) returns (l: int)
      requires IsList(code, l1, s1) && IsList(code, l2, s2) && Distinct(s1 + s2)
      modifies `code
      ensures IsList(code, l, s1 + s2) && |code| == |old(code)|
      ensures forall i | 0 <= i < |code| :: if i in s1 then code[i].Jmp? else code[i] == old(code)[i]
      ensures s1 == [] || s2 == [] ==> code == old(code)
    {
      ListMembers(code, l1, s1);
      ListMembers(code, l2, s2);
      if l2 == NO_JUMP {
        assert s1 + s2 == s1;
        return l1;
      } else if l1 == NO_JUMP {
        assert s1 + s2 == s2;
        return l2;
      }
      var list := l1;
      ghost var n := 0;
      assert s1[0..] == s1;
      var next := GetJump(list);
      while next != NO_JUMP
        invariant n < |s1| && list == s1[n] && IsList(code, list, s1[n..]) && next == NextJump(code, list)
        invariant code == old(code)
        decreases |s1| - n
      {
        assert s1[n..][1..] == s1[n + 1..];
        ListMembers(code, next, s1[n + 1..]);
        list := next;
        n := n + 1;
        assert s1[n..][0] == s1[n] && list in s1;
        next := GetJump(list);
      }
      assert s1[n..][1..] == s1[n + 1..];
      ListMembers(code, next, s1[n + 1..]);
      ListsJoined(code, l1, s1, l2, s2);
      FixJump(list, l2);
      return l1;
    }

    // -------------------------------------------------------------- emission

    /** `dischargejpc`. */
    method DischargeJpc()
      requires Pending()
      modifies `code, `jpc, `ps
      ensures code == Patched(old(code), old(ps), |old(code)|, NO_REG, |old(code)|)
      ensures jpc == NO_JUMP && ps == []
    {
      PatchListAux(jpc, ps, |code|, NO_REG, |code|);
      jpc := NO_JUMP;
      ps := [];
    }

    /** `luaK_code`. */
    method Code(i: Instr) returns (pc: nat)
      requires Pending()
      modifies `code, `jpc, `ps
      ensures pc == |old(code)|
      ensures code == Patched(old(code), old(ps), pc, NO_REG, pc) + [i]
      ensures jpc == NO_JUMP && ps == [] && Pending()
    {
      pc := |code|;
      DischargeJpc();
      code := code + [i];
    }

    /** `luaK_jump`: jumps that wait for this position go where the new jump goes. */
    method Jump() returns (j: int)
      requires Pending()
      modifies `code, `jpc, `ps
      ensures |code| == |old(code)| + 1 && code[..|old(code)|] == old(code) && code[|old(code)|].Jmp?
      ensures old(ps) == [] ==> code[|old(code)|] == Jmp(NO_JUMP) && j == |old(code)|
      ensures IsList(code, j, [|old(code)|] + old(ps)) && Distinct([|old(code)|] + old(ps))
      ensures jpc == NO_JUMP && ps == [] && Pending()
    {
      ghost var C, s := code, ps;
      var list := jpc;
      ListMembers(C, list, s);
      jpc := NO_JUMP;
      ps := [];
      var n := Code(Jmp(NO_JUMP));
      assert Patched(C, [], n, NO_REG, n) == C;
      ListFrame(C, code, list, s);
      assert IsList(code, n, [n]) by {
        assert [n][1..] == [];
      }
      assert n !in s && Distinct([n] + s);
      j := Concat(n, list, [n], s);
      if s == [] {
        assert [n] + s == [n];
      }
    }

    /** `condjump`. */
    method CondJump(T: Instr) returns (pc: int)
      requires Pending() && TMode(T)
      modifies `code, `jpc, `ps
      ensures code == Patched(old(code), old(ps), |old(code)|, NO_REG, |old(code)|) + [T, Jmp(NO_JUMP)]
      ensures pc == |old(code)| + 1 && IsList(code, pc, [pc]) && jpc == NO_JUMP && ps == [] && Pending()
    {
      ghost var D := Patched(code, ps, |code|, NO_REG, |code|);
      var c := Code(T);
      pc := Jump();
      assert [pc] + [] == [pc];
      assert code == code[..|D| + 1] + [code[|D| + 1]];
    }

    // -------------------------------------------------------------- registers, constants

    method ReserveRegs(n: nat)
      modifies `freereg
      ensures freereg == old(freereg) + n
    {
      freereg := freereg + n;
    }

    /** `freeexp`: a temporary register is given back. */
    method FreeExp(e: Expdesc)
      requires e.k.VNonReloc? && e.k.r >= nactvar ==> e.k.r == freereg - 1
      modifies `freereg
      ensures freereg == if e.k.VNonReloc? && e.k.r >= nactvar then old(freereg) - 1 else old(freereg)
    {
      if e.k.VNonReloc? && e.k.r >= nactvar {
        freereg := freereg - 1;
      }
    }

    /** `addk`: the index of a constant, which is added once. */
    method AddK(v: Val) returns (i: nat)
      modifies `k
      ensures old(k) <= k && i < |k| && k[i] == v && i <= |old(k)|
      ensures v in old(k) ==> k == old(k)
    {
      i := 0;
      while i < |k|
        invariant i <= |k| && k == old(k) && v !in k[..i]
      {
        if k[i] == v {
          return;
        }
        i := i + 1;
      }
      k := k + [v];
    }

    // -------------------------------------------------------------- what descriptors mean

    ghost function ViewOf(q: Kind, ts: seq<int>, fs: seq<int>): View
      reads this
    {
      View(code, ps, q, ts, fs)
    }

    /** The lists of a descriptor, and the state around it, are in order. */
    ghost predicate Lists(e: Expdesc, ts: seq<int>, fs: seq<int>, w: Around)
      reads this
    {
      && Shape(ViewOf(e.k, ts, fs), w)
      && IsList(code, jpc, ps) && IsList(code, e.t, ts) && IsList(code, e.f, fs)
      && (e.k.VK? ==> e.k.i < |k|)
    }

    /** An expression whose first free register was `free` occupies that one, or a
        local variable, or none. */
    ghost predicate Registers(q: Kind, free: nat)
      reads this
    {
      && nactvar <= free && (q.VLocal? ==> q.r < nactvar)
      && if q.VNonReloc? && q.r >= nactvar then q.r == free && freereg == free + 1 else freereg == free
    }

    ghost predicate In(e: Expdesc, ts: seq<int>, fs: seq<int>, w: Around, free: nat)
      reads this
    {
      Lists(e, ts, fs, w) && Registers(e.k, free)
    }

    ghost predicate Unchanged(C: seq<Instr>, l: seq<Val>, s: seq<int>, free: nat)
      reads this
    {
      code == C && k == l && ps == s && freereg == free
    }

    /** A kind that expressions have. */
    predicate Proper(q: Kind) { !q.Void? && !q.Passed? && !q.Fell? }

    // -------------------------------------------------------------- into registers

    /** `luaK_dischargevars`. */
    method DischargeVars(e: Expdesc, ghost ts: seq<int>, ghost fs: seq<int>, ghost w: Around, ghost free: nat, ghost reg: nat)
      returns (e': Expdesc)
      requires In(e, ts, fs, w, free)
      ensures In(e', ts, fs, w, free) && e'.t == e.t && e'.f == e.f
      ensures e'.k == if e.k.VLocal? then VNonReloc(e.k.r) else e.k
      ensures Stores(ViewOf(e.k, ts, fs), ViewOf(e'.k, ts, fs), w, k, reg)
    {
      hide Shape, Delivers, Stores;
      if e.k.VLocal? {
        e' := e.(k := VNonReloc(e.k.r));
        StoresLocal(ViewOf(e.k, ts, fs), w, k, reg);
      } else {
        e' := e;
        StoresSelf(ViewOf(e.k, ts, fs), w, k, reg);
      }
      StoredShape(ViewOf(e.k, ts, fs), ViewOf(e'.k, ts, fs), w, k, reg);
    }

    /** `discharge2reg`: the value goes to a register, unless it is still a jump. */
    method Discharge2Reg(e: Expdesc, reg: nat, ghost ts: seq<int>, ghost fs: seq<int>, ghost w: Around) returns (e': Expdesc)
      requires Lists(e, ts, fs, w) && Proper(e.k)
      modifies `code, `k, `jpc, `ps
      ensures Lists(e', ts, fs, w) && e'.t == e.t && e'.f == e.f
      ensures e'.k == if e.k.VJmp? then e.k else VNonReloc(reg)
      ensures Stores(old(ViewOf(e.k, ts, fs)), ViewOf(e'.k, ts, fs), w, k, reg)
      ensures Kept(old(code), code, w.O) && old(k) <= k
    {
      hide Shape, Delivers, Stores, Kept, Emit, Relocated, Conditional;
      ghost var V := ViewOf(e.k, ts, fs);
      if e.k.VJmp? {
        StoresSelf(V, w, k, reg);
        KeptSelf(code, w.O);
        return e;
      }
      if e.k.VRelocable? {
        RelocableParts(V, w);
        StoresRelocate(V, w, reg, k);
        RelocatedIs(V, reg);
        code := code[e.k.pc := Not(reg, code[e.k.pc].b)];
        ListFrame(V.C, code, jpc, []);
      } else if e.k == VNonReloc(reg) || e.k == VLocal(reg) {
        if e.k.VLocal? {
          StoresLocal(V, w, k, reg);
        } else {
          StoresSelf(V, w, k, reg);
        }
        KeptSelf(code, Elems(ts) + Elems(fs) + w.O);
      } else {
        var kn := 0;
        if e.k.VKNum? {
          kn := AddK(NumV(e.k.n));
        }
        StoresLoad(V, w, reg, kn, k);
        EmitIs(V, LoadInstr(e.k, reg, kn), VNonReloc(reg));
        PendingDistinct(V, w);
        var pc := Code(LoadInstr(e.k, reg, kn));
      }
      e' := e.(k := VNonReloc(reg));
      ListKept(V, w, code, e.t, ts);
      ListKept(V, w, code, e.f, fs);
      KeptLess(V.C, code, Elems(ts) + Elems(fs) + w.O, w.O);
      StoredShape(V, ViewOf(e'.k, ts, fs), w, k, reg);
    }

    /** `discharge2anyreg`. */
    method Discharge2AnyReg(e: Expdesc, ghost ts: seq<int>, ghost fs: seq<int>, ghost w: Around, ghost free: nat) returns (e': Expdesc)
      requires In(e, ts, fs, w, free) && Proper(e.k) && !e.k.VJmp? && !e.k.VLocal?
      modifies this
      ensures In(e', ts, fs, w, free) && e'.t == e.t && e'.f == e.f && e'.k.VNonReloc?
      ensures Keeps(old(ViewOf(e.k, ts, fs)), ViewOf(e'.k, ts, fs), w, k, free)
      ensures Kept(old(code), code, w.O) && old(k) <= k
    {
      hide Shape, Delivers, Stores, Keeps, Kept;
      if e.k.VNonReloc? {
        e' := e;
        KeepsSelf(ViewOf(e.k, ts, fs), w, k, free);
        KeptSelf(code, w.O);
      } else {
        ReserveRegs(1);
        e' := Discharge2Reg(e, freereg - 1, ts, fs, w);
        StoresKeeps(old(ViewOf(e.k, ts, fs)), ViewOf(e'.k, ts, fs), w, k, free, free);
      }
    }

    /** `code_label`. */
    method CodeLabel(a: nat, b: bool, skip: bool) returns (pc: nat)
      requires Pending() && ps == []
      modifies `code, `jpc, `ps
      ensures pc == |old(code)| && code == old(code) + [LoadBool(a, b, skip)]
      ensures jpc == NO_JUMP && ps == [] && Pending()
    {
      pc := Code(LoadBool(a, b, skip));
      assert Patched(old(code), [], pc, NO_REG, pc) == old(code);
    }

    /** `luaK_patchtohere`. */
    method PatchToHere(list: int, ghost s: seq<int>)
      requires Pending() && IsList(code, list, s) && Distinct(ps + s)
      modifies `code, `jpc, `ps
      ensures Pending() && ps == old(ps) + s && |code| == |old(code)|
      ensures forall i | 0 <= i < |code| :: if i in old(ps) then code[i].Jmp? else code[i] == old(code)[i]
      ensures old(ps) == [] || s == [] ==> code == old(code)
    {
      jpc := Concat(jpc, list, ps, s);
      ps := ps + s;
    }

    /** `exp2reg`: the value is in the register, however control comes. */
    method Exp2Reg(e: Expdesc, reg: nat, ghost ts: seq<int>, ghost fs: seq<int>, ghost w: Around) returns (e': Expdesc)
      requires Lists(e, ts, fs, w) && Proper(e.k)
      modifies `code, `k, `jpc, `ps
      ensures e' == Expdesc(VNonReloc(reg), NO_JUMP, NO_JUMP) && Lists(e', [], [], w)
      ensures Stores(old(ViewOf(e.k, ts, fs)), ViewOf(e'.k, [], []), w, k, reg)
      ensures Kept(old(code), code, w.O) && old(k) <= k
    {
      hide Shape, Delivers, Stores, Kept, Closes;
      e' := Discharge2Reg(e, reg, ts, fs, w);
      ghost var V, k1 := ViewOf(e'.k, ts, fs), k;
      ghost var V1, ts1 := V, ts;
      if e'.k.VJmp? {
        e', ts1 := JoinTrue(e', ts, fs, w, reg);
        V1 := View(code, ps, Fell, ts1, fs);
      } else {
        StoresSelf(V, w, k, reg);
        KeptSelf(code, w.O);
      }
      e' := CloseLists(e', reg, ts1, fs, V1, w);
      KeepsStores(V, V1, ViewOf(e'.k, [], []), w, k, k, reg);
      KeepsStores(old(ViewOf(e.k, ts, fs)), V, ViewOf(e'.k, [], []), w, k1, k, reg);
      KeptTwice(old(code), V.C, V1.C, w.O);
      KeptTwice(old(code), V1.C, code, w.O);
    }

    /** The jump of a comparison is put into the list for true. */
    method JoinTrue(e: Expdesc, ghost ts: seq<int>, ghost fs: seq<int>, ghost w: Around, ghost reg: nat)
      returns (e': Expdesc, ghost ts': seq<int>)
      requires Lists(e, ts, fs, w) && e.k.VJmp?
      modifies `code
      ensures e'.k == e.k && e'.f == e.f && ps == [] && Shape(View(code, ps, Fell, ts', fs), w)
      ensures IsList(code, jpc, ps) && IsList(code, e'.t, ts') && IsList(code, e'.f, fs)
      ensures exists j :: j in ts' && !YieldsValue(code, j)
      ensures Stores(old(ViewOf(e.k, ts, fs)), View(code, ps, Fell, ts', fs), w, k, reg) && Kept(old(code), code, w.O)
    {
      hide Shape, Delivers, Stores, Kept;
      ghost var V := ViewOf(e.k, ts, fs);
      StoresFell(V, w, reg, k);
      JmpList(V, w);
      var t := Concat(e.t, e.k.pc, ts, [e.k.pc]);
      ts' := ts + [e.k.pc];
      FellRelinked(V, w, code);
      StoresRelink(FellView(V), code, w, k, reg);
      KeepsStores(V, FellView(V), FellView(V).(C := code), w, k, k, reg);
      StoredShape(V, FellView(V).(C := code), w, k, reg);
      OffList(V, w, code, e.f, fs);
      e' := e.(t := t);
      assert e.k.pc in ts';
    }

    /** The second half of `exp2reg`: loads for jumps that bring no value, and all
        jumps patched. */
    method CloseLists(e: Expdesc, reg: nat, ghost ts: seq<int>, ghost fs: seq<int>, ghost V: View, ghost w: Around) returns (e': Expdesc)
      requires V == View(code, ps, if e.k.VJmp? then Fell else VNonReloc(reg), ts, fs) && Shape(V, w)
      requires IsList(code, jpc, ps) && IsList(code, e.t, ts) && IsList(code, e.f, fs)
      requires e.k.VJmp? ==> ps == [] && exists j :: j in ts && !YieldsValue(code, j)
      requires !e.k.VJmp? ==> e.k == VNonReloc(reg)
      modifies `code, `jpc, `ps
      ensures e' == Expdesc(VNonReloc(reg), NO_JUMP, NO_JUMP) && Lists(e', [], [], w)
      ensures Stores(V, ViewOf(e'.k, [], []), w, k, reg) && Kept(V.C, code, w.O)
    {
      hide Shape, Delivers, Stores, Kept, Closes, Patched;
      NoJumps(V, w, e.t, e.f);
      if e.t != e.f {
        var pf, pt := LoadLabels(e, reg, ts, fs, V, w);
        PatchBoth(e, reg, pf, pt, ts, fs, V, w);
      } else {
        StoresSelf(V, w, k, reg);
        KeptSelf(code, w.O);
      }
      e' := Expdesc(VNonReloc(reg), NO_JUMP, NO_JUMP);
      StoredShape(V, ViewOf(e'.k, [], []), w, k, reg);
    }

    /** Where false and true are loaded, if that is needed: the code is ready for the
        lists to be patched. */
    ghost predicate Labelled(V: View, C: seq<Instr>, s: seq<int>, reg: nat, pf: int, pt: int) {
      && |V.C| <= |C| && C[..|V.C|] == V.C
      && if |C| == |V.C| then
           V.k == VNonReloc(reg) && s == V.ps && forall j | j in V.ts || j in V.fs :: YieldsValue(V.C, j)
         else
           && |V.C| <= pf && pt == pf + 1 && |C| == pf + 2 && (V.ts != [] || V.fs != [])
           && C[pf] == LoadBool(reg, false, true) && C[pt] == LoadBool(reg, true, false)
           && if V.k.Fell? then pf == |V.C| && s == [] && V.ps == []
              else V.k == VNonReloc(reg) && pf == |V.C| + 1 && s == [|V.C|] + V.ps && C[|V.C|].Jmp?
    }

    method LoadLabels(e: Expdesc, reg: nat, ghost ts: seq<int>, ghost fs: seq<int>, ghost V: View, ghost w: Around) returns (pf: int, pt: int)
      requires V == View(code, ps, if e.k.VJmp? then Fell else VNonReloc(reg), ts, fs) && Shape(V, w)
      requires IsList(code, jpc, ps) && IsList(code, e.t, ts) && IsList(code, e.f, fs)
      requires e.k.VJmp? ==> ps == [] && exists j :: j in ts && !YieldsValue(code, j)
      requires !e.k.VJmp? ==> e.k == VNonReloc(reg)
      modifies `code, `jpc, `ps
      ensures Labelled(V, code, ps, reg, pf, pt) && IsList(code, jpc, ps)
    {
      hide Shape;
      ListsDistinct(V, w);
      ghost var N := |code|;
      pf, pt := NO_JUMP, NO_JUMP;
      var need := NeedValue(e.t, ts);
      if !need {
        need := NeedValue(e.f, fs);
      }
      if need {
        var fj := NO_JUMP;
        ghost var s: seq<int> := [];
        if !e.k.VJmp? {
          s := [N] + ps;
          fj := Jump();
        }
        pf, pt := TwoLabels(reg, fj, s);
      }
    }

    /** The loads of false and true, past which the list `fj` leads. */
    method TwoLabels(reg: nat, fj: int, ghost s: seq<int>) returns (pf: int, pt: int)
      requires Pending() && ps == [] && IsList(code, fj, s) && Distinct(s)
      modifies `code, `jpc, `ps
      ensures pf == |old(code)| && pt == pf + 1
      ensures code == old(code) + [LoadBool(reg, false, true), LoadBool(reg, true, false)]
      ensures ps == s && IsList(code, jpc, ps)
    {
      ghost var C := code;
      pf := CodeLabel(reg, false, true);
      pt := CodeLabel(reg, true, false);
      ListMembers(C, fj, s);
      ListFrame(C, code, fj, s);
      assert [] + s == s;
      PatchToHere(fj, s);
    }

    method PatchBoth(e: Expdesc, reg: nat, pf: int, pt: int, ghost ts: seq<int>, ghost fs: seq<int>, ghost V: View, ghost w: Around)
      requires Shape(V, w) && EndOf(V) == |V.C| && !V.k.VJmp? && V.ts == ts && V.fs == fs
      requires Labelled(V, code, ps, reg, pf, pt) && IsList(code, jpc, ps)
      requires IsList(V.C, e.t, ts) && IsList(V.C, e.f, fs)
      modifies `code
      ensures Stores(V, ClosedView(code, ps, reg), w, k, reg) && Kept(V.C, code, w.O) && IsList(code, jpc, ps)
    {
      hide Shape, Delivers, Stores, Kept, Closes, Patched;
      ListsDistinct(V, w);
      var final := |code|;
      ghost var C := code;
      ListsSurvive(V, w, C, e.t, e.f);
      PatchListAux(e.f, fs, final, reg, pf);
      AfterFalse(V, w, C, e.t, final, reg, pf);
      PatchListAux(e.t, ts, final, reg, pt);
      PatchingCloses(V, C, ps, reg, pf, pt, w);
      PendingSurvives(V, w, C, jpc, ps, final, reg, pf, pt);
      StoresClosed(V, code, ps, reg, pf, pt, w, k);
    }

    /** `luaK_exp2nextreg`. */
    method Exp2NextReg(e: Expdesc, ghost ts: seq<int>, ghost fs: seq<int>, ghost w: Around, ghost free: nat) returns (e': Expdesc)
      requires In(e, ts, fs, w, free) && Proper(e.k)
      modifies this
      ensures In(e', [], [], w, free) && e' == Expdesc(VNonReloc(free), NO_JUMP, NO_JUMP)
      ensures Keeps(old(ViewOf(e.k, ts, fs)), ViewOf(e'.k, [], []), w, k, free)
      ensures Kept(old(code), code, w.O) && old(k) <= k
    {
      hide Shape, Delivers, Stores, Keeps, Kept;
      e' := DischargeVars(e, ts, fs, w, free, free);
      ghost var V := ViewOf(e'.k, ts, fs);
      FreeExp(e');
      ReserveRegs(1);
      e' := Exp2Reg(e', freereg - 1, ts, fs, w);
      KeepsStores(old(ViewOf(e.k, ts, fs)), V, ViewOf(e'.k, [], []), w, old(k), k, free);
      StoresKeeps(old(ViewOf(e.k, ts, fs)), ViewOf(e'.k, [], []), w, k, free, free);
    }

    /** `luaK_exp2anyreg`. */
    method Exp2AnyReg(e: Expdesc, ghost ts: seq<int>, ghost fs: seq<int>, ghost w: Around, ghost free: nat) returns (e': Expdesc)
      requires In(e, ts, fs, w, free) && Proper(e.k)
      modifies this
      ensures In(e', [], [], w, free) && e'.k.VNonReloc? && e'.t == NO_JUMP && e'.f == NO_JUMP
      ensures ts == fs == [] && e.k.VNonReloc? ==> e'.k == e.k && Unchanged(old(code), old(k), old(ps), old(freereg))
      ensures Keeps(old(ViewOf(e.k, ts, fs)), ViewOf(e'.k, [], []), w, k, free)
      ensures Kept(old(code), code, w.O) && old(k) <= k
    {
      hide Shape, Delivers, Stores, Keeps, Kept;
      ghost var V0 := ViewOf(e.k, ts, fs);
      e' := DischargeVars(e, ts, fs, w, free, free);
      ghost var V := ViewOf(e'.k, ts, fs);
      StoresKeeps(V0, V, w, k, free, free);
      if e'.k.VNonReloc? {
        NoJumps(V, w, e'.t, e'.f);
        if e'.t == e'.f {
          KeptSelf(code, w.O);
          return;
        }
        if e'.k.r >= nactvar {
          e' := Exp2Reg(e', e'.k.r, ts, fs, w);
          StoresKeeps(V, ViewOf(e'.k, [], []), w, k, free, free);
          KeepsTwice(V0, V, ViewOf(e'.k, [], []), w, old(k), k, free, free);
          return;
        }
      }
      e' := Exp2NextReg(e', ts, fs, w, free);
      KeepsTwice(V0, V, ViewOf(e'.k, [], []), w, old(k), k, free, free);
    }

    /** `luaK_exp2val`. */
    method Exp2Val(e: Expdesc, ghost ts: seq<int>, ghost fs: seq<int>, ghost w: Around, ghost free: nat) returns (e': Expdesc)
      requires In(e, ts, fs, w, free) && Proper(e.k)
      modifies this
      ensures In(e', [], [], w, free) && Proper(e'.k) && !e'.k.VLocal? && e'.t == e'.f == NO_JUMP
      ensures ts == fs == [] && !e.k.VLocal? ==> e'.k == e.k && Unchanged(old(code), old(k), old(ps), old(freereg))
      ensures Keeps(old(ViewOf(e.k, ts, fs)), ViewOf(e'.k, [], []), w, k, free)
      ensures Kept(old(code), code, w.O) && old(k) <= k
    {
      hide Shape, Delivers, Stores, Keeps, Kept;
      NoJumps(ViewOf(e.k, ts, fs), w, e.t, e.f);
      if e.t != e.f {
        e' := Exp2AnyReg(e, ts, fs, w, free);
      } else {
        e' := DischargeVars(e, ts, fs, w, free, free);
        StoresKeeps(ViewOf(e.k, ts, fs), ViewOf(e'.k, ts, fs), w, k, free, free);
        KeptSelf(code, w.O);
      }
    }

    /** `luaK_exp2RK`: an operand, a constant if it fits there. */
    method Exp2RK(e: Expdesc, ghost ts: seq<int>, ghost fs: seq<int>, ghost w: Around, ghost free: nat) returns (e': Expdesc, rk: RK)
      requires In(e, ts, fs, w, free) && Proper(e.k)
      modifies this
      ensures In(e', [], [], w, free) && e'.t == e'.f == NO_JUMP && (e'.k.VK? || e'.k.VNonReloc?) && rk == RKOf(e'.k)
      ensures Keeps(old(ViewOf(e.k, ts, fs)), ViewOf(e'.k, [], []), w, k, free)
      ensures Kept(old(code), code, w.O) && old(k) <= k
      ensures e'.k.VK? ==> e'.k.i <= MAXINDEXRK
      ensures e.k.VNonReloc? || (e.k.VK? && e.k.i <= MAXINDEXRK) ==> ts == fs == [] ==> e'.k == e.k && Unchanged(old(code), old(k), old(ps), old(freereg))
    {
      hide Shape, Delivers, Stores, Keeps, Kept;
      ghost var V0 := ViewOf(e.k, ts, fs);
      e' := Exp2Val(e, ts, fs, w, free);
      ghost var V1, k1, C1 := ViewOf(e'.k, [], []), k, code;
      match e'.k {
        case VNil => 
          if |k| <= MAXINDEXRK {
            e' := Indexed(e', NilV, w, free);
            KeepsTwice(V0, V1, ViewOf(e'.k, [], []), w, k1, k, free, free);
            return e', Const(e'.k.i);
          }
        case VTrue =>
          if |k| <= MAXINDEXRK {
            e' := Indexed(e', BoolV(true), w, free);
            KeepsTwice(V0, V1, ViewOf(e'.k, [], []), w, k1, k, free, free);
            return e', Const(e'.k.i);
          }
        case VFalse =>
          if |k| <= MAXINDEXRK {
            e' := Indexed(e', BoolV(false), w, free);
            KeepsTwice(V0, V1, ViewOf(e'.k, [], []), w, k1, k, free, free);
            return e', Const(e'.k.i);
          }
        case VKNum(n) =>
          if |k| <= MAXINDEXRK {
            e' := Indexed(e', NumV(n), w, free);
            KeepsTwice(V0, V1, ViewOf(e'.k, [], []), w, k1, k, free, free);
            return e', Const(e'.k.i);
          }
        case VK(i) =>
          if i <= MAXINDEXRK {
            return e', Const(i);
          }
        case _ =>
      }
      e' := Exp2AnyReg(e', [], [], w, free);
      KeepsTwice(V0, V1, ViewOf(e'.k, [], []), w, k1, k, free, free);
      KeptTwice(old(code), C1, code, w.O);
      rk := Reg(e'.k.r);
    }

    /** A known value becomes a constant of the function. */
    method Indexed(e: Expdesc, v: Val, ghost w: Around, ghost free: nat) returns (e': Expdesc)
      requires In(e, [], [], w, free) && e.t == e.f == NO_JUMP
      requires match e.k
               case VNil => v == NilV
               case VTrue => v == BoolV(true)
               case VFalse => v == BoolV(false)
               case VKNum(n) => v == NumV(n)
               case _ => false
      modifies `k
      ensures e'.k.VK? && e'.k.i <= |old(k)| && In(e', [], [], w, free) && e'.t == e'.f == NO_JUMP && old(k) <= k
      ensures Keeps(old(ViewOf(e.k, [], [])), ViewOf(e'.k, [], []), w, k, free)
    {
      hide Shape, Delivers, Keeps;
      var i := AddK(v);
      e' := e.(k := VK(i));
      KeepsIndexed(ViewOf(e.k, [], []), w, i, k, free);
      KeptShape(ViewOf(e.k, [], []), ViewOf(e'.k, [], []), w, k, free);
    }

    // -------------------------------------------------------------- short circuits

    /** What a test leaves: its jump has joined a list, and jumps that agree with it
        wait for the next instruction. */
    ghost predicate TestedIn(b: bool, e: Expdesc, ts: seq<int>, fs: seq<int>, w: Around, free: nat)
      reads this
    {
      && Shape(ViewOf(Passed(b), ts, fs), w) && Tested(ViewOf(Passed(b), ts, fs), b)
      && IsList(code, jpc, ps) && IsList(code, e.t, ts) && IsList(code, e.f, fs)
      && nactvar <= free && freereg == free
    }

    /** `jumponcond`: the value is tested; a `not` that was emitted last is taken back. */
    method JumpOnCond(e: Expdesc, cond: bool, ghost ts: seq<int>, ghost fs: seq<int>, ghost w: Around, ghost free: nat)
      returns (pc: int)
      requires In(e, ts, fs, w, free) && Proper(e.k) && !e.k.VJmp? && !e.k.VLocal?
      modifies this
      ensures var W := ViewOf(Passed(!cond), if cond then ts + [pc] else ts, if cond then fs else fs + [pc]);
              Keeps(old(ViewOf(e.k, ts, fs)), W, w, k, free)
      ensures Pending() && ps == [] && IsList(code, pc, [pc]) && IsList(code, e.t, ts) && IsList(code, e.f, fs)
      ensures Kept(old(code), code, w.O) && old(k) <= k && freereg == free
    {
      hide Shape, Delivers, Keeps, Kept, Conditional, IsList;
      if e.k.VRelocable? {
        pc := TestNot(e, cond, ts, fs, w, free);
        return;
      }
      ghost var V := ViewOf(e.k, ts, fs);
      var e1 := Discharge2AnyReg(e, ts, fs, w, free);
      ghost var V1, k1 := ViewOf(e1.k, ts, fs), k;
      FreeExp(e1);
      pc := TestReg(e1, cond, ts, fs, w, free);
      KeptTwice(V.C, V1.C, code, w.O);
      KeepsTwice(V, V1, ViewOf(Passed(!cond), if cond then ts + [pc] else ts, if cond then fs else fs + [pc]), w, k1, k, free, free);
    }

    /** `OP_NOT` is removed and its operand tested the other way round. */
    method TestNot(e: Expdesc, cond: bool, ghost ts: seq<int>, ghost fs: seq<int>, ghost w: Around, ghost free: nat)
      returns (pc: int)
      requires Lists(e, ts, fs, w) && e.k.VRelocable?
      modifies `code, `jpc, `ps
      ensures var W := ViewOf(Passed(!cond), if cond then ts + [pc] else ts, if cond then fs else fs + [pc]);
              Keeps(old(ViewOf(e.k, ts, fs)), W, w, k, free)
      ensures Pending() && ps == [] && IsList(code, pc, [pc]) && IsList(code, e.t, ts) && IsList(code, e.f, fs)
      ensures Kept(old(code), code, w.O)
    {
      hide Shape, Delivers, Keeps, Kept, Conditional, Branch, Patched, IsList;
      ghost var V := ViewOf(e.k, ts, fs);
      RelocableParts(V, w);
      var ie := code[e.k.pc];
      code := code[..|code| - 1];
      KeepsBranchNot(V, w, !cond, k, free);
      ListFrame(V.C, code, jpc, []);
      pc := CondJump(Test(ie.b, !cond));
      BranchIs(Unnegated(V), Test(ie.b, !cond), !cond);
      ListKept(V, w, code, e.t, ts);
      ListKept(V, w, code, e.f, fs);
      KeptLess(V.C, code, Elems(ts) + Elems(fs) + w.O, w.O);
    }

    method TestReg(e: Expdesc, cond: bool, ghost ts: seq<int>, ghost fs: seq<int>, ghost w: Around, ghost free: nat)
      returns (pc: int)
      requires Lists(e, ts, fs, w) && e.k.VNonReloc?
      modifies `code, `jpc, `ps
      ensures var W := ViewOf(Passed(!cond), if cond then ts + [pc] else ts, if cond then fs else fs + [pc]);
              Keeps(old(ViewOf(e.k, ts, fs)), W, w, k, free)
      ensures Pending() && ps == [] && IsList(code, pc, [pc]) && IsList(code, e.t, ts) && IsList(code, e.f, fs)
      ensures Kept(old(code), code, w.O)
    {
      hide Shape, Delivers, Keeps, Kept, Conditional, Branch, Patched, IsList;
      ghost var V := ViewOf(e.k, ts, fs);
      KeepsBranchReg(V, w, !cond, k, free);
      PendingDistinct(V, w);
      pc := CondJump(TestSet(NO_REG, e.k.r, cond));
      BranchIs(V, TestSet(NO_REG, e.k.r, cond), !cond);
      ListKept(V, w, code, e.t, ts);
      ListKept(V, w, code, e.f, fs);
      KeptLess(V.C, code, Elems(ts) + Elems(fs) + w.O, w.O);
    }

    /** The end of `luaK_goiftrue` and of `luaK_goiffalse`: the new jump joins its list,
        and the other list waits for the next instruction. */
    method JoinTest(list: int, other: int, pc: int, b: bool, ghost r: seq<int>, ghost q: seq<int>, ghost s: seq<int>, ghost w: Around, ghost free: nat)
      returns (l: int)
      requires Shape(TestView(code, ps, b, q, r + s), w)
      requires IsList(code, jpc, ps) && IsList(code, list, r) && IsList(code, other, q) && IsList(code, pc, s)
      modifies `code, `jpc, `ps
      ensures Shape(TestView(code, ps, b, [], r + s), w) && IsList(code, jpc, ps) && IsList(code, l, r + s)
      ensures Keeps(TestView(old(code), old(ps), b, q, r + s), TestView(code, ps, b, [], r + s), w, k, free)
      ensures Kept(old(code), code, w.O)
    {
      hide Shape, Delivers, Keeps, Kept, Conditional, Relinked, TestView;
      ghost var C, s0 := code, ps;
      TestParts(C, s0, b, q, r + s, w);
      l := Concat(list, pc, r, s);
      ghost var C1 := code;
      ElemsJoin(r, s);
      TestRelinked(C, C1, r, s0, b, q, r + s, w, k, free);
      KeptShape(TestView(C, s0, b, q, r + s), TestView(C1, s0, b, q, r + s), w, k, free);
      ListOff(C, C1, jpc, s0, r);
      ListOff(C, C1, other, q, r);
      PassOther(other, l, b, q, r + s, w, free);
      KeepsTwice(TestView(C, s0, b, q, r + s), TestView(C1, s0, b, q, r + s), TestView(code, ps, b, [], r + s), w, k, k, free, free);
      KeptTwice(C, C1, code, w.O);
    }

    method PassOther(other: int, ghost l: int, ghost b: bool, ghost q: seq<int>, ghost r: seq<int>, ghost w: Around, ghost free: nat)
      requires Shape(TestView(code, ps, b, q, r), w)
      requires IsList(code, jpc, ps) && IsList(code, other, q) && IsList(code, l, r)
      modifies `code, `jpc, `ps
      ensures Shape(TestView(code, ps, b, [], r), w) && IsList(code, jpc, ps) && IsList(code, l, r)
      ensures Keeps(TestView(old(code), old(ps), b, q, r), TestView(code, ps, b, [], r), w, k, free)
      ensures Kept(old(code), code, w.O)
    {
      hide Shape, Delivers, Keeps, Kept, Conditional, Relinked, TestView;
      ghost var C, s0 := code, ps;
      TestParts(C, s0, b, q, r, w);
      PatchToHere(other, q);
      TestRelinked(C, code, s0, s0, b, q, r, w, k, free);
      KeptShape(TestView(C, s0, b, q, r), TestView(code, s0, b, q, r), w, k, free);
      TestHere(code, s0, b, q, r, w, k, free);
      KeptShape(TestView(code, s0, b, q, r), TestView(code, ps, b, [], r), w, k, free);
      KeepsTwice(TestView(C, s0, b, q, r), TestView(code, s0, b, q, r), TestView(code, ps, b, [], r), w, k, k, free, free);
      ListOff(C, code, l, r, s0);
    }

    /** `luaK_goiftrue`: control leaves unless the value is true. */
    method GoIfTrue(e: Expdesc, ghost ts: seq<int>, ghost fs: seq<int>, ghost w: Around, ghost free: nat)
      returns (e': Expdesc, ghost fs': seq<int>)
      requires In(e, ts, fs, w, free) && Proper(e.k) && (e.k.VK? ==> Truthy(k[e.k.i]))
      modifies this
      ensures TestedIn(true, e', [], fs', w, free) && old(k) <= k && Kept(old(code), code, w.O)
      ensures Keeps(old(ViewOf(e.k, ts, fs)), ViewOf(Passed(true), [], fs'), w, k, free)
    {
      hide Shape, Delivers, Keeps, Kept, Conditional, Stores, IsList;
      ghost var V := ViewOf(e.k, ts, fs);
      var e1 := DischargeVars(e, ts, fs, w, free, free);
      ghost var V1, C1 := ViewOf(e1.k, ts, fs), code;
      StoresKeeps(V, V1, w, k, free, free);
      var pc := NO_JUMP;
      ghost var s: seq<int> := [];
      if e1.k.VK? || e1.k.VKNum? || e1.k.VTrue? {
        KeepsConstant(V1, w, true, k, free);
        KeptSelf(code, w.O);
        NoList(code);
        assert fs + [] == fs;
      } else if e1.k.VJmp? {
        InvertJump(e1, ts, fs, w, free);
        pc := e1.k.pc;
        s := [pc];
      } else {
        pc := JumpOnCond(e1, false, ts, fs, w, free);
        s := [pc];
      }
      ghost var V2, C2, k2 := ViewOf(Passed(true), ts, fs + s), code, k;
      KeptShape(V1, V2, w, k, free);
      var f := JoinTest(e1.f, e1.t, pc, true, fs, ts, s, w, free);
      fs' := fs + s;
      e' := Expdesc(Passed(true), NO_JUMP, f);
      NoList(code);
      KeepsTwice(V1, V2, ViewOf(Passed(true), [], fs'), w, k2, k, free, free);
      KeepsTwice(V, V1, ViewOf(Passed(true), [], fs'), w, old(k), k, free, free);
      KeptTwice(C1, C2, code, w.O);
    }

    /** `luaK_goiffalse`: control leaves unless the value is false. */
    method GoIfFalse(e: Expdesc, ghost ts: seq<int>, ghost fs: seq<int>, ghost w: Around, ghost free: nat)
      returns (e': Expdesc, ghost ts': seq<int>)
      requires In(e, ts, fs, w, free) && Proper(e.k)
      modifies this
      ensures TestedIn(false, e', ts', [], w, free) && old(k) <= k && Kept(old(code), code, w.O)
      ensures Keeps(old(ViewOf(e.k, ts, fs)), ViewOf(Passed(false), ts', []), w, k, free)
    {
      hide Shape, Delivers, Keeps, Kept, Conditional, Stores, IsList, Jumped;
      ghost var V := ViewOf(e.k, ts, fs);
      var e1 := DischargeVars(e, ts, fs, w, free, free);
      ghost var V1, C1 := ViewOf(e1.k, ts, fs), code;
      StoresKeeps(V, V1, w, k, free, free);
      var pc := NO_JUMP;
      ghost var s: seq<int> := [];
      if e1.k.VNil? || e1.k.VFalse? {
        KeepsConstant(V1, w, false, k, free);
        KeptSelf(code, w.O);
        NoList(code);
        assert ts + [] == ts;
      } else if e1.k.VJmp? {
        JmpList(V1, w);
        KeepsJumped(V1, w, false, k, free);
        JumpedLists(V1, false);
        JumpedSame(V1);
        KeptSelf(code, w.O);
        pc := e1.k.pc;
        s := [pc];
      } else {
        pc := JumpOnCond(e1, true, ts, fs, w, free);
        s := [pc];
      }
      ghost var V2, C2, k2 := ViewOf(Passed(false), ts + s, fs), code, k;
      KeptShape(V1, V2, w, k, free);
      var t := JoinTest(e1.t, e1.f, pc, false, ts, fs, s, w, free);
      ts' := ts + s;
      e' := Expdesc(Passed(false), t, NO_JUMP);
      NoList(code);
      KeepsTwice(V1, V2, ViewOf(Passed(false), ts', []), w, k2, k, free, free);
      KeepsTwice(V, V1, ViewOf(Passed(false), ts', []), w, old(k), k, free, free);
      KeptTwice(C1, C2, code, w.O);
    }

    /** `invertjump`, as `luaK_goiftrue` uses it. */
    method InvertJump(e: Expdesc, ghost ts: seq<int>, ghost fs: seq<int>, ghost w: Around, ghost free: nat)
      requires Lists(e, ts, fs, w) && e.k.VJmp?
      modifies `code
      ensures 0 < e.k.pc < |code| == |old(code)| && old(code)[e.k.pc - 1].Compare? && code == Inverted(old(code), e.k.pc)
      ensures Keeps(old(ViewOf(e.k, ts, fs)), ViewOf(Passed(true), ts, fs + [e.k.pc]), w, k, free)
      ensures IsList(code, jpc, ps) && ps == [] && IsList(code, e.t, ts) && IsList(code, e.f, fs) && IsList(code, e.k.pc, [e.k.pc])
      ensures Kept(old(code), code, w.O)
    {
      hide Shape, Delivers, Keeps, Kept, Conditional;
      ghost var V := ViewOf(e.k, ts, fs);
      JmpList(V, w);
      KeepsJumped(V, w, true, k, free);
      var pc := GetJumpControl(e.k.pc);
      code := code[pc := code[pc].(cond := !code[pc].cond)];
      ListFrame(V.C, code, jpc, []);
      ListKept(V, w, code, e.t, ts);
      ListKept(V, w, code, e.f, fs);
      ListFrame(V.C, code, e.k.pc, [e.k.pc]);
      KeptLess(V.C, code, Elems(ts) + Elems(fs) + w.O, w.O);
    }

    // -------------------------------------------------------------- operators

    /** The end of `codenot`: the lists change places, and lose their values. */
    method ExchangeLists(e: Expdesc, ghost ts: seq<int>, ghost fs: seq<int>, ghost w: Around) returns (e': Expdesc)
      requires Distinct(ts) && Distinct(fs)
      requires IsList(code, jpc, ps) && IsList(code, e.t, ts) && IsList(code, e.f, fs)
      modifies `code
      ensures e' == Expdesc(e.k, e.f, e.t) && code == Removed(old(code), ts + fs)
      ensures IsList(code, jpc, ps) && IsList(code, e'.t, fs) && IsList(code, e'.f, ts)
    {
      hide Removed, IsList;
      ghost var C := code;
      e' := Expdesc(e.k, e.f, e.t);
      RemovedLists(C, ts, e.f, fs);
      RemoveValues(e'.f, ts);
      RemoveValues(e'.t, fs);
      RemovedTwice(C, ts, fs);
      RemovedLists(C, ts + fs, e.t, ts);
      RemovedLists(C, ts + fs, e.f, fs);
      RemovedLists(C, ts + fs, jpc, ps);
    }

    /** `codenot`. */
    method CodeNot(e: Expdesc, ghost ts: seq<int>, ghost fs: seq<int>, ghost w: Around, ghost free: nat) returns (e': Expdesc)
      requires In(e, ts, fs, w, free) && Proper(e.k) && (e.k.VK? ==> Truthy(k[e.k.i]))
      modifies this
      ensures In(e', fs, ts, w, free) && Proper(e'.k) && !e'.k.VK? && old(k) <= k && Kept(old(code), code, w.O)
      ensures Denies(old(ViewOf(e.k, ts, fs)), ViewOf(e'.k, fs, ts), w, k, free)
    {
      hide Shape, Delivers, Keeps, Kept, Conditional, Stores, IsList, Denies, Removed, Distinct, Inverted, Denied;
      ghost var V := ViewOf(e.k, ts, fs);
      var e1 := DischargeVars(e, ts, fs, w, free, free);
      ghost var V1 := ViewOf(e1.k, ts, fs);
      StoresKeeps(V, V1, w, k, free, free);
      ListsDistinct(V1, w);
      ghost var k1 := k;
      if e1.k.VNil? || e1.k.VFalse? || e1.k.VK? || e1.k.VKNum? || e1.k.VTrue? {
        DeniesConstant(V1, w, k, free);
        e' := ExchangeLists(e1.(k := if e1.k.VNil? || e1.k.VFalse? then VTrue else VFalse), ts, fs, w);
        KeepsDenies(V, V1, ViewOf(e'.k, fs, ts), w, k1, k, free);
      } else if e1.k.VJmp? {
        DeniesComparison(V1, w, k, free);
        FlipTest(e1, ts, fs, w);
        e' := ExchangeLists(e1, ts, fs, w);
        KeepsDenies(V, V1, ViewOf(e'.k, fs, ts), w, k1, k, free);
      } else {
        var e2 := Discharge2AnyReg(e1, ts, fs, w, free);
        ghost var V2, k2 := ViewOf(e2.k, ts, fs), k;
        KeepsTwice(V, V1, V2, w, k1, k, free, free);
        FreeExp(e2);
        DeniesRegister(V2, w, k, free);
        var pc := EmitNot(e2, ts, fs, w);
        e' := ExchangeLists(e2.(k := VRelocable(pc)), ts, fs, w);
        KeepsDenies(V, V2, ViewOf(e'.k, fs, ts), w, k2, k, free);
        KeptTwice(V.C, V2.C, code, w.O);
      }
      DeniedEnd(V, ViewOf(e'.k, fs, ts), w, k, free);
    }

    /** `invertjump`, as `codenot` uses it. */
    method FlipTest(e: Expdesc, ghost ts: seq<int>, ghost fs: seq<int>, ghost w: Around)
      requires Lists(e, ts, fs, w) && e.k.VJmp?
      modifies `code
      ensures 0 < e.k.pc < |old(code)| && old(code)[e.k.pc - 1].Compare? && code == Inverted(old(code), e.k.pc)
      ensures IsList(code, jpc, ps) && IsList(code, e.t, ts) && IsList(code, e.f, fs)
    {
      hide Shape, Kept, Conditional;
      ghost var V := ViewOf(e.k, ts, fs);
      JmpList(V, w);
      InvertedShape(V, w);
      var pc := GetJumpControl(e.k.pc);
      code := code[pc := code[pc].(cond := !code[pc].cond)];
      ListFrame(V.C, code, jpc, []);
      ListKept(V, w, code, e.t, ts);
      ListKept(V, w, code, e.f, fs);
    }

    method EmitNot(e: Expdesc, ghost ts: seq<int>, ghost fs: seq<int>, ghost w: Around) returns (pc: nat)
      requires Lists(e, ts, fs, w) && e.k.VNonReloc?
      modifies `code, `jpc, `ps
      ensures pc == |old(code)| && View(code, ps, VRelocable(pc), ts, fs) == Denied(old(ViewOf(e.k, ts, fs)), e.k.r)
      ensures IsList(code, jpc, ps) && IsList(code, e.t, ts) && IsList(code, e.f, fs)
    {
      hide Shape, Kept, Conditional;
      ghost var V := ViewOf(e.k, ts, fs);
      DeniedShape(V, e.k.r, w);
      PendingDistinct(V, w);
      pc := Code(Not(0, e.k.r));
      ListKept(V, w, code, e.t, ts);
      ListKept(V, w, code, e.f, fs);
    }

    /** `codecomp`, once both operands are at hand: the comparison and its jump. */
    method CodeComp(op: BinOpr, x: RK, e2: Expdesc, y: RK, ghost w: Around) returns (e: Expdesc)
      requires !op.OprAnd? && !op.OprOr?
      requires Lists(e2, [], [], w) && (e2.k.VK? || e2.k.VNonReloc?)
      modifies `code, `jpc, `ps
      ensures Lists(e, [], [], w) && e.k.VJmp?
      ensures ViewOf(e.k, [], []) == Comparing(old(ViewOf(e2.k, [], [])), CompareInstr(op, x, y))
      ensures Kept(old(code), code, w.O)
    {
      hide Shape, Kept;
      ghost var V := ViewOf(e2.k, [], []);
      ComparingShape(V, w, CompareInstr(op, x, y));
      PendingDistinct(V, w);
      var cond := !op.OprNe? && !op.OprGt? && !op.OprGe?;
      var q := if op.OprEq? || op.OprNe? then EQ else if op.OprLt? || op.OprGt? then LT else LE;
      var o1, o2 := x, y;
      if !cond && q != EQ {
        o1, o2 := o2, o1;
        cond := true;
      }
      var pc := CondJump(Compare(q, cond, o1, o2));
      KeptLess(V.C, code, Elems([]) + Elems([]) + w.O, w.O);
      e := Expdesc(VJmp(pc), NO_JUMP, NO_JUMP);
    }

    // -------------------------------------------------------------- expressions

    /** `subexpr`: code for an expression, operands from left to right. */
    method SubExpr(E: Expr, ghost w: Around, ghost free: nat) returns (e: Expdesc, ghost ts: seq<int>, ghost fs: seq<int>)
      requires Shape(ViewOf(Void, [], []), w) && IsList(code, jpc, ps)
      requires nactvar <= free == freereg && LocalsBelow(E, nactvar)
      modifies this
      ensures In(e, ts, fs, w, free) && Proper(e.k) && (e.k.VK? ==> Truthy(k[e.k.i]))
      ensures Computes(old(ViewOf(Void, [], [])), ViewOf(e.k, ts, fs), w, k, nactvar, free, E)
      ensures Kept(old(code), code, w.O) && old(k) <= k
      decreases Size(E), 2
    {
      hide Shape, Computes, Kept, IsList, Denies;
      ghost var S := ViewOf(Void, [], []);
      match E {
        case ENot(a) =>
          e, ts, fs := SubExpr(a, w, free);
          ghost var V, k1 := ViewOf(e.k, ts, fs), k;
          e := CodeNot(e, ts, fs, w, free);
          ts, fs := fs, ts;
          DeniedComputes(S, V, ViewOf(e.k, ts, fs), w, k1, k, nactvar, free, a);
          KeptTwice(S.C, V.C, code, w.O);
        case EBin(op, a, b) =>
          if op.OprAnd? || op.OprOr? {
            e, ts, fs := Logical(op.OprAnd?, a, b, w, free);
          } else {
            e := Relational(op, a, b, w, free);
            ts, fs := [], [];
          }
        case EStr(s) =>
          var i := AddK(StrV(s));
          e, ts, fs := Expdesc(VK(i), NO_JUMP, NO_JUMP), [], [];
          LeafComputes(S, w, E, e.k, k, nactvar, free);
          NoList(code);
          KeptSelf(code, w.O);
        case _ =>
          var q := match E
            case ENil => VNil
            case ETrue => VTrue
            case EFalse => VFalse
            case ENum(n) => VKNum(n)
            case ELocal(r) => VLocal(r)
            case _ => VNil;
          e, ts, fs := Expdesc(q, NO_JUMP, NO_JUMP), [], [];
          LeafComputes(S, w, E, q, k, nactvar, free);
          NoList(code);
          KeptSelf(code, w.O);
      }
    }

    /** `and`, `or`: `luaK_infix`, the second operand, `luaK_posfix`. */
    method Logical(isAnd: bool, a: Expr, b: Expr, ghost w: Around, ghost free: nat)
      returns (e: Expdesc, ghost ts: seq<int>, ghost fs: seq<int>)
      requires Shape(ViewOf(Void, [], []), w) && IsList(code, jpc, ps)
      requires nactvar <= free == freereg && LocalsBelow(a, nactvar) && LocalsBelow(b, nactvar)
      modifies this
      ensures In(e, ts, fs, w, free) && Proper(e.k) && (e.k.VK? ==> Truthy(k[e.k.i]))
      ensures var E := EBin(if isAnd then OprAnd else OprOr, a, b);
              Computes(old(ViewOf(Void, [], [])), ViewOf(e.k, ts, fs), w, k, nactvar, free, E)
      ensures Kept(old(code), code, w.O) && old(k) <= k
      decreases 1 + Size(a) + Size(b), 1
    {
      hide Shape, Computes, Keeps, Kept, IsList, Tested, Outside;
      ghost var S := ViewOf(Void, [], []);
      var e1, ts1, fs1 := SubExpr(a, w, free);
      ghost var V1, k1 := ViewOf(e1.k, ts1, fs1), k;
      if isAnd {
        e1, fs1 := GoIfTrue(e1, ts1, fs1, w, free);
        ts1 := [];
      } else {
        e1, ts1 := GoIfFalse(e1, ts1, fs1, w, free);
        fs1 := [];
      }
      ghost var V, k2 := ViewOf(Passed(isAnd), ts1, fs1), k;
      ComputesThenKeeps(S, V1, V, w, k1, k2, nactvar, free, free, a);
      KeptTwice(S.C, V1.C, V.C, w.O);
      ghost var u := Outside(V, w);
      ArrivedShape(V, w);
      var e2, ts2, fs2 := SubExpr(b, u, free);
      ghost var U, k3 := ViewOf(e2.k, ts2, fs2), k;
      e2 := DischargeVars(e2, ts2, fs2, u, free, free);
      ghost var U1 := ViewOf(e2.k, ts2, fs2);
      StoresKeeps(U, U1, u, k3, free, free);
      ComputesThenKeeps(Arrived(V), U, U1, u, k3, k3, nactvar, free, free, b);
      ShortCircuit(S, V, U1, w, isAnd, a, b, k2, k3, nactvar, free);
      e, ts, fs := JoinLists(isAnd, e1, e2, ts1, fs1, ts2, fs2, V, w, free);
      ComputesThenKeeps(S, Both(V, U1), ViewOf(e.k, ts, fs), w, k3, k3, nactvar, free, free, EBin(if isAnd then OprAnd else OprOr, a, b));
      OuterLess(V, w, V.C, U1.C);
      KeptTwice(S.C, V.C, U1.C, w.O);
      KeptTwice(S.C, U1.C, code, w.O);
    }

    /** `luaK_posfix` of `and` and `or`: the list that the first operand left is linked
        behind that of the second. */
    method JoinLists(isAnd: bool, e1: Expdesc, e2: Expdesc, ghost ts1: seq<int>, ghost fs1: seq<int>, ghost ts2: seq<int>, ghost fs2: seq<int>,
                     ghost V: View, ghost w: Around, ghost free: nat)
      returns (e: Expdesc, ghost ts: seq<int>, ghost fs: seq<int>)
      requires Shape(V, w) && Tested(V, isAnd) && V.ts == ts1 && V.fs == fs1
      requires IsList(V.C, e1.t, ts1) && IsList(V.C, e1.f, fs1) && Kept(V.C, code, Outside(V, w).O)
      requires In(e2, ts2, fs2, Outside(V, w), free)
      modifies `code
      ensures e.k == e2.k && In(e, ts, fs, w, free)
      ensures Keeps(Both(V, old(ViewOf(e2.k, ts2, fs2))), ViewOf(e.k, ts, fs), w, k, free) && Kept(old(code), code, w.O)
    {
      hide Shape, Keeps, Kept, Outside;
      ghost var U := ViewOf(e2.k, ts2, fs2);
      BothParts(V, U, w);
      ts, fs := ts2 + ts1, fs2 + fs1;
      if isAnd {
        OuterLists(V, code, w, e1.f, fs1);
        var f := Concat(e2.f, e1.f, fs2, fs1);
        BothRelinked(V, U, code, fs2, w, k, free);
        ListOff(U.C, code, e2.t, ts2, fs2);
        ListOff(U.C, code, jpc, ps, fs2);
        assert ts2 + [] == ts2;
        e := e2.(f := f);
      } else {
        OuterLists(V, code, w, e1.t, ts1);
        var t := Concat(e2.t, e1.t, ts2, ts1);
        BothRelinked(V, U, code, ts2, w, k, free);
        ListOff(U.C, code, e2.f, fs2, ts2);
        ListOff(U.C, code, jpc, ps, ts2);
        assert fs2 + [] == fs2;
        e := e2.(t := t);
      }
      KeptShape(Both(V, U), ViewOf(e.k, ts, fs), w, k, free);
    }

    /** `luaK_exp2RK` of what already is an operand. */
    method OperandAgain(e: Expdesc) returns (rk: RK)
      requires e.k.VNonReloc? || (e.k.VK? && e.k.i <= MAXINDEXRK)
      ensures rk == RKOf(e.k)
    {
      match e.k
      case VK(i) => return Const(i);
      case VNonReloc(r) => return Reg(r);
    }

    /** Comparisons: `luaK_infix`, the second operand, `luaK_posfix`. */
    method Relational(op: BinOpr, a: Expr, b: Expr, ghost w: Around, ghost free: nat) returns (e: Expdesc)
      requires !op.OprAnd? && !op.OprOr?
      requires Shape(ViewOf(Void, [], []), w) && IsList(code, jpc, ps)
      requires nactvar <= free == freereg && LocalsBelow(a, nactvar) && LocalsBelow(b, nactvar)
      modifies this
      ensures In(e, [], [], w, free) && e.k.VJmp?
      ensures Computes(old(ViewOf(Void, [], [])), ViewOf(e.k, [], []), w, k, nactvar, free, EBin(op, a, b))
      ensures Kept(old(code), code, w.O) && old(k) <= k
      decreases 1 + Size(a) + Size(b), 1
    {
      hide Shape, Computes, Keeps, Kept, IsList, Comparing, CompareInstr;
      ghost var S := ViewOf(Void, [], []);
      var e1, o1 := OperandOf(a, w, free);
      ghost var V, k1, more := ViewOf(e1.k, [], []), k, freereg;
      OperandArrived(V, w);
      var e2, o2 := OperandOf(b, w, more);
      o1 := OperandAgain(e1);
      ghost var U, k2 := ViewOf(e2.k, [], []), k;
      KeptTwice(S.C, V.C, U.C, w.O);
      FreeExp(e2);
      FreeExp(e1);
      e := CodeComp(op, o1, e2, o2, w);
      ComparisonComputes(S, V, U, w, op, a, b, k1, k2, nactvar, free, more);
      KeptTwice(S.C, U.C, code, w.O);
    }

    /** An operand of a comparison: a constant or a register. */
    method OperandOf(E: Expr, ghost w: Around, ghost free: nat) returns (e: Expdesc, rk: RK)
      requires Shape(ViewOf(Void, [], []), w) && IsList(code, jpc, ps)
      requires nactvar <= free == freereg && LocalsBelow(E, nactvar)
      modifies this
      ensures In(e, [], [], w, free) && IsOperand(ViewOf(e.k, [], [])) && rk == RKOf(e.k)
      ensures free <= freereg && Safe(e.k, freereg) && (e.k.VK? ==> e.k.i <= MAXINDEXRK)
      ensures Computes(old(ViewOf(Void, [], [])), ViewOf(e.k, [], []), w, k, nactvar, free, E)
      ensures Kept(old(code), code, w.O) && old(k) <= k
      decreases Size(E), 3
    {
      hide Shape, Computes, Keeps, Kept, IsList;
      ghost var S := ViewOf(Void, [], []);
      var e1, ts, fs := SubExpr(E, w, free);
      ghost var V0, k0 := ViewOf(e1.k, ts, fs), k;
      e, rk := Exp2RK(e1, ts, fs, w, free);
      ComputesThenKeeps(S, V0, ViewOf(e.k, [], []), w, k0, k, nactvar, free, free, E);
      KeptTwice(S.C, V0.C, code, w.O);
    }

    /** Code for an expression whose value goes to register `reg`, followed by any
        instruction: from where it starts to there, with all jumps closed, the code
        puts the value of the expression into the register and keeps the others, or
        raises the error that evaluation raises. The jumps that waited lead to the
        start, and no other code is touched. */
    method CompileInto(E: Expr, reg: nat, next: Instr) returns (ghost start: nat, ghost end: nat)
      requires Pending() && nactvar <= freereg && LocalsBelow(E, nactvar)
      modifies this
      ensures start == |old(code)| <= end && |code| == end + 1 && code[end] == next && ps == []
      ensures old(k) <= k
      ensures forall j | j in old(ps) :: 0 <= j < start && code[j].Jmp? && Target(code, j) == start
      ensures forall i | 0 <= i < start && i !in old(ps) ::
                code[i] == if i + 1 in old(ps) then PatchedTest(old(code)[i], NO_REG) else old(code)[i]
      ensures forall m: Env, R: Regs | k <= m.k :: Evaluates(code, start, end, m, R, E, reg, old(freereg))
    {
      hide Shape, Computes, Kept, Stores, Evaluates, Distinct, IsList;
      ghost var S, free, w := ViewOf(Void, [], []), freereg, Around(|code|, {}, code, ps);
      start := |code|;
      StartShape(code, jpc, ps);
      var e, ts, fs := SubExpr(E, w, free);
      ghost var V, k1 := ViewOf(e.k, ts, fs), k;
      e := Exp2Reg(e, reg, ts, fs, w);
      ghost var U := ViewOf(e.k, [], []);
      end := |code|;
      EndPending(U, w);
      EndPrior(U, w, next);
      var pc := Code(next);
      forall m: Env, R: Regs | k <= m.k ensures Evaluates(code, start, end, m, R, E, reg, free) {
        Compiled(S, V, U, next, m, R, E, reg, k1, k, nactvar, free);
      }
    }
  }

  function Size(E: Expr): nat {
    match E
    case ENot(e) => 1 + Size(e)
    case EBin(_, a, b) => 1 + Size(a) + Size(b)
    case _ => 0
  }

  lemma KeptSelf(C: seq<Instr>, s: set<int>)
    ensures Kept(C, C, s)
  {
  }

  lemma RelocatedIs(V: View, reg: nat)
    requires V.k.VRelocable? && 0 <= V.k.pc < |V.C| && V.C[V.k.pc].Not?
    ensures Relocated(V, reg) == View(V.C[V.k.pc := Not(reg, V.C[V.k.pc].b)], [], VNonReloc(reg), V.ts, V.fs)
  {
  }

  lemma EmitIs(V: View, i: Instr, q: Kind)
    ensures Emit(V, [i], q) == View(Patched(V.C, V.ps, |V.C|, NO_REG, |V.C|) + [i], [], q, V.ts, V.fs)
  {
  }

  lemma PendingDistinct(V: View, w: Around)
    requires Shape(V, w)
    ensures Distinct(V.ps)
  {
  }

  lemma BranchIs(V: View, T: Instr, b: bool)
    ensures Branch(V, T, b) == View(Patched(V.C, V.ps, |V.C|, NO_REG, |V.C|) + [T, Jmp(NO_JUMP)], [], Passed(b),
                                    if b then V.ts else V.ts + [|V.C| + 1], if b then V.fs + [|V.C| + 1] else V.fs)
  {
  }

  lemma NoList(C: seq<Instr>)
    ensures IsList(C, NO_JUMP, [])
  {
  }

  lemma JumpedSame(V: View)
    requires V.k.VJmp? && 0 < V.k.pc <= |V.C| && V.C[V.k.pc - 1].Compare?
    ensures Jumped(V, false).C == V.C && Jumped(V, false).ps == []
  {
  }

  lemma DeniedEnd(V: View, W: View, w: Around, k: seq<Val>, free: nat)
    requires Denies(V, W, w, k, free)
    ensures Shape(V, w) && Shape(W, w)
  {
  }

  lemma OperandArrived(V: View, w: Around)
    requires Shape(V, w) && IsOperand(V)
    ensures Shape(Arrived(V), w) && EndOf(V) == |V.C|
  {
    assert Open(Arrived(V), w) == Open(V, w);
  }

  lemma StartShape(C: seq<Instr>, l: int, s: seq<int>)
    requires IsList(C, l, s) && Distinct(s)
    ensures Shape(View(C, s, Void, [], []), Around(|C|, {}, C, s))
    ensures forall j | j in s :: 0 <= j < |C| && C[j].Jmp?
  {
    ListMembers(C, l, s);
    assert Elems([]) == {};
  }

  /** What comes before the expression, once all is closed. */
  lemma EndPrior(U: View, w: Around, i: Instr)
    requires Shape(U, w) && forall j | j in w.waiting :: 0 <= j < |w.code|
    ensures var D := Patched(U.C, U.ps, |U.C|, NO_REG, |U.C|) + [i];
            && w.start == |w.code| <= |D|
            && forall j | 0 <= j < w.start :: D[j] == PatchedAt(w.code, w.waiting, w.start, NO_REG, w.start, j)
  {
    PriorEmitted(U.C, U.ps, [i], w);
    assert |U.C| >= w.start;
  }

  lemma EndPending(U: View, w: Around)
    requires Shape(U, w) && EndOf(U) == |U.C|
    ensures Distinct(U.ps) && w.start <= |U.C|
  {
  }

  lemma KeptShape(V: View, W: View, w: Around, k: seq<Val>, free: nat)
    requires Keeps(V, W, w, k, free)
    ensures Shape(V, w) && Shape(W, w)
  {
  }

  lemma StoredShape(V: View, W: View, w: Around, k: seq<Val>, reg: nat)
    requires Stores(V, W, w, k, reg)
    ensures Shape(V, w) && Shape(W, w)
  {
  }
}
