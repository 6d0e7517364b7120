/** Facts about code that hold between the code generator's operations, and what each
    operation does to them and to the meaning of the descriptor at hand. */
module CodeFacts {
  import opened Vm
  import opened Simulation
  import opened Describe
  import opened Transitions
  import opened Compose

  // ---------------------------------------------------------------- code invariants

  /** Pending jumps are jumps; tests are followed by a jump; no resolved jump or skip leads
      past the last label. */
  ghost predicate CodeOk(c: seq<Instr>, pend: set<int>, lasttarget: int) {
    && (forall j :: j in pend ==> 0 <= j < |c|)
    && (forall j :: j in pend ==> c[j].JMP?)
    && (forall i :: 0 <= i < |c| ==> InstrOk(c, pend, lasttarget, i))
    && -1 <= lasttarget <= |c|
  }

  ghost predicate InstrOk(c: seq<Instr>, pend: set<int>, lasttarget: int, i: int)
    requires 0 <= i < |c|
  {
    && (c[i].IsTest() ==> i + 1 < |c| && c[i + 1].JMP?)
    && (c[i].JMP? && i !in pend ==> i + 1 + c[i].sbx <= lasttarget)
    && (c[i].LOADBOOL? && c[i].skip ==> i + 2 <= lasttarget)
  }

  /** Jumps `q`, pending elsewhere, and their tests are as they were. */
  ghost predicate Kept(c: seq<Instr>, c': seq<Instr>, q: set<int>) {
    forall j :: j in q && 0 <= j < |c| ==>
      (j < |c'| && c'[j] == c[j] && (j >= 1 ==> c'[j - 1] == c[j - 1] || (c[j - 1].JMP? && c'[j - 1].JMP?)))
  }

  lemma EmitKeepsCode(c: seq<Instr>, pend: set<int>, lt: int, js: set<int>, i: Instr, c': seq<Instr>)
    requires CodeOk(c, pend, lt) && js <= pend && (js != {} ==> lt == |c|)
    requires c' == Patch(c, js, |c|, NO_REG, |c|) + [i]
    requires !i.IsTest() && !i.JMP? && !(i.LOADBOOL? && i.skip)
    ensures CodeOk(c', pend - js, lt)
    ensures Kept(c, c', pend - js)
  {
    assert forall x :: 0 <= x < |c| ==> c'[x] == PatchAt(c, js, |c|, NO_REG, |c|, x);
    forall x | 0 <= x < |c'| ensures InstrOk(c', pend - js, lt, x) {
      if x < |c| { assert InstrOk(c, pend, lt, x); }
    }
  }

  lemma KeptTrans(c: seq<Instr>, c1: seq<Instr>, c2: seq<Instr>, q: set<int>, q1: set<int>)
    requires Kept(c, c1, q) && Kept(c1, c2, q1) && q <= q1
    ensures Kept(c, c2, q)
  {
  }

  lemma LinkAt(c: seq<Instr>, head: int, l: seq<int>, i: nat)
    requires IsList(c, head, l) && i < |l|
    ensures 0 <= l[i] < |c| && c[l[i]].JMP?
    ensures i + 1 < |l| <==> NextJump(c, l[i]) != NO_JUMP
    ensures i + 1 < |l| ==> NextJump(c, l[i]) == l[i + 1]
    ensures l[i] !in Elems(l[..i])
  {
    assert Linked(c, l, i);
  }

  /** Two disjoint lists have the same head only when both are empty. */
  lemma HeadsDiffer(c: seq<Instr>, t: int, ts: seq<int>, f: int, fs: seq<int>)
    requires IsList(c, t, ts) && IsList(c, f, fs) && Elems(ts) !! Elems(fs)
    ensures t == f <==> ts == [] && fs == []
    ensures t == f ==> t == NO_JUMP
  {
    if ts != [] && fs != [] { assert ts[0] in Elems(ts) && fs[0] in Elems(fs); }
  }

  lemma NoList(c: seq<Instr>)
    ensures IsList(c, NO_JUMP, []) && Elems([]) == {}
  {
  }

  lemma HeadOf(c: seq<Instr>, head: int, l: seq<int>)
    requires IsList(c, head, l)
    ensures head == if l == [] then NO_JUMP else l[0]
    ensures forall i :: 0 <= i < |l| ==> 0 <= l[i] < |c| && c[l[i]].JMP?
  {
  }

  lemma EmptyHead(c: seq<Instr>, head: int, l: seq<int>)
    requires IsList(c, head, l) && l == []
    ensures head == NO_JUMP
  {
  }

  lemma KeptSame(c: seq<Instr>, q: set<int>)
    ensures Kept(c, c, q)
  {
  }

  lemma KeptLess(c: seq<Instr>, c': seq<Instr>, q: set<int>, q1: set<int>)
    requires Kept(c, c', q1) && q <= q1
    ensures Kept(c, c', q)
  {
  }

  lemma ListKept(c: seq<Instr>, c': seq<Instr>, head: int, l: seq<int>)
    requires IsList(c, head, l) && Kept(c, c', Elems(l))
    ensures IsList(c', head, l)
  {
    forall i | 0 <= i < |l| ensures 0 <= l[i] < |c'| && Linked(c', l, i) {
      assert Linked(c, l, i) && l[i] in Elems(l);
    }
  }

  /** Emission in general: lists other than the discharged one stay what they were. */
  lemma AfterEmit(c: seq<Instr>, pend: set<int>, lt: int, js: seq<int>, t: int, ts: seq<int>, f: int, fs: seq<int>, i: Instr, c': seq<Instr>)
    requires CodeOk(c, pend, lt) && Elems(js) <= pend && (js != [] ==> lt == |c|)
    requires IsList(c, t, ts) && IsList(c, f, fs) && Elems(ts) + Elems(fs) <= pend && Elems(js) !! Elems(ts) + Elems(fs)
    requires c' == Patch(c, Elems(js), |c|, NO_REG, |c|) + [i]
    requires !i.IsTest() && !i.JMP? && !(i.LOADBOOL? && i.skip)
    ensures CodeOk(c', pend - Elems(js), lt)
    ensures Kept(c, c', pend - Elems(js))
    ensures IsList(c', t, ts) && IsList(c', f, fs) && IsList(c', NO_JUMP, []) && Elems([]) == {}
  {
    hide IsList;
    EmitKeepsCode(c, pend, lt, Elems(js), i, c');
    ListKept(c, c', t, ts);
    ListKept(c, c', f, fs);
    NoList(c');
  }

  /** Replacing a final LOADNIL by another one. */
  lemma MergedNil(c: seq<Instr>, pend: set<int>, lt: int, t: int, ts: seq<int>, f: int, fs: seq<int>, c': seq<Instr>)
    requires CodeOk(c, pend, lt) && c != [] && c[|c| - 1].LOADNIL? && lt < |c|
    requires IsList(c, t, ts) && IsList(c, f, fs)
    requires |c'| == |c| && c'[|c| - 1].LOADNIL? && c'[..|c| - 1] == c[..|c| - 1]
    ensures CodeOk(c', pend, lt) && Kept(c, c', pend) && IsList(c', t, ts) && IsList(c', f, fs)
    ensures OnlyFallsInto(Prog(c, [], pend))
  {
    var m := |c| - 1;
    assert forall i :: 0 <= i < m ==> c'[i] == c'[..m][i] == c[..m][i] == c[i];
    forall i | 0 <= i < |c| ensures InstrOk(c', pend, lt, i) { assert InstrOk(c, pend, lt, i); }
    forall i | 0 <= i < |c| && c[i].JMP? && i !in pend ensures i + 1 + c[i].sbx != |c| { assert InstrOk(c, pend, lt, i); }
    forall i | 0 <= i < |c| && c[i].LOADBOOL? && c[i].skip ensures i + 2 != |c| { assert InstrOk(c, pend, lt, i); }
    forall i | 0 <= i < |ts| ensures Linked(c', ts, i) { assert Linked(c, ts, i); }
    forall i | 0 <= i < |fs| ensures Linked(c', fs, i) { assert Linked(c, fs, i); }
    forall j | j in pend ensures j != m { }
  }

  /** Choosing the destination of an open load. */
  lemma PlacedReloc(c: seq<Instr>, pend: set<int>, lt: int, t: int, ts: seq<int>, f: int, fs: seq<int>, m: nat, c': seq<Instr>)
    requires CodeOk(c, pend, lt) && m < |c| && c[m].IsLoad()
    requires IsList(c, t, ts) && IsList(c, f, fs)
    requires |c'| == |c| && c'[m].IsLoad() && (forall i :: 0 <= i < |c| && i != m ==> c'[i] == c[i])
    ensures CodeOk(c', pend, lt) && Kept(c, c', pend - {m + 1}) && m !in pend
    ensures IsList(c', t, ts) && IsList(c', f, fs)
  {
    forall i | 0 <= i < |c| ensures InstrOk(c', pend, lt, i) { assert InstrOk(c, pend, lt, i); }
    forall i | 0 <= i < |ts| ensures Linked(c', ts, i) { assert Linked(c, ts, i); }
    forall i | 0 <= i < |fs| ensures Linked(c', fs, i) { assert Linked(c, fs, i); }
  }

  lemma LoadsKind(S: Sem, p: Prog, kind: Kind, k: seq<Value>, ins: Instr, reg: Reg)
    requires StageOk(p, Val(kind)) && p.k <= k
    requires match kind
             case VNIL => ins == LOADNIL(reg, reg)
             case VTRUE => ins == LOADBOOL(reg, true, false)
             case VFALSE => ins == LOADBOOL(reg, false, false)
             case VK(i) => ins == LOADK(reg, i)
             case VKNUM(n) => ins.LOADK? && ins.a == reg && ins.bx < |k| && k[ins.bx] == Num(n)
             case VNONRELOC(x) => ins == MOVE(reg, x)
             case _ => false
    ensures LoadsValue(S, p, kind, k, ins, reg)
  {
  }

  /** The three ways luaK_nil makes register `reg` nil. */
  lemma NilDone(g: Goal, p: Prog, lt: int, nactvar: nat, js0: seq<int>, jpc0: int, t: int, ts: seq<int>, f: int, fs: seq<int>, p': Prog, js: seq<int>, reg: nat)
    requires Described(g, p, Elems(js0), Val(VNIL), Elems(ts), Elems(fs))
    requires CodeOk(p.c, p.pend, lt) && IsList(p.c, jpc0, js0) && (js0 != [] ==> lt == |p.c|)
    requires Elems(js0) <= p.pend && IsList(p.c, t, ts) && IsList(p.c, f, fs) && Elems(ts) + Elems(fs) <= p.pend
    requires Elems(js0) !! Elems(ts) + Elems(fs)
    requires g.p0.pend - g.here0 <= p.pend - Elems(js0) && g.np <= nactvar <= g.free0 <= reg < 250
    requires p'.k == p.k
    requires || (p' == p && js == js0 && p.c == [])
             || (p.c != [] && lt < |p.c| && js == js0 == [] && p'.pend == p.pend &&
                 var m := |p.c| - 1; var l := p.c[m];
                 l.LOADNIL? && l.a <= reg <= l.to + 1 && p'.c == p.c[..m] + [LOADNIL(l.a, if reg > l.to then reg else l.to)])
             || (p'.c == Patch(p.c, Elems(js0), |p.c|, NO_REG, |p.c|) + [LOADNIL(reg, reg)] && js == [] && p'.pend == p.pend - Elems(js0))
    ensures Described(g, p', Elems(js), Val(VNONRELOC(reg)), Elems(ts), Elems(fs))
    ensures CodeOk(p'.c, p'.pend, lt) && Kept(p.c, p'.c, p.pend - Elems(js0)) && Elems(js) !! Elems(ts) + Elems(fs)
    ensures IsList(p'.c, t, ts) && IsList(p'.c, f, fs) && p'.pend - Elems(js) == p.pend - Elems(js0)
    ensures js == [] || (js == js0 && p' == p)
  {
    hide Described;
    var here := Elems(js0);
    assert Pending(p, here) && Pending(p, Elems(ts) + Elems(fs));
    if p' == p && js == js0 && p.c == [] {
      assert p.pend == {} by {
        forall x ensures x !in p.pend { }
      }
      assert Elems(ts) == Elems(fs) == here == {};
      CleanStart(g, p, reg);
    } else if p.c != [] && lt < |p.c| && js == js0 == [] && |p'.c| == |p.c| {
      assert Elems(js0) == {};
      NilMerged(g, p, lt, t, ts, f, fs, p', reg);
    } else {
      AfterEmit(p.c, p.pend, lt, js0, t, ts, f, fs, LOADNIL(reg, reg), p'.c);
      NilEmitted(g, p, here, Elems(ts), Elems(fs), p', reg);
    }
  }

  lemma NilMerged(g: Goal, p: Prog, lt: int, t: int, ts: seq<int>, f: int, fs: seq<int>, p': Prog, reg: nat)
    requires Described(g, p, {}, Val(VNIL), Elems(ts), Elems(fs)) && Pending(p, Elems(ts) + Elems(fs))
    requires CodeOk(p.c, p.pend, lt) && IsList(p.c, t, ts) && IsList(p.c, f, fs)
    requires p.c != [] && lt < |p.c| && g.free0 <= reg < 250
    requires var m := |p.c| - 1; var l := p.c[m];
             l.LOADNIL? && l.a <= reg <= l.to + 1 && p' == p.(c := p.c[..m] + [LOADNIL(l.a, if reg > l.to then reg else l.to)])
    ensures Described(g, p', {}, Val(VNONRELOC(reg)), Elems(ts), Elems(fs))
    ensures CodeOk(p'.c, p.pend, lt) && Kept(p.c, p'.c, p.pend) && IsList(p'.c, t, ts) && IsList(p'.c, f, fs)
  {
    MergedNil(p.c, p.pend, lt, t, ts, f, fs, p'.c);
    assert OnlyFallsInto(p);
    MergeNil(g, p, VNIL, Elems(ts), Elems(fs), p', p'.c[|p.c| - 1].to, reg);
  }

  lemma NilEmitted(g: Goal, p: Prog, here: set<int>, ts: set<int>, fs: set<int>, p': Prog, reg: nat)
    requires Described(g, p, here, Val(VNIL), ts, fs) && Pending(p, here) && Pending(p, ts + fs) && here !! ts + fs
    requires g.free0 <= reg < 250 && p'.k == p.k && p'.pend == p.pend - here && g.p0.pend - g.here0 <= p'.pend
    requires p'.c == Patch(p.c, here, |p.c|, NO_REG, |p.c|) + [LOADNIL(reg, reg)]
    ensures Described(g, p', {}, Val(VNONRELOC(reg)), ts, fs)
  {
    LoadsKind(g.S, p, VNIL, p.k, LOADNIL(reg, reg), reg);
    LoadInto(g, p, here, VNIL, ts, fs, p', LOADNIL(reg, reg), reg);
  }

  /** Jumps `js` of `c` have been patched, with their tests. */
  ghost predicate Patched(c: seq<Instr>, js: set<int>, vtarget: int, reg: Reg, dtarget: int, c1: seq<Instr>) {
    |c1| == |c| && forall i :: 0 <= i < |c| ==> c1[i] == PatchAt(c, js, vtarget, reg, dtarget, i)
  }

  lemma NonePatched(c: seq<Instr>, vtarget: int, reg: Reg, dtarget: int)
    ensures Patched(c, {}, vtarget, reg, dtarget, c)
  {
  }

  lemma AllPatched(c: seq<Instr>, js: set<int>, vtarget: int, reg: Reg, dtarget: int, c1: seq<Instr>)
    requires Patched(c, js, vtarget, reg, dtarget, c1)
    ensures c1 == Patch(c, js, vtarget, reg, dtarget)
  {
  }

  /** The next jump of the list is as it was. */
  lemma NextUnpatched(c: seq<Instr>, js: set<int>, vtarget: int, reg: Reg, dtarget: int, c1: seq<Instr>, node: int)
    requires Patched(c, js, vtarget, reg, dtarget, c1) && 0 <= node < |c| && node !in js && c[node].JMP?
    requires forall j :: j in js && 0 <= j < |c| ==> c[j].JMP?
    ensures c1[node] == c[node] && Valued(c1, node) == Valued(c, node)
  {
    if node >= 1 { assert c1[node - 1] == PatchAt(c, js, vtarget, reg, dtarget, node - 1); }
  }

  lemma PatchOneMore(c: seq<Instr>, js: set<int>, vtarget: int, reg: Reg, dtarget: int, node: int, c1: seq<Instr>, c2: seq<Instr>)
    requires Patched(c, js, vtarget, reg, dtarget, c1) && |c2| == |c| && 0 <= node < |c| && c[node].JMP? && node !in js
    requires forall i :: 0 <= i < |c| && i != node && i != node - 1 ==> c2[i] == c1[i]
    requires c2[node] == JMP((if Valued(c, node) then vtarget else dtarget) - (node + 1))
    requires node >= 1 ==> c2[node - 1] == PatchAt(c1, {node}, 0, reg, 0, node - 1)
    ensures Patched(c, js + {node}, vtarget, reg, dtarget, c2)
  {
    if node >= 1 {
      assert c1[node - 1] == PatchAt(c, js, vtarget, reg, dtarget, node - 1);
    }
  }

  lemma AfterTest(c: seq<Instr>, pend: set<int>, lt: int, js: seq<int>, t: int, ts: seq<int>, f: int, fs: seq<int>, i: Instr, c': seq<Instr>)
    requires CodeOk(c, pend, lt) && Elems(js) <= pend && (js != [] ==> lt == |c|)
    requires IsList(c, t, ts) && IsList(c, f, fs) && Elems(ts) + Elems(fs) <= pend && Elems(js) !! Elems(ts) + Elems(fs)
    requires c' == Patch(c, Elems(js), |c|, NO_REG, |c|) + [i, JMP(NO_JUMP)] && i.IsTest()
    ensures CodeOk(c', pend - Elems(js) + {|c| + 1}, lt)
    ensures Kept(c, c', pend - Elems(js))
    ensures IsList(c', t, ts) && IsList(c', f, fs) && IsList(c', NO_JUMP, []) && Elems([]) == {}
    ensures |c| + 1 !in pend
  {
    hide IsList;
    TestKeepsCode(c, pend, lt, Elems(js), i, c');
    ListKept(c, c', t, ts);
    ListKept(c, c', f, fs);
    NoList(c');
  }

  lemma TestKeepsCode(c: seq<Instr>, pend: set<int>, lt: int, js: set<int>, i: Instr, c': seq<Instr>)
    requires CodeOk(c, pend, lt) && js <= pend && (js != {} ==> lt == |c|)
    requires c' == Patch(c, js, |c|, NO_REG, |c|) + [i, JMP(NO_JUMP)] && i.IsTest()
    ensures CodeOk(c', pend - js + {|c| + 1}, lt) && Kept(c, c', pend - js) && |c| + 1 !in pend
  {
    var q := pend - js + {|c| + 1};
    assert forall x :: 0 <= x < |c| ==> c'[x] == PatchAt(c, js, |c|, NO_REG, |c|, x);
    forall x | 0 <= x < |c'| ensures InstrOk(c', q, lt, x) {
      if x < |c| { assert InstrOk(c, pend, lt, x); }
    }
  }

  lemma RemovedNot(c: seq<Instr>, pend: set<int>, lt: int, t: int, ts: seq<int>, f: int, fs: seq<int>, c': seq<Instr>)
    requires CodeOk(c, pend, lt) && lt < |c| && c != [] && c[|c| - 1].NOTOP?
    requires IsList(c, t, ts) && IsList(c, f, fs)
    requires c' == c[..|c| - 1]
    ensures CodeOk(c', pend, lt) && IsList(c', t, ts) && IsList(c', f, fs) && Kept(c, c', pend)
  {
    var m := |c| - 1;
    forall i | 0 <= i < m ensures InstrOk(c', pend, lt, i) { assert InstrOk(c, pend, lt, i); }
    forall i | 0 <= i < |ts| ensures Linked(c', ts, i) { assert Linked(c, ts, i); }
    forall i | 0 <= i < |fs| ensures Linked(c', fs, i) { assert Linked(c, fs, i); }
    forall j | j in pend ensures j != m { }
  }

  lemma NotTested(g: Goal, p: Prog, ts: set<int>, fs: set<int>, p': Prog, cond: bool)
    requires p.c != [] && Described(g, p, {}, Val(VRELOCABLE(|p.c| - 1)), ts, fs)
    requires p.c[|p.c| - 1].NOTOP? && Pending(p, ts + fs)
    requires var m := |p.c| - 1;
             && p'.c == Patch(p.c[..m], {}, m, NO_REG, m) + [TEST(p.c[m].b, !cond), JMP(NO_JUMP)]
             && p'.k == p.k && p'.pend == p.pend + {m + 1}
    requires g.p0.pend - g.here0 <= p'.pend
    ensures var j := |p.c|;
            Described(g, p', {}, Cond(!cond), if cond then ts + {j} else ts, if cond then fs else fs + {j})
  {
    var m := |p.c| - 1;
    var t := TEST(p.c[m].b, !cond);
    var ts', fs' := if cond then ts + {m + 1} else ts, if cond then fs else fs + {m + 1};
    assert forall j :: j in ts + fs ==> j != m;
    TestAndJump(g, p, {}, VRELOCABLE(m), ts, fs, m, p', t, cond, Cond(!cond), ts', fs');
  }

  lemma OperandTested(g: Goal, p: Prog, lt: int, t: int, ts: seq<int>, f: int, fs: seq<int>, p': Prog, cond: bool)
    requires CodeOk(p.c, p.pend, lt) && lt < |p.c| && p.c != [] && p.c[|p.c| - 1].NOTOP?
    requires IsList(p.c, t, ts) && IsList(p.c, f, fs) && Elems(ts) + Elems(fs) <= p.pend
    requires Described(g, p, {}, Val(VRELOCABLE(|p.c| - 1)), Elems(ts), Elems(fs))
    requires var m := |p.c| - 1;
             && p'.c == Patch(p.c[..m], {}, m, NO_REG, m) + [TEST(p.c[m].b, !cond), JMP(NO_JUMP)]
             && p'.k == p.k && p'.pend == p.pend - {} + {m + 1}
    requires g.p0.pend - g.here0 <= p.pend
    ensures var j := |p.c|;
            && CodeOk(p'.c, p'.pend, lt) && Kept(p.c, p'.c, p.pend) && j !in p.pend
            && IsList(p'.c, t, ts) && IsList(p'.c, f, fs) && IsList(p'.c, NO_JUMP, [])
            && Described(g, p', {}, Cond(!cond), if cond then Elems(ts) + {j} else Elems(ts), if cond then Elems(fs) else Elems(fs) + {j})
  {
    var c := p.c[..|p.c| - 1];
    RemovedNot(p.c, p.pend, lt, t, ts, f, fs, c);
    assert Elems([]) == {};
    AfterTest(c, p.pend, lt, [], t, ts, f, fs, TEST(p.c[|p.c| - 1].b, !cond), p'.c);
    assert p'.pend == p.pend + {|c| + 1};
    NotTested(g, p, Elems(ts), Elems(fs), p', cond);
    KeptTrans(p.c, c, p'.c, p.pend, p.pend);
  }

  lemma ValueTested(g: Goal, p: Prog, here: set<int>, reg: Reg, ts: set<int>, fs: set<int>, p': Prog, cond: bool)
    requires Described(g, p, here, Val(VNONRELOC(reg)), ts, fs)
    requires Pending(p, here) && Pending(p, ts + fs) && here !! ts + fs
    requires var n := |p.c|;
             && p'.c == Patch(p.c, here, n, NO_REG, n) + [TESTSET(NO_REG, reg, cond), JMP(NO_JUMP)]
             && p'.k == p.k && p'.pend == p.pend - here + {n + 1}
    requires g.p0.pend - g.here0 <= p'.pend
    ensures var j := |p.c| + 1;
            Described(g, p', {}, Cond(!cond), if cond then ts + {j} else ts, if cond then fs else fs + {j})
  {
    var n := |p.c|;
    var ts', fs' := if cond then ts + {n + 1} else ts, if cond then fs else fs + {n + 1};
    assert p.c[..n] == p.c;
    TestAndJump(g, p, here, VNONRELOC(reg), ts, fs, n, p', TESTSET(NO_REG, reg, cond), cond, Cond(!cond), ts', fs');
  }

  /** Only offsets of the jumps `xs` differ. */
  ghost predicate RelinkedIn(c: seq<Instr>, c': seq<Instr>, xs: set<int>) {
    && |c'| == |c|
    && forall i :: 0 <= i < |c| ==> c'[i] == c[i] || (i in xs && c[i].JMP? && c'[i].JMP?)
  }

  lemma RelinkOk(c: seq<Instr>, c': seq<Instr>, xs: set<int>, pend: set<int>, lt: int, lt': int, t: int, ts: seq<int>)
    requires CodeOk(c, pend, lt) && RelinkedIn(c, c', xs) && xs <= pend && lt <= lt' <= |c|
    ensures CodeOk(c', pend, lt') && Kept(c, c', pend - xs)
    ensures IsList(c, t, ts) && Elems(ts) !! xs ==> IsList(c', t, ts)
  {
    forall i | 0 <= i < |c| ensures InstrOk(c', pend, lt', i) { assert InstrOk(c, pend, lt, i); }
    if IsList(c, t, ts) && Elems(ts) !! xs {
      forall i | 0 <= i < |ts| ensures Linked(c', ts, i) { assert Linked(c, ts, i) && ts[i] in Elems(ts); }
    }
  }

  lemma SingleJump(c: seq<Instr>, j: int)
    requires 0 <= j < |c| && c[j] == JMP(NO_JUMP)
    ensures IsList(c, j, [j]) && Elems([j]) == {j}
  {
    assert Linked(c, [j], 0);
  }

  lemma ElemsAppend(a: seq<int>, b: seq<int>)
    ensures Elems(a + b) == Elems(a) + Elems(b)
  {
  }

  /** Jump `pc` joined list `ls`, the true list if `cond`; `os` is the other list. */
  lemma JoinedJump(g: Goal, p: Prog, lt: int, ls: seq<int>, o: int, os: seq<int>, p': Prog, pc: int, cond: bool)
    requires CodeOk(p.c, p.pend, lt) && Elems(ls) + Elems(os) <= p.pend && pc in p.pend && IsList(p.c, o, os)
    requires Elems(ls) !! Elems(os) && pc !in Elems(ls) + Elems(os)
    requires Described(g, p, {}, Cond(!cond), if cond then Elems(ls) + {pc} else Elems(os), if cond then Elems(os) else Elems(ls) + {pc})
    requires p' == p.(c := p'.c) && RelinkedIn(p.c, p'.c, Elems(ls)) && g.p0.pend - g.here0 <= p.pend
    ensures CodeOk(p'.c, p.pend, lt) && Kept(p.c, p'.c, p.pend - Elems(ls)) && IsList(p'.c, o, os)
    ensures Elems(ls + [pc]) == Elems(ls) + {pc} && Elems([]) == {}
    ensures Described(g, p', {}, Cond(!cond), if cond then Elems(ls + [pc]) else Elems(os), if cond then Elems(os) else Elems(ls + [pc]))
  {
    ElemsAppend(ls, [pc]);
    RelinkOk(p.c, p'.c, Elems(ls), p.pend, lt, lt, o, os);
    var ts, fs := if cond then Elems(ls) + {pc} else Elems(os), if cond then Elems(os) else Elems(ls) + {pc};
    Restage(g, p, {}, Cond(!cond), ts, fs, p', Cond(!cond));
  }

  /** List `ls`, the true list if `b`, was patched to the end of the code. */
  lemma FellHere(g: Goal, p: Prog, lt: int, js: seq<int>, ls: seq<int>, o: int, os: seq<int>, p': Prog, b: bool)
    requires CodeOk(p.c, p.pend, lt) && Elems(js) + Elems(ls) + Elems(os) <= p.pend && IsList(p.c, o, os)
    requires Elems(ls) !! Elems(os) && Elems(js) !! Elems(ls) + Elems(os)
    requires Described(g, p, Elems(js), Cond(b), if b then Elems(ls) else Elems(os), if b then Elems(os) else Elems(ls))
    requires p' == p.(c := p'.c) && RelinkedIn(p.c, p'.c, Elems(js)) && g.p0.pend - g.here0 <= p.pend
    ensures CodeOk(p'.c, p.pend, |p.c|) && Kept(p.c, p'.c, p.pend - Elems(js)) && IsList(p'.c, o, os)
    ensures Elems(js + ls) == Elems(js) + Elems(ls) && Elems([]) == {} && IsList(p'.c, NO_JUMP, [])
    ensures Described(g, p', Elems(js + ls), Cond(b), if b then {} else Elems(os), if b then Elems(os) else {})
  {
    ElemsAppend(js, ls);
    RelinkOk(p.c, p'.c, Elems(js), p.pend, lt, |p.c|, o, os);
    ListToHere(g, p, Elems(js), b, if b then Elems(ls) else Elems(os), if b then Elems(os) else Elems(ls), p');
  }

  lemma CompareFlipped(c: seq<Instr>, pend: set<int>, lt: int, j: nat, t: int, ts: seq<int>, f: int, fs: seq<int>, c': seq<Instr>)
    requires CodeOk(c, pend, lt) && 1 <= j < |c| && c[j - 1].CMP? && IsList(c, t, ts) && IsList(c, f, fs)
    requires |c'| == |c| && c'[j - 1].CMP? && (forall i :: 0 <= i < |c| && i != j - 1 ==> c'[i] == c[i])
    ensures CodeOk(c', pend, lt) && Kept(c, c', pend - {j}) && IsList(c', t, ts) && IsList(c', f, fs)
  {
    forall x | 0 <= x < |c| ensures InstrOk(c', pend, lt, x) { assert InstrOk(c, pend, lt, x); }
    forall x | 0 <= x < |ts| ensures Linked(c', ts, x) { assert Linked(c, ts, x); }
    forall x | 0 <= x < |fs| ensures Linked(c', fs, x) { assert Linked(c, fs, x); }
  }

  lemma CompareTests(S: Sem, p: Prog, j: nat, i: Instr, cond: bool)
    requires StageOk(p, Val(VJMP(j)))
    requires i == p.c[j - 1].(want := if cond then p.c[j - 1].want else !p.c[j - 1].want)
    ensures TestsValue(S, p, VJMP(j), p.k, i, cond)
  {
  }

  /** An open comparison becomes a test that jumps when the comparison is `cond`. */
  lemma CompareTested(g: Goal, p: Prog, lt: int, j: nat, t: int, ts: seq<int>, f: int, fs: seq<int>, p': Prog, cond: bool)
    requires CodeOk(p.c, p.pend, lt) && lt < j && j in p.pend && j !in Elems(ts) + Elems(fs)
    requires IsList(p.c, t, ts) && IsList(p.c, f, fs) && Elems(ts) + Elems(fs) <= p.pend
    requires Described(g, p, {}, Val(VJMP(j)), Elems(ts), Elems(fs))
    requires p' == p.(c := if cond then p.c else p.c[j - 1 := p.c[j - 1].(want := !p.c[j - 1].want)])
    requires g.p0.pend - g.here0 <= p.pend
    ensures CodeOk(p'.c, p.pend, lt) && Kept(p.c, p'.c, p.pend - {j}) && IsList(p'.c, t, ts) && IsList(p'.c, f, fs)
    ensures j >= 1 && j + 1 == |p'.c| && p'.c[j] == JMP(NO_JUMP)
    ensures Described(g, p', {}, Cond(!cond), if cond then Elems(ts) + {j} else Elems(ts), if cond then Elems(fs) else Elems(fs) + {j})
  {
    var n := j - 1;
    var i := p'.c[n];
    CompareFlipped(p.c, p.pend, lt, j, t, ts, f, fs, p'.c);
    assert p'.c == Patch(p.c[..n], {}, n, NO_REG, n) + [i, JMP(NO_JUMP)];
    var ts', fs' := if cond then Elems(ts) + {j} else Elems(ts), if cond then Elems(fs) else Elems(fs) + {j};
    assert forall x :: x in Elems(ts) + Elems(fs) ==> p.c[x].JMP? && x != j;
    CompareTests(g.S, p, j, i, cond);
    TestAndJump(g, p, {}, VJMP(j), Elems(ts), Elems(fs), n, p', i, cond, Cond(!cond), ts', fs');
  }

  ghost function NotGoal(g: Goal): Goal { g.(src := Unary(NOT, g.src)) }

  lemma StrippedList(c: seq<Instr>, c': seq<Instr>, xs: set<int>, t: int, ts: seq<int>)
    requires IsList(c, t, ts) && |c'| == |c| && (forall i :: 0 <= i < |c| ==> c'[i] == StripAt(c, xs, i))
    ensures IsList(c', t, ts)
  {
    forall i | 0 <= i < |ts| ensures Linked(c', ts, i) { assert Linked(c, ts, i) && c'[ts[i]] == StripAt(c, xs, ts[i]); }
  }

  /** Removing the values of the lists `ts` and `fs`. */
  lemma Stripping(c: seq<Instr>, pend: set<int>, lt: int, t: int, ts: seq<int>, f: int, fs: seq<int>, c': seq<Instr>)
    requires CodeOk(c, pend, lt) && IsList(c, t, ts) && IsList(c, f, fs) && Elems(ts) + Elems(fs) <= pend
    requires |c'| == |c| && (forall i :: 0 <= i < |c| ==> c'[i] == StripAt(c, Elems(ts) + Elems(fs), i))
    ensures CodeOk(c', pend, lt) && Kept(c, c', pend - (Elems(ts) + Elems(fs))) && IsList(c', t, ts) && IsList(c', f, fs)
    ensures forall j :: j in Elems(ts) + Elems(fs) ==> !Valued(c', j) && (Controlled(c, j) <==> Controlled(c', j))
    ensures forall i :: 0 <= i < |c| ==> c'[i] == c[i] || (i + 1 in Elems(ts) + Elems(fs) && c[i].TESTSET? && c'[i] == TEST(c[i].b, c[i].c))
  {
    var xs := Elems(ts) + Elems(fs);
    forall x | 0 <= x < |c| ensures InstrOk(c', pend, lt, x) {
      assert InstrOk(c, pend, lt, x) && c'[x] == StripAt(c, xs, x);
      if x + 1 < |c| { assert c'[x + 1] == StripAt(c, xs, x + 1); }
    }
    StrippedList(c, c', xs, t, ts);
    StrippedList(c, c', xs, f, fs);
    forall j | j in xs ensures !Valued(c', j) && (Controlled(c, j) <==> Controlled(c', j)) {
      if 1 <= j { assert c'[j - 1] == StripAt(c, xs, j - 1); }
    }
    forall j | j in pend - xs ensures c'[j] == c[j] && (j >= 1 ==> c'[j - 1] == c[j - 1] || (c[j - 1].JMP? && c'[j - 1].JMP?)) {
      assert c'[j] == StripAt(c, xs, j);
      if j >= 1 { assert c'[j - 1] == StripAt(c, xs, j - 1); }
    }
  }

  /** The inverted comparison and unchanged lists. */
  lemma FlippedLists(p: Prog, lt: int, j: nat, t: int, ts: seq<int>, f: int, fs: seq<int>, p': Prog)
    requires CodeOk(p.c, p.pend, lt) && StageOk(p, Val(VJMP(j))) && IsList(p.c, t, ts) && IsList(p.c, f, fs)
    requires p' == p.(c := p.c[j - 1 := p.c[j - 1].(want := !p.c[j - 1].want)])
    ensures CodeOk(p'.c, p.pend, lt) && Kept(p.c, p'.c, p.pend - {j}) && IsList(p'.c, t, ts) && IsList(p'.c, f, fs)
    ensures StageOk(p', Val(VJMP(j)))
  {
    CompareFlipped(p.c, p.pend, lt, j, t, ts, f, fs, p'.c);
  }

  /** codenot of a constant: the lists are stripped. */
  lemma NotConstant(g: Goal, p: Prog, lt: int, js: seq<int>, jpc: int, t: int, ts: seq<int>, f: int, fs: seq<int>, k: Kind, p': Prog, k': Kind)
    requires Described(g, p, Elems(js), Val(k), Elems(ts), Elems(fs))
    requires CodeOk(p.c, p.pend, lt) && IsList(p.c, jpc, js) && IsList(p.c, t, ts) && IsList(p.c, f, fs)
    requires Elems(ts) + Elems(fs) <= p.pend && Elems(ts) !! Elems(fs)
    requires Pending(p, Elems(js)) && Pending(p, Elems(ts) + Elems(fs)) && g.p0.pend - g.here0 <= p.pend
    requires p' == p.(c := p'.c) && |p'.c| == |p.c|
    requires forall i :: 0 <= i < |p.c| ==> p'.c[i] == StripAt(p.c, Elems(fs) + Elems(ts), i)
    requires (k' == VTRUE && (k.VNIL? || k.VFALSE?)) ||
             (k' == VFALSE && (k.VTRUE? || k.VKNUM? || (k.VK? && k.index < |p.k| && p.k[k.index].Str?)))
    ensures Described(NotGoal(g), p', Elems(js), Val(k'), Elems(fs), Elems(ts))
    ensures CodeOk(p'.c, p.pend, lt) && IsList(p'.c, t, ts) && IsList(p'.c, f, fs) && IsList(p'.c, jpc, js)
    ensures Kept(p.c, p'.c, p.pend - Elems(ts) - Elems(fs))
  {
    var xs := Elems(ts) + Elems(fs);
    assert xs == Elems(fs) + Elems(ts);
    Stripping(p.c, p.pend, lt, t, ts, f, fs, p'.c);
    StrippedList(p.c, p'.c, xs, jpc, js);
    assert Kept(p.c, p'.c, p.pend - Elems(ts) - Elems(fs)) by {
      assert p.pend - xs == p.pend - Elems(ts) - Elems(fs);
    }
    forall i | 0 <= i < |p.c| ensures SameAt(Base(p, Val(k)), Base(p', Val(k')), i) { }
    NegateInPlace(g, p, Elems(js), k, Elems(ts), Elems(fs), p', k');
  }

  lemma CompareShape(p: Prog, j: nat)
    requires StageOk(p, Val(VJMP(j)))
    ensures 1 <= j && j + 1 == |p.c| && p.c[j - 1].CMP? && p.c[j] == JMP(NO_JUMP)
  {
  }

  /** codenot of a comparison: it is inverted (`p1`), then the lists are stripped (`p'`). */
  lemma NotCompared(g: Goal, p: Prog, lt: int, t: int, ts: seq<int>, f: int, fs: seq<int>, j: nat, p1: Prog, p': Prog)
    requires Described(g, p, {}, Val(VJMP(j)), Elems(ts), Elems(fs))
    requires CodeOk(p1.c, p1.pend, lt) && IsList(p1.c, t, ts) && IsList(p1.c, f, fs) && Kept(p.c, p1.c, p.pend - {j})
    requires Elems(ts) + Elems(fs) <= p.pend && Elems(ts) !! Elems(fs) && j !in Elems(ts) + Elems(fs)
    requires Pending(p, Elems(ts) + Elems(fs)) && g.p0.pend - g.here0 <= p.pend
    requires p1 == p.(c := p.c[j - 1 := p.c[j - 1].(want := !p.c[j - 1].want)])
    requires p' == p1.(c := p'.c) && |p'.c| == |p.c|
    requires forall i :: 0 <= i < |p.c| ==> p'.c[i] == StripAt(p1.c, Elems(fs) + Elems(ts), i)
    ensures Described(NotGoal(g), p', {}, Val(VJMP(j)), Elems(fs), Elems(ts)) && StageOk(p', Val(VJMP(j)))
    ensures CodeOk(p'.c, p.pend, lt) && IsList(p'.c, t, ts) && IsList(p'.c, f, fs) && IsList(p'.c, NO_JUMP, [])
    ensures Kept(p.c, p'.c, p.pend - Elems(ts) - Elems(fs) - {j})
  {
    var xs := Elems(ts) + Elems(fs);
    assert xs == Elems(fs) + Elems(ts);
    Stripping(p1.c, p1.pend, lt, t, ts, f, fs, p'.c);
    KeptTrans(p.c, p1.c, p'.c, p.pend - Elems(ts) - Elems(fs) - {j}, p.pend - xs);
    NotCompareMeaning(g, p, j, Elems(ts), Elems(fs), p1, p');
  }

  lemma NotCompareMeaning(g: Goal, p: Prog, j: nat, ts: set<int>, fs: set<int>, p1: Prog, p': Prog)
    requires Described(g, p, {}, Val(VJMP(j)), ts, fs) && ts + fs <= p.pend && ts !! fs && j !in ts + fs
    requires Pending(p, ts + fs) && g.p0.pend - g.here0 <= p.pend
    requires p1 == p.(c := p.c[j - 1 := p.c[j - 1].(want := !p.c[j - 1].want)])
    requires p' == p1.(c := p'.c) && |p'.c| == |p.c|
    requires forall i :: 0 <= i < |p.c| ==> p'.c[i] == StripAt(p1.c, ts + fs, i)
    requires forall x :: x in ts + fs ==> !Valued(p'.c, x) && (Controlled(p1.c, x) <==> Controlled(p'.c, x))
    ensures Described(NotGoal(g), p', {}, Val(VJMP(j)), fs, ts)
  {
    assert p'.c[j - 1] == StripAt(p1.c, ts + fs, j - 1) && p'.c[j] == StripAt(p1.c, ts + fs, j);
    var b, b' := Base(p, Val(VJMP(j))), Base(p', Val(VJMP(j)));
    forall i | 0 <= i < |b.c| ensures SameAt(b, b', i) {
      assert p'.c[i] == StripAt(p1.c, ts + fs, i);
    }
    assert forall x :: x in ts + fs ==> x != j - 1;
    NegateInPlace(g, p, {}, VJMP(j), ts, fs, p', VJMP(j));
  }

  /** codenot of a register: OP_NOT emitted (`p1`), then the lists stripped (`p'`). */
  lemma NotLoaded(g: Goal, p: Prog, lt: int, js: seq<int>, t: int, ts: seq<int>, f: int, fs: seq<int>, reg: Reg, p1: Prog, p': Prog)
    requires Described(g, p, Elems(js), Val(VNONRELOC(reg)), Elems(ts), Elems(fs))
    requires Pending(p, Elems(js)) && Pending(p, Elems(ts) + Elems(fs)) && Elems(js) !! Elems(ts) + Elems(fs) && Elems(ts) !! Elems(fs)
    requires Emits(p, Elems(js), p1, [NOTOP(0, reg)]) && p1.pend == p.pend - Elems(js) && p1.k == p.k
    requires CodeOk(p1.c, p1.pend, lt) && IsList(p1.c, t, ts) && IsList(p1.c, f, fs) && Kept(p.c, p1.c, p.pend - Elems(js))
    requires p' == p1.(c := p'.c) && |p'.c| == |p1.c|
    requires forall i :: 0 <= i < |p1.c| ==> p'.c[i] == StripAt(p1.c, Elems(fs) + Elems(ts), i)
    requires g.p0.pend - g.here0 <= p1.pend
    ensures Described(NotGoal(g), p', {}, Val(VRELOCABLE(|p.c|)), Elems(fs), Elems(ts)) && p'.c[|p.c|].NOTOP?
    ensures CodeOk(p'.c, p'.pend, lt) && IsList(p'.c, t, ts) && IsList(p'.c, f, fs) && IsList(p'.c, NO_JUMP, []) && Elems([]) == {}
    ensures Kept(p.c, p'.c, p.pend - Elems(js) - Elems(ts) - Elems(fs))
  {
    var xs := Elems(ts) + Elems(fs);
    assert xs == Elems(fs) + Elems(ts);
    assert xs <= p1.pend;
    Stripping(p1.c, p1.pend, lt, t, ts, f, fs, p'.c);
    KeptTrans(p.c, p1.c, p'.c, p.pend - Elems(js) - Elems(ts) - Elems(fs), p1.pend - xs);
    NotLoadedMeaning(g, p, Elems(js), Elems(ts), Elems(fs), reg, p1, p');
  }

  lemma NotLoadedMeaning(g: Goal, p: Prog, here: set<int>, ts: set<int>, fs: set<int>, reg: Reg, p1: Prog, p': Prog)
    requires Described(g, p, here, Val(VNONRELOC(reg)), ts, fs)
    requires Pending(p, here) && Pending(p, ts + fs) && here !! ts + fs && ts !! fs
    requires Emits(p, here, p1, [NOTOP(0, reg)]) && p1.pend == p.pend - here
    requires p' == p1.(c := p'.c) && |p'.c| == |p1.c| && Kept(p.c, p1.c, p1.pend)
    requires forall i :: 0 <= i < |p1.c| ==> p'.c[i] == StripAt(p1.c, ts + fs, i)
    requires forall x :: x in ts + fs ==> !Valued(p'.c, x) && (Controlled(p1.c, x) <==> Controlled(p'.c, x))
    requires g.p0.pend - g.here0 <= p1.pend
    ensures Described(NotGoal(g), p', {}, Val(VRELOCABLE(|p.c|)), fs, ts) && p'.c[|p.c|].NOTOP?
  {
    var n := |p.c|;
    var xs := ts + fs;
    assert p'.c[n] == StripAt(p1.c, xs, n) == NOTOP(0, reg);
    var b' := Base(p', Val(VRELOCABLE(n)));
    forall i | 0 <= i < n ensures SameAt(p, b', i) && (b'.c[i] == PatchAt(p.c, here, n, NO_REG, n, i) || (i + 1 in xs && p.c[i].TESTSET? && b'.c[i] == TEST(p.c[i].b, p.c[i].c))) {
      assert p'.c[i] == StripAt(p1.c, xs, i) && p1.c[i] == PatchAt(p.c, here, n, NO_REG, n, i);
    }
    forall j | j in here ensures b'.c[j] == JMP(n - (j + 1)) && !Valued(b'.c, j) {
      if j >= 1 { assert SameAt(p, b', j - 1); }
    }
    forall j | j in xs ensures !Valued(p'.c, j) && (Controlled(p.c, j) <==> Controlled(p'.c, j)) {
      if j >= 1 { assert p1.c[j - 1] == PatchAt(p.c, here, n, NO_REG, n, j - 1); }
    }
    NegateLoad(g, p, here, reg, ts, fs, p');
  }

  /** exp2reg: the jump of a comparison joins the true list. */
  lemma CompareJoined(g: Goal, p: Prog, lt: int, j: nat, ts: seq<int>, f: int, fs: seq<int>, p': Prog)
    requires CodeOk(p.c, p.pend, lt) && j in p.pend && j !in Elems(ts) + Elems(fs) && Elems(ts) !! Elems(fs)
    requires IsList(p.c, f, fs) && Elems(ts) + Elems(fs) <= p.pend && Pending(p, Elems(ts) + Elems(fs))
    requires Described(g, p, {}, Val(VJMP(j)), Elems(ts), Elems(fs)) && StageOk(p, Val(VJMP(j)))
    requires p' == p.(c := p'.c) && RelinkedIn(p.c, p'.c, Elems(ts)) && g.p0.pend - g.here0 <= p.pend
    ensures CodeOk(p'.c, p.pend, lt) && Kept(p.c, p'.c, p.pend - Elems(ts) - Elems(fs) - {j}) && IsList(p'.c, f, fs)
    ensures IsList(p'.c, NO_JUMP, [])
    ensures Elems(ts + [j]) == Elems(ts) + {j} && !Valued(p'.c, j)
    ensures Described(g, p', {}, Val(VFALSE), Elems(ts + [j]), Elems(fs))
  {
    ElemsAppend(ts, [j]);
    RelinkOk(p.c, p'.c, Elems(ts), p.pend, lt, lt, f, fs);
    CompareFallsFalse(g, p, j, Elems(ts), Elems(fs), p');
    assert p'.c[j - 1] == p.c[j - 1];
  }

  lemma CompareFallsFalse(g: Goal, p: Prog, j: nat, ts: set<int>, fs: set<int>, p': Prog)
    requires Described(g, p, {}, Val(VJMP(j)), ts, fs) && StageOk(p, Val(VJMP(j)))
    requires ts + fs <= p.pend && Pending(p, ts + fs) && j in p.pend && j !in ts + fs && ts !! fs
    requires p' == p.(c := p'.c) && RelinkedIn(p.c, p'.c, ts) && g.p0.pend - g.here0 <= p.pend
    ensures Described(g, p', {}, Val(VFALSE), ts + {j}, fs)
  {
    var n := j - 1;
    assert p.c == Patch(p.c[..n], {}, n, NO_REG, n) + [p.c[n], JMP(NO_JUMP)];
    CompareTests(g.S, p, j, p.c[n], true);
    assert forall x :: x in ts + fs ==> p.c[x].JMP? && x != j;
    TestAndJump(g, p, {}, VJMP(j), ts, fs, n, p, p.c[n], true, Val(VFALSE), ts + {j}, fs);
    Restage(g, p, {}, Val(VFALSE), ts + {j}, fs, p', Val(VFALSE));
  }

  /** Patching one list leaves the other a list with the same values. */
  lemma PatchedOther(c: seq<Instr>, f: int, fs: seq<int>, t: int, ts: seq<int>, final: int, reg: Reg, pf: int)
    requires IsList(c, f, fs) && IsList(c, t, ts) && Elems(ts) !! Elems(fs)
    ensures var c1 := Patch(c, Elems(fs), final, reg, pf);
            IsList(c1, t, ts) && forall j :: j in ts ==> (Valued(c1, j) <==> Valued(c, j))
  {
    var c1 := Patch(c, Elems(fs), final, reg, pf);
    forall i | 0 <= i < |ts| ensures Linked(c1, ts, i) {
      assert Linked(c, ts, i) && ts[i] in Elems(ts) && c1[ts[i]] == PatchAt(c, Elems(fs), final, reg, pf, ts[i]);
    }
    forall j | j in ts ensures Valued(c1, j) <==> Valued(c, j) {
      assert j in Elems(ts) && j !in Elems(fs);
      if j >= 1 { assert c1[j - 1] == PatchAt(c, Elems(fs), final, reg, pf, j - 1); }
      assert j - 1 in Elems(fs) ==> c[j - 1].JMP?;
    }
  }

  /** exp2reg is done. */
  lemma Resolved(g: Goal, p: Prog, lt: int, here: seq<int>, st: Stage, t: int, ts: seq<int>, f: int, fs: seq<int>,
                 tail: seq<Instr>, p': Prog, jpc: int, js: seq<int>, reg: nat, pf: int)
    requires Described(g, p, Elems(here), st, Elems(ts), Elems(fs)) && CodeOk(p.c, p.pend, lt)
    requires IsList(p.c, t, ts) && IsList(p.c, f, fs) && Elems(here) + Elems(ts) + Elems(fs) <= p.pend
    requires Elems(ts) !! Elems(fs) && Elems(here) !! Elems(ts) + Elems(fs)
    requires Finished(p, Elems(ts), Elems(fs), tail, p', reg, pf, if pf < 0 then pf else pf + 1)
    requires IsList(p.c + tail, jpc, js) && g.p0.pend - g.here0 <= p.pend - Elems(here) - Elems(ts) - Elems(fs)
    requires g.free0 <= reg
    requires var n := |p.c|;
      || (tail == [] && st == Val(VNONRELOC(reg)) && (forall j :: j in Elems(ts) + Elems(fs) ==> Valued(p.c, j)) &&
          p'.pend == p.pend - Elems(fs) - Elems(ts) && js == here && pf < 0)
      || (|tail| == 3 && tail[0].JMP? && BoolLoads(p.c + tail, reg, n + 1, n + 3) && pf == n + 1 && st == Val(VNONRELOC(reg)) &&
          p'.pend == p.pend + {n} - Elems(fs) - Elems(ts) && js == [n] + here)
      || (|tail| == 2 && BoolLoads(p.c + tail, reg, n, n + 2) && pf == n && st == Val(VFALSE) &&
          p'.pend == p.pend - Elems(fs) - Elems(ts) && here == js == [])
    ensures Described(g, p', Elems(js), Val(VNONRELOC(reg)), {}, {})
    ensures CodeOk(p'.c, p'.pend, |p'.c|) && IsList(p'.c, jpc, js) && Elems(js) <= p'.pend
    ensures p'.pend - Elems(js) == p.pend - Elems(here) - Elems(ts) - Elems(fs)
    ensures Kept(p.c, p'.c, p.pend - Elems(here) - Elems(ts) - Elems(fs))
  {
    hide Described, IsList, Finished, BoolLoads;
    assert Pending(p, Elems(here) + Elems(ts) + Elems(fs));
    ElemsAppend([|p.c|], here);
    assert Elems([|p.c|]) == {|p.c|};
    FinishAll(g, p, Elems(here), st, Elems(ts), Elems(fs), tail, p', Elems(js), reg, pf);
    ResolvedCode(p, lt, Elems(ts), Elems(fs), tail, p', jpc, js, reg, pf);
    KeptLess(p.c, p'.c, p.pend - Elems(here) - Elems(ts) - Elems(fs), p.pend - Elems(ts) - Elems(fs));
  }

  lemma ListsExtended(c: seq<Instr>, tail: seq<Instr>, t: int, ts: seq<int>, f: int, fs: seq<int>)
    requires IsList(c, t, ts) && IsList(c, f, fs)
    ensures IsList(c + tail, t, ts) && IsList(c + tail, f, fs)
  {
    ListKept(c, c + tail, t, ts);
    ListKept(c, c + tail, f, fs);
  }

  lemma ResolvedPlain(g: Goal, p: Prog, lt: int, here: seq<int>, t: int, ts: seq<int>, f: int, fs: seq<int>, p': Prog, jpc: int, reg: nat)
    requires Described(g, p, Elems(here), Val(VNONRELOC(reg)), Elems(ts), Elems(fs)) && CodeOk(p.c, p.pend, lt)
    requires IsList(p.c, t, ts) && IsList(p.c, f, fs) && Elems(here) + Elems(ts) + Elems(fs) <= p.pend
    requires Elems(ts) !! Elems(fs) && Elems(here) !! Elems(ts) + Elems(fs)
    requires forall j :: j in Elems(ts) + Elems(fs) ==> Valued(p.c, j)
    requires g.free0 <= reg < 250 && p'.k == p.k && p'.pend == p.pend - Elems(fs) - Elems(ts)
    requires p'.c == Patch(Patch(p.c, Elems(fs), |p.c|, reg, NO_JUMP), Elems(ts), |p.c|, reg, NO_JUMP)
    requires IsList(p.c, jpc, here) && g.p0.pend - g.here0 <= p.pend - Elems(here) - Elems(ts) - Elems(fs)
    ensures Described(g, p', Elems(here), Val(VNONRELOC(reg)), {}, {})
    ensures CodeOk(p'.c, p'.pend, |p'.c|) && IsList(p'.c, jpc, here) && Elems(here) <= p'.pend
    ensures p'.pend - Elems(here) == p.pend - Elems(here) - Elems(ts) - Elems(fs)
    ensures Kept(p.c, p'.c, p.pend - Elems(here) - Elems(ts) - Elems(fs))
  {
    assert p.c + [] == p.c;
    Resolved(g, p, lt, here, Val(VNONRELOC(reg)), t, ts, f, fs, [], p', jpc, here, reg, NO_JUMP);
  }

  lemma ResolvedBools(g: Goal, p: Prog, lt: int, here: seq<int>, st: Stage, t: int, ts: seq<int>, f: int, fs: seq<int>,
                      tail: seq<Instr>, p': Prog, jpc: int, js: seq<int>, reg: nat, pf: int)
    requires Described(g, p, Elems(here), st, Elems(ts), Elems(fs)) && CodeOk(p.c, p.pend, lt)
    requires IsList(p.c, t, ts) && IsList(p.c, f, fs) && Elems(here) + Elems(ts) + Elems(fs) <= p.pend
    requires Elems(ts) !! Elems(fs) && Elems(here) !! Elems(ts) + Elems(fs)
    requires g.free0 <= reg < 250 && p'.k == p.k && |tail| >= 2
    requires var n := |p.c| + |tail|;
      && p'.c == Patch(Patch(p.c + tail, Elems(fs), n, reg, pf), Elems(ts), n, reg, pf + 1)
      && pf == n - 2 && (p.c + tail)[pf] == LOADBOOL(reg, false, true) && (p.c + tail)[pf + 1] == LOADBOOL(reg, true, false)
    requires IsList(p.c + tail, jpc, js) && g.p0.pend - g.here0 <= p.pend - Elems(here) - Elems(ts) - Elems(fs)
    requires if st == Val(VNONRELOC(reg))
      then |tail| == 3 && (p.c + tail)[|p.c|].JMP? && p'.pend == p.pend + {|p.c|} - Elems(fs) - Elems(ts) && js == [|p.c|] + here
      else st == Val(VFALSE) && |tail| == 2 && p'.pend == p.pend - Elems(fs) - Elems(ts) && here == js == []
    ensures Described(g, p', Elems(js), Val(VNONRELOC(reg)), {}, {})
    ensures CodeOk(p'.c, p'.pend, |p'.c|) && IsList(p'.c, jpc, js) && Elems(js) <= p'.pend
    ensures p'.pend - Elems(js) == p.pend - Elems(here) - Elems(ts) - Elems(fs)
    ensures Kept(p.c, p'.c, p.pend - Elems(here) - Elems(ts) - Elems(fs))
  {
    hide Described, IsList, CodeOk, Kept;
    assert (p.c + tail)[|p.c|] == tail[0];
    Resolved(g, p, lt, here, st, t, ts, f, fs, tail, p', jpc, js, reg, pf);
  }

  lemma ResolvedCode(p: Prog, lt: int, ts: set<int>, fs: set<int>, tail: seq<Instr>, p': Prog, jpc: int, js: seq<int>, reg: nat, pf: int)
    requires CodeOk(p.c, p.pend, lt) && ts + fs <= p.pend && ts !! fs
    requires Finished(p, ts, fs, tail, p', reg, pf, if pf < 0 then pf else pf + 1)
    requires IsList(p.c + tail, jpc, js) && Elems(js) !! ts + fs
    requires var n := |p.c|;
      || (tail == [] && pf < 0 && p'.pend == p.pend - fs - ts)
      || (|tail| == 3 && tail[0].JMP? && BoolLoads(p.c + tail, reg, n + 1, n + 3) && pf == n + 1 && p'.pend == p.pend + {n} - fs - ts)
      || (|tail| == 2 && BoolLoads(p.c + tail, reg, n, n + 2) && pf == n && p'.pend == p.pend - fs - ts)
    ensures CodeOk(p'.c, p'.pend, |p'.c|) && IsList(p'.c, jpc, js)
    ensures Kept(p.c, p'.c, p.pend - ts - fs)
  {
    var n := |p.c| + |tail|;
    ResolvedShape(p, ts, fs, tail, p', reg, pf);
    forall i | 0 <= i < n ensures InstrOk(p'.c, p'.pend, n, i) {
      assert ShapeAt(p.c + tail, ts + fs, p'.c, i);
      if i + 1 < n { assert ShapeAt(p.c + tail, ts + fs, p'.c, i + 1); }
      if i < |p.c| { assert InstrOk(p.c, p.pend, lt, i); } else { assert (p.c + tail)[i] == tail[i - |p.c|]; }
    }
    ResolvedKept(p.c, tail, ts + fs, p'.c, p.pend - ts - fs, jpc, js);
  }

  lemma ResolvedKept(c: seq<Instr>, tail: seq<Instr>, xs: set<int>, c': seq<Instr>, q: set<int>, jpc: int, js: seq<int>)
    requires |c'| == |c + tail| && (forall i :: 0 <= i < |c'| ==> ShapeAt(c + tail, xs, c', i))
    requires IsList(c + tail, jpc, js) && Elems(js) !! xs && q !! xs
    requires forall j :: j in q ==> 0 <= j < |c| && c[j].JMP?
    requires forall j :: j in xs ==> 0 <= j < |c| && c[j].JMP?
    ensures IsList(c', jpc, js) && Kept(c, c', q)
  {
    forall i | 0 <= i < |js| ensures Linked(c', js, i) && c'[js[i]].JMP? {
      assert Linked(c + tail, js, i) && js[i] in Elems(js) && ShapeAt(c + tail, xs, c', js[i]);
    }
    forall j | j in q ensures c'[j] == c[j] && (j >= 1 ==> c'[j - 1] == c[j - 1] || (c[j - 1].JMP? && c'[j - 1].JMP?)) {
      assert ShapeAt(c + tail, xs, c', j) && (c + tail)[j] == c[j];
      if j >= 1 { assert ShapeAt(c + tail, xs, c', j - 1) && (c + tail)[j - 1] == c[j - 1]; }
    }
  }

  /** Resolving the jumps `xs` changes those jumps and their TESTSETs only. */
  ghost predicate ShapeAt(c: seq<Instr>, xs: set<int>, c': seq<Instr>, i: int)
    requires 0 <= i < |c| == |c'|
  {
    && (i in xs ==> c'[i].JMP? && i + 1 + c'[i].sbx <= |c|)
    && (i !in xs && !(i + 1 in xs && c[i].TESTSET?) ==> c'[i] == c[i])
    && (c[i].TESTSET? && i !in xs ==> c'[i].IsTest())
  }

  lemma ResolvedShape(p: Prog, ts: set<int>, fs: set<int>, tail: seq<Instr>, p': Prog, reg: nat, pf: int)
    requires Finished(p, ts, fs, tail, p', reg, pf, if pf < 0 then pf else pf + 1) && ts !! fs
    requires forall j :: j in ts + fs ==> 0 <= j < |p.c| && p.c[j].JMP?
    requires pf >= 0 ==> pf + 2 <= |p.c| + |tail|
    ensures |p'.c| == |p.c + tail| && forall i :: 0 <= i < |p'.c| ==> ShapeAt(p.c + tail, ts + fs, p'.c, i)
  {
    var n := |p.c| + |tail|;
    var pt := if pf < 0 then pf else pf + 1;
    var c := p.c + tail;
    var c1 := Patch(c, fs, n, reg, pf);
    forall i | 0 <= i < n ensures ShapeAt(c, ts + fs, p'.c, i) {
      assert p'.c[i] == PatchAt(c1, ts, n, reg, pt, i) && c1[i] == PatchAt(c, fs, n, reg, pf, i);
    }
  }

  /** The first operand denotes itself when compilation goes on at `p2`. */
  lemma StartFirst(g: Goal, p1: Prog, p2: Prog, here2: set<int>, free2: nat, k1: Kind)
    requires OperandOk(p1, k1) && p1.k <= p2.k
    ensures OperandOk(p2, k1) && Described(SubGoal(g, p2, here2, free2, OperandExpr(p2, k1)), p2, here2, Val(k1), {}, {})
  {
    Restart(g, p2, here2, free2, k1, OperandExpr(p2, k1));
  }

  ghost function BinGoal(g: Goal, op: BinOp, src2: Expr): Goal { g.(src := Binary(op, g.src, src2)) }

  ghost predicate OperandCode(k: Kind, rk: RK) {
    match k
    case VK(i) => rk == BITRK + i
    case VNONRELOC(r) => rk == r && r < BITRK
    case _ => false
  }

  lemma ArithOpened(g: Goal, p: Prog, here: set<int>, op: ArithOp, k1: Kind, k2: Kind, o1: RK, o2: RK, p': Prog)
    requires Described(g, p, here, Oper(BArith(op), k1, k2), {}, {}) && OperandCode(k1, o1) && OperandCode(k2, o2)
    requires Pending(p, here) && Emits(p, here, p', [ARITH(op, 0, o1, o2)]) && p'.pend == p.pend - here && p'.k == p.k
    requires g.p0.pend - g.here0 <= p'.pend
    ensures Described(g, p', {}, Val(VRELOCABLE(|p.c|)), {}, {}) && StageOk(p', Val(VRELOCABLE(|p.c|)))
  {
    OpenLoad(g, p, here, Oper(BArith(op), k1, k2), g.src, p', ARITH(op, 0, o1, o2));
    assert g.(src := g.src) == g;
  }

  /** The comparison codecomp uses for an operator: its opcode and condition. */
  ghost function CompareOf(op: BinOp): (CmpOp, bool) {
    match op
    case BEQ => (EQ, true)
    case BNE => (EQ, false)
    case BLT => (LT, true)
    case BLE => (LE, true)
    case BGT => (LT, false)
    case BGE => (LE, false)
    case _ => (EQ, true)
  }

  ghost function CompareInstr(op: BinOp, o1: RK, o2: RK): Instr {
    var (c, cond) := CompareOf(op);
    if !cond && c != EQ then CMP(c, true, o2, o1) else CMP(c, cond, o1, o2)
  }

  lemma CompareOpened(g: Goal, p: Prog, here: set<int>, op: BinOp, k1: Kind, k2: Kind, o1: RK, o2: RK, t: Instr, p': Prog)
    requires Described(g, p, here, Oper(op, k1, k2), {}, {}) && OperandCode(k1, o1) && OperandCode(k2, o2)
    requires !op.BArith? && !op.AND? && !op.OR? && t == CompareInstr(op, o1, o2)
    requires Pending(p, here) && Emits(p, here, p', [t, JMP(NO_JUMP)]) && p'.pend == p.pend - here + {|p.c| + 1} && p'.k == p.k
    requires g.p0.pend - g.here0 <= p'.pend
    ensures Described(g, p', {}, Val(VJMP(|p.c| + 1)), {}, {}) && StageOk(p', Val(VJMP(|p.c| + 1)))
  {
    OpenCompare(g, p, here, Oper(op, k1, k2), p', t);
  }

  /** constfolding computes what the virtual machine would. */
  lemma Folded(g: Goal, p1: Prog, here1: set<int>, free1: nat, k1: Kind, src2: Expr, p2: Prog, here2: set<int>, free2: nat, k2: Kind, op: ArithOp, nactvar: nat, n: real)
    requires Described(g, p1, here1, Val(k1), {}, {}) && k1.VKNUM? && k2.VKNUM? && op != UNM && op != LEN
    requires Described(SubGoal(g, p1, here1, free1, src2), p2, here2, Val(k2), {}, {})
    requires nactvar <= g.free0 <= free1 <= free2 && p1.k <= p2.k && WellFormed(g.S, nactvar, src2)
    requires g.p0.pend - g.here0 !! here1 + here2 && g.p0.pend - g.here0 <= p2.pend && Pending(p2, here2)
    requires n == g.S.num(op, k1.nval, k2.nval)
    ensures Described(BinGoal(g, BArith(op), src2), p2, here2, Val(VKNUM(n)), {}, {})
  {
    StartFirst(g, p1, p2, here2, free2, k1);
    BothOperands(g, p1, here1, free1, k1, src2, p2, here2, free2, k2, p2, here2, k1, BArith(op), nactvar);
    Restage(BinGoal(g, BArith(op), src2), p2, here2, Oper(BArith(op), k1, k2), {}, {}, p2, Val(VKNUM(n)));
  }

  ghost function UnGoal(g: Goal, op: UnOp): Goal { g.(src := Unary(op, g.src)) }

  lemma UnaryOpened(g: Goal, p: Prog, here: set<int>, op: ArithOp, uop: UnOp, reg: Reg, p': Prog)
    requires Described(g, p, here, Val(VNONRELOC(reg)), {}, {})
    requires (op == UNM && uop == MINUS) || (op == LEN && uop == LENGTH)
    requires Pending(p, here) && Emits(p, here, p', [ARITH(op, 0, reg, 0)]) && p'.pend == p.pend - here && p'.k == p.k
    requires g.p0.pend - g.here0 <= p'.pend
    ensures Described(UnGoal(g, uop), p', {}, Val(VRELOCABLE(|p.c|)), {}, {}) && StageOk(p', Val(VRELOCABLE(|p.c|)))
  {
    OpenLoad(g, p, here, Val(VNONRELOC(reg)), Unary(uop, g.src), p', ARITH(op, 0, reg, 0));
  }

  lemma UnaryFolded(g: Goal, p: Prog, here: set<int>, n: real)
    requires Described(g, p, here, Val(VKNUM(n)), {}, {}) && Pending(p, here) && g.p0.pend - g.here0 <= p.pend
    ensures Described(UnGoal(g, MINUS), p, here, Val(VKNUM(g.S.num(UNM, n, 0.0))), {}, {})
  {
    var g', st, st' := UnGoal(g, MINUS), Val(VKNUM(n)), Val(VKNUM(g.S.num(UNM, n, 0.0)));
    assert Base(p, st) == p && Base(p, st') == p;
    forall r0: Regs, o1 | Good(g, p, here, st, {}, {}, r0, o1) && (o1.Exit? ==> o1.j in p.pend)
      ensures Good(g', p, here, st', {}, {}, r0, o1)
    {
    }
    Relabel(g, p, here, st, {}, {}, g', p, here, st', {}, {});
  }

  /** Relinking lists does not touch an open suffix. */
  lemma Relink(g: Goal, p: Prog, here: set<int>, k: Kind, ts: set<int>, fs: set<int>, p': Prog)
    requires Described(g, p, here, Val(k), ts, fs) && Pending(p, here + ts + fs)
    requires Relinked(p, p') && p'.k == p.k && g.p0.pend - g.here0 <= p.pend
    requires forall i :: |p.c| - Suffix(Val(k)) <= i < |p.c| ==> p'.c[i] == p.c[i]
    ensures Described(g, p', here, Val(k), ts, fs) && StageOk(p', Val(k))
  {
    var st := Val(k);
    forall r0: Regs, o1 | Good(g, p, here, st, ts, fs, r0, o1) && (o1.Exit? ==> o1.j in p.pend)
      ensures Good(g, p', here, st, ts, fs, r0, o1)
    {
      if o1.Fall? || (o1.Exit? && o1.j in here) {
        assert FallGood(g, p, st, r0, o1.regs);
        assert FallGood(g, p', st, r0, o1.regs);
      } else if o1.Exit? {
        assert ExitGood(g, p.c, ts, fs, r0, o1.j, o1.via, o1.regs);
        assert ExitGood(g, p'.c, ts, fs, r0, o1.j, o1.via, o1.regs);
      }
    }
    var b, b' := Base(p, st), Base(p', st);
    forall i | 0 <= i < |b.c| ensures SameAt(b, b', i) { assert p'.c[i] == p.c[i] || p.c[i].JMP?; }
    Relabel(g, p, here, st, ts, fs, g, p', here, st, ts, fs);
  }

  /** `and`/`or`: `l` are the jumps of the first operand, `ls` the second operand's list they
      join, `os` its other list. */
  lemma LogicJoined(g: Goal, p1: Prog, here1: set<int>, l: seq<int>, b: bool, src2: Expr, free1: nat,
                    p: Prog, lt: int, here: set<int>, k: Kind, o: int, os: seq<int>, ls: seq<int>, p': Prog, nactvar: nat, js: seq<int>, jpc: int)
    requires Described(g, p1, here1, Cond(b), if b then {} else Elems(l), if b then Elems(l) else {})
    requires Described(SubGoal(g, p1, here1, free1, src2), p, here, Val(k), if b then Elems(os) else Elems(ls), if b then Elems(ls) else Elems(os))
    requires nactvar <= g.free0 <= free1 && WellFormed(g.S, nactvar, src2)
    requires Pending(p1, here1 + Elems(l)) && here1 <= p1.pend && Elems(l) !! here1
    requires CodeOk(p.c, p.pend, lt) && IsList(p.c, o, os) && IsList(p.c, jpc, js) && here == Elems(js)
    requires here + Elems(ls) + Elems(os) + Elems(l) + (if k.VJMP? then {k.jump as int} else {}) <= p.pend
    requires Elems(l) !! here && Elems(l) !! Elems(ls) + Elems(os) && here !! Elems(ls) + Elems(os) && Elems(ls) !! Elems(os)
    requires k.VJMP? ==> k.jump !in Elems(l) + Elems(ls) + Elems(os) && here == {}
    requires k.VRELOCABLE? ==> here == {}
    requires StageOk(p, Val(k)) && Kept(p1.c, p.c, Elems(l))
    requires g.p0.pend - g.here0 !! here1 && g.p0.pend - g.here0 <= p.pend
    requires p' == p.(c := p'.c) && RelinkedIn(p.c, p'.c, Elems(ls))
    ensures Described(BinGoal(g, if b then AND else OR, src2), p', here, Val(k), if b then Elems(os) else Elems(ls + l), if b then Elems(ls + l) else Elems(os))
    ensures StageOk(p', Val(k)) && CodeOk(p'.c, p.pend, lt) && IsList(p'.c, o, os) && IsList(p'.c, jpc, js)
    ensures Kept(p.c, p'.c, p.pend - Elems(ls)) && Elems(ls + l) == Elems(ls) + Elems(l)
  {
    ElemsAppend(ls, l);
    RelinkOk(p.c, p'.c, Elems(ls), p.pend, lt, lt, o, os);
    RelinkOk(p.c, p'.c, Elems(ls), p.pend, lt, lt, jpc, js);
    var st := Val(k);
    assert Pending(p, here + Elems(ls) + Elems(os) + Elems(l));
    BasePending(p, k, here + Elems(ls) + Elems(os));
    var ts2, fs2 := if b then Elems(os) else Elems(ls), if b then Elems(ls) else Elems(os);
    assert here + ts2 + fs2 == here + Elems(ls) + Elems(os);
    KeptControls(p1, p, Elems(l));
    ShortCircuit(g, p1, here1, Elems(l), b, src2, free1, p, here, st, ts2, fs2, nactvar);
    Relink(BinGoal(g, if b then AND else OR, src2), p, here, k, if b then ts2 else ts2 + Elems(l), if b then fs2 + Elems(l) else fs2, p');
  }

  lemma KeptControls(p1: Prog, p: Prog, l: set<int>)
    requires Pending(p1, l) && Kept(p1.c, p.c, l)
    ensures forall j :: j in l ==> j < |p1.c| && j < |p.c| && (j >= 1 ==> p.c[j - 1] == p1.c[j - 1] || (p1.c[j - 1].JMP? && p.c[j - 1].JMP?))
  {
  }

  /** Pending jumps other than the suffix are jumps of the base code. */
  lemma BasePending(p: Prog, k: Kind, js: set<int>)
    requires StageOk(p, Val(k)) && Pending(p, js) && (k.VJMP? ==> k.jump !in js)
    ensures Pending(Base(p, Val(k)), js)
  {
  }

  /** The descriptor of a leaf, given the constants. */
  ghost predicate LeafKind(consts: seq<Value>, src: Expr, k: Kind) {
    match src
    case Const(Nil) => k == VNIL
    case Const(Bool(b)) => k == (if b then VTRUE else VFALSE)
    case Const(Num(n)) => k == VKNUM(n)
    case Const(Str(s)) => k.VK? && k.index < |consts| && consts[k.index] == Str(s)
    case Local(r) => k == VLOCAL(r) && r < 250
    case Upval(u) => k == VUPVAL(u)
    case Global(name) => k.VGLOBAL? && k.name < |consts| && consts[k.name] == Str(name)
    case _ => false
  }

  /** A leaf denotes its value without any code. */
  lemma LeafDescribed(g: Goal, p: Prog, k: Kind)
    requires g.p0.c == p.c && g.p0.k <= p.k && g.p0.pend == p.pend && Pending(p, g.here0)
    requires LeafKind(p.k, g.src, k)
    ensures StageOk(p, Val(k)) && Described(g, p, g.here0, Val(k), {}, {})
  {
    var st := Val(k);
    assert Base(p, st) == p;
    forall init, o | Clean(g.np, init) && Reaches(g.S, g.p0, 0, init, o)
      ensures exists o1 :: Reaches(g.S, p, 0, init, o1) && Follow(g, p, g.here0, st, {}, {}, o, o1)
    {
      var n: nat :| Run(g.S, g.p0, n, 0, init, o);
      if o.Fall? { ReachesEnd(g.S, p, o.regs); }
      if o.Exit? { RunExits(g.S, g.p0, n, 0, init, o); }
      Simulate(g.S, g.p0, p, n, 0, init, o, o);
      assert Follow(g, p, g.here0, st, {}, {}, o, o);
    }
  }

  /** The outcome a `return` owes its caller. */
  ghost function ReturnOf(v: Result<Value>): Outcome { if v.Ok? then Halt(v.value) else Error(v.error) }

  /** Every run that reached the statement returns the value of the expression. */
  ghost predicate Returns(g: Goal, p: Prog) {
    forall init, o {:trigger Reaches(g.S, g.p0, 0, init, o)} :: Clean(g.np, init) && Reaches(g.S, g.p0, 0, init, o) ==>
      Reaches(g.S, p, 0, init, if AtEnd(o, g.here0) then ReturnOf(Eval(g.S, g.src, o.regs)) else o)
  }

  lemma ReturnEmitted(g: Goal, p: Prog, here: set<int>, reg: Reg, p': Prog)
    requires Described(g, p, here, Val(VNONRELOC(reg)), {}, {}) && Pending(p, here)
    requires Emits(p, here, p', [RETURN(reg, 2)]) && p'.pend == p.pend - here
    requires g.p0.pend - g.here0 <= p'.pend
    ensures Returns(g, p')
  {
    var st := Val(VNONRELOC(reg));
    assert Base(p, st) == p;
    PatchDischarges(p, here, p', [RETURN(reg, 2)]);
    forall init, o | Clean(g.np, init) && Reaches(g.S, g.p0, 0, init, o)
      ensures Reaches(g.S, p', 0, init, if AtEnd(o, g.here0) then ReturnOf(Eval(g.S, g.src, o.regs)) else o)
    {
      var o1 :| Reaches(g.S, p, 0, init, o1) && Follow(g, p, here, st, {}, {}, o, o1);
      var n: nat :| Run(g.S, p, n, 0, init, o1);
      var o2 := if AtEnd(o, g.here0) then ReturnOf(Eval(g.S, g.src, o.regs)) else o;
      if AtEnd(o1, here) && AtEnd(o, g.here0) {
        assert FallGood(g, p, st, o.regs, o1.regs);
        ReachesStep(g.S, p', |p.c|, o1.regs, o2);
        if o1.Exit? { assert LandAt(p', o1.j, o1.via, o1.regs) == o1.regs; }
      } else if o.Exit? {
        var m: nat :| Run(g.S, g.p0, m, 0, init, o);
        RunExits(g.S, g.p0, m, 0, init, o);
      }
      Simulate(g.S, p, p', n, 0, init, o1, o2);
    }
  }

  /** When the function starts with the statement, so do all its runs. */
  lemma FunctionReturns(g: Goal, p: Prog)
    requires Returns(g, p) && g.p0.c == []
    ensures forall init {:trigger Clean(g.np, init)} :: Clean(g.np, init) ==> Reaches(g.S, p, 0, init, ReturnOf(Eval(g.S, g.src, init)))
  {
    forall init | Clean(g.np, init) ensures Reaches(g.S, p, 0, init, ReturnOf(Eval(g.S, g.src, init))) {
      ReachesEnd(g.S, g.p0, init);
      assert Reaches(g.S, g.p0, 0, init, Fall(init));
    }
  }

  /** Control is at the end of the code exactly when the truth of the expression is `b`, and has
      left through a jump of `out` exactly when it is not. */
  ghost predicate Branches(g: Goal, p: Prog, here: set<int>, b: bool, out: set<int>) {
    forall init, r0, o1 {:trigger Reaches(g.S, g.p0, 0, init, Fall(r0)), Reaches(g.S, p, 0, init, o1)} ::
      Clean(g.np, init) && Reaches(g.S, g.p0, 0, init, Fall(r0)) && Reaches(g.S, p, 0, init, o1) ==>
      BranchOf(Eval(g.S, g.src, r0), here, b, out, o1)
  }

  ghost predicate BranchOf(v: Result<Value>, here: set<int>, b: bool, out: set<int>, o: Outcome) {
    && (AtEnd(o, here) <==> v.Ok? && Truthy(v.value) == b)
    && (o.Exit? && o.j in out <==> v.Ok? && Truthy(v.value) != b)
    && (o.Error? <==> v.Err?)
  }

  lemma ConditionExact(g: Goal, p: Prog, here: set<int>, b: bool, out: set<int>)
    requires Described(g, p, here, Cond(b), if b then {} else out, if b then out else {}) && out !! here
    ensures Branches(g, p, here, b, out)
  {
    var st := Cond(b);
    assert Base(p, st) == p;
    var ts, fs := if b then {} else out, if b then out else {};
    forall init, r0, o1 | Clean(g.np, init) && Reaches(g.S, g.p0, 0, init, Fall(r0)) && Reaches(g.S, p, 0, init, o1)
      ensures BranchOf(Eval(g.S, g.src, r0), here, b, out, o1)
    {
      var o2 :| Reaches(g.S, p, 0, init, o2) && Follow(g, p, here, st, ts, fs, Fall(r0), o2);
      var n: nat, m: nat :| Run(g.S, p, n, 0, init, o1) && Run(g.S, p, m, 0, init, o2);
      RunDeterministic(g.S, p, n, m, 0, init, o1, o2);
    }
  }
}
