/** One lemma per change of a descriptor: loading its value, testing it, negating it,
    resolving its jumps. */
module Transitions {
  import opened Vm
  import opened Simulation
  import opened Describe

  /** `ins` sets exactly register `reg`, to `v` if it does not raise an error. */
  ghost predicate Loads(S: Sem, k: seq<Value>, ins: Instr, reg: nat, r: Regs, v: Result<Value>) {
    || (ins.IsLoad() && ins.a == reg && LoadOk(k, ins) && LoadVal(S, k, ins, r) == v)
    || (reg < 256 && ins == LOADNIL(reg, reg) && v == Ok(Nil))
  }

  /** `ins` loads the value of a descriptor of kind `kind` into `reg`. */
  ghost predicate LoadsValue(S: Sem, p: Prog, kind: Kind, k: seq<Value>, ins: Instr, reg: nat)
    requires StageOk(p, Val(kind))
  {
    forall r :: Loads(S, k, ins, reg, r, ValueOf(S, p, kind, r))
  }

  lemma LoadStep(S: Sem, q: Prog, pc: nat, reg: nat, r: Regs, v: Result<Value>)
    requires pc < |q.c| && reg < 256 && Loads(S, q.k, q.c[pc], reg, r, v)
    ensures Step(S, q, pc, r) == if v.Ok? then Goto(pc + 1, r[reg := v.value]) else Stop(Error(v.error))
  {
    if q.c[pc].LOADNIL? {
      assert NilRange(r, reg, reg) == r[reg := Nil];
    }
  }

  lemma ReachesAfter(S: Sem, q: Prog, pc: nat, r: Regs, q2: int, r2: Regs)
    requires pc < |q.c| && Step(S, q, pc, r) == Goto(q2, r2) && q2 == |q.c|
    ensures Reaches(S, q, pc, r, Fall(r2))
  {
    ReachesEnd(S, q, r2);
    ReachesStep(S, q, pc, r, Fall(r2));
  }

  ghost predicate Emits(p: Prog, here: set<int>, q: Prog, tail: seq<Instr>) {
    && q.c == Patch(p.c, here, |p.c|, NO_REG, |p.c|) + tail
    && p.k <= q.k
  }

  /** Pending jumps keep their control when code is emitted. */
  lemma ExitsSurvive(g: Goal, p: Prog, here: set<int>, ts: set<int>, fs: set<int>, c': seq<Instr>, n: nat, r0: Regs, j: int, via: bool, r: Regs)
    requires ExitGood(g, p.c, ts, fs, r0, j, via, r) && j !in here
    requires n <= |p.c| && j < n <= |c'| && Pending(p, here)
    requires forall i :: 0 <= i < n ==> c'[i] == PatchAt(p.c, here, n, NO_REG, n, i)
    ensures ExitGood(g, c', ts, fs, r0, j, via, r)
  {
    if j >= 1 { assert c'[j - 1] == PatchAt(p.c, here, n, NO_REG, n, j - 1); }
  }

  /** discharge2reg, a value with no code of its own: emit a load. */
  lemma LoadInto(g: Goal, p: Prog, here: set<int>, k: Kind, ts: set<int>, fs: set<int>, p': Prog, ins: Instr, reg: nat)
    requires Described(g, p, here, Val(k), ts, fs) && !k.VRELOCABLE? && !k.VJMP?
    requires Pending(p, here) && Pending(p, ts + fs) && here !! ts + fs
    requires Emits(p, here, p', [ins]) && p'.pend == p.pend - here
    requires g.p0.pend - g.here0 <= p'.pend
    requires g.free0 <= reg < 250
    requires LoadsValue(g.S, p, k, p'.k, ins, reg)
    ensures Described(g, p', {}, Val(VNONRELOC(reg)), ts, fs)
  {
    var st, st' := Val(k), Val(VNONRELOC(reg));
    var n := |p.c|;
    assert Base(p, st).c == p.c && Base(p', st').c == p'.c;
    forall r0: Regs, r: Regs | FallGood(g, p, st, r0, r) ensures Onward(g.S, n, g, p', {}, st', ts, fs, r0, r) {
      var v := ValueOf(g.S, p, k, r);
      LoadStep(g.S, p', n, reg, r, v);
      var o2 := if v.Ok? then Fall(r[reg := v.value]) else Error(v.error);
      if v.Ok? { ReachesAfter(g.S, p', n, r, n + 1, r[reg := v.value]); }
      else { ReachesStep(g.S, p', n, r, o2); }
      assert Good(g, p', {}, st', ts, fs, r0, o2);
    }
    forall r0: Regs, j, via, r: Regs | ExitGood(g, p.c, ts, fs, r0, j, via, r) && j !in here
      ensures j in p'.pend && Good(g, p', {}, st', ts, fs, r0, Exit(j, via, r))
    {
      ExitsSurvive(g, p, here, ts, fs, p'.c, n, r0, j, via, r);
    }
    PatchDischarges(p, here, p', [ins]);
    Append(g, p, here, st, ts, fs, g, p', {}, st', ts, fs);
  }

  /** discharge2reg, VRELOCABLE: choose the destination of the last instruction. */
  lemma PlaceReloc(g: Goal, p: Prog, m: nat, ts: set<int>, fs: set<int>, p': Prog, reg: nat)
    requires Described(g, p, {}, Val(VRELOCABLE(m)), ts, fs)
    requires Pending(p, ts + fs) && m !in ts + fs
    requires g.free0 <= reg < 250
    requires p' == p.(c := p.c[m := p.c[m].WithA(reg)])
    requires g.p0.pend - g.here0 <= p'.pend
    requires m !in p.pend
    ensures Described(g, p', {}, Val(VNONRELOC(reg)), ts, fs)
  {
    var st, st' := Val(VRELOCABLE(m)), Val(VNONRELOC(reg));
    var ins := p.c[m].WithA(reg);
    var b := Base(p, st);
    assert Patch(b.c, {}, m, NO_REG, m) == b.c;
    assert p'.c == b.c + [ins];
    assert Base(p', st') == p';
    forall r0: Regs, r: Regs | FallGood(g, p, st, r0, r) ensures Onward(g.S, m, g, p', {}, st', ts, fs, r0, r) {
      var v := LoadVal(g.S, p.k, p.c[m], r);
      LoadStep(g.S, p', m, reg, r, v);
      var o2 := if v.Ok? then Fall(r[reg := v.value]) else Error(v.error);
      if v.Ok? { ReachesAfter(g.S, p', m, r, m + 1, r[reg := v.value]); }
      else { ReachesStep(g.S, p', m, r, o2); }
      assert Good(g, p', {}, st', ts, fs, r0, o2);
    }
    forall r0: Regs, j, via, r: Regs | ExitGood(g, p.c, ts, fs, r0, j, via, r)
      ensures j in p'.pend && Good(g, p', {}, st', ts, fs, r0, Exit(j, via, r))
    {
    }
    PatchDischarges(b, {}, p', [ins]);
    Append(g, p, {}, st, ts, fs, g, p', {}, st', ts, fs);
  }

  /** luaK_nil, merging into the LOADNIL just emitted. */
  lemma MergeNil(g: Goal, p: Prog, k: Kind, ts: set<int>, fs: set<int>, p': Prog, to: nat, reg: nat)
    requires k == VNIL && Described(g, p, {}, Val(k), ts, fs)
    requires OnlyFallsInto(p)
    requires Pending(p, ts + fs)
    requires var l := p.c[|p.c| - 1];
             l.a <= reg <= l.to + 1 && to < 256 && to == (if reg > l.to then reg else l.to) &&
             p' == p.(c := p.c[..|p.c| - 1] + [LOADNIL(l.a, to)])
    requires g.free0 <= reg < 250
    ensures Described(g, p', {}, Val(VNONRELOC(reg)), ts, fs)
  {
    var st, st' := Val(k), Val(VNONRELOC(reg));
    var m := |p.c| - 1;
    var l, i := p.c[m], LOADNIL(p.c[m].a, to);
    assert Base(p, st) == p && Base(p', st') == p';
    forall init, o | Clean(g.np, init) && Reaches(g.S, g.p0, 0, init, o)
      ensures exists o2 :: Reaches(g.S, p', 0, init, o2) && Follow(g, p', {}, st', ts, fs, o, o2)
    {
      var o1 :| Reaches(g.S, p, 0, init, o1) && Follow(g, p, {}, st, ts, fs, o, o1);
      var n: nat :| Run(g.S, p, n, 0, init, o1);
      var r1 := DropLast(g.S, p, n, 0, init, o1, i);
      if AtEnd(o, g.here0) {
        match o1
        case Fall(r) =>
          var o2 := Fall(NilRange(r1, i.a, i.to));
          assert Follow(g, p', {}, st', ts, fs, o, o2);
        case Exit(j, via, r) =>
          assert ExitGood(g, p'.c, ts, fs, o.regs, j, via, r);
          assert Follow(g, p', {}, st', ts, fs, o, o1);
        case Error(_) => assert Follow(g, p', {}, st', ts, fs, o, o1);
        case Halt(_) =>
      } else {
        if o.Fall? { }
        assert Follow(g, p', {}, st', ts, fs, o, o1);
      }
    }
  }

  /** luaK_nil at function entry: the registers are still clean. */
  lemma CleanStart(g: Goal, p: Prog, reg: nat)
    requires Described(g, p, {}, Val(VNIL), {}, {})
    requires p.c == [] && g.np <= reg < 250
    ensures Described(g, p, {}, Val(VNONRELOC(reg)), {}, {})
  {
    var st, st' := Val(VNIL), Val(VNONRELOC(reg));
    assert Base(p, st) == p && Base(p, st') == p;
    forall init, o | Clean(g.np, init) && Reaches(g.S, g.p0, 0, init, o)
      ensures exists o2 :: Reaches(g.S, p, 0, init, o2) && Follow(g, p, {}, st', {}, {}, o, o2)
    {
      var o1 :| Reaches(g.S, p, 0, init, o1) && Follow(g, p, {}, st, {}, {}, o, o1);
      assert o1 == Fall(init);
      assert Follow(g, p, {}, st', {}, {}, o, o1);
    }
  }

  /** `t` takes its jump exactly when the value is `cond`, and the jump leaves with it. */
  ghost predicate Tests(S: Sem, k: seq<Value>, t: Instr, cond: bool, r: Regs, v: Result<Value>) {
    && t.IsTest() && TestOk(k, t)
    && (if v.Err? then TestVal(S, k, t, r) == Err(v.error)
        else TestVal(S, k, t, r) == Ok(Truthy(v.value) == cond) &&
             (if t.TESTSET? then v.value == r[t.b] else v.value.Bool?))
  }

  ghost predicate TestsValue(S: Sem, p: Prog, kind: Kind, k: seq<Value>, t: Instr, cond: bool)
    requires StageOk(p, Val(kind))
  {
    forall r :: Tests(S, k, t, cond, r, ValueOf(S, p, kind, r))
  }

  ghost predicate TestEmitted(p: Prog, here: set<int>, n: nat, p': Prog, t: Instr) {
    && n <= |p.c|
    && p'.c == Patch(p.c[..n], here, n, NO_REG, n) + [t, JMP(NO_JUMP)]
    && p.k <= p'.k && n + 1 in p'.pend
    && (forall j :: j < n ==> (j in p'.pend <==> j in p.pend - here))
  }

  lemma TestOutcome(g: Goal, p: Prog, here: set<int>, k: Kind, n: nat, p': Prog, t: Instr, cond: bool, st': Stage,
                    ts': set<int>, fs': set<int>, r0: Regs, r: Regs)
    requires StageOk(p, Val(k)) && TestEmitted(p, here, n, p', t)
    requires FallGood(g, p, Val(k), r0, r)
    requires Tests(g.S, p'.k, t, cond, r, ValueOf(g.S, p, k, r))
    requires st' == Cond(!cond) || (st' == Val(VFALSE) && cond && !t.TESTSET?)
    requires (n + 1 in ts') == cond && (n + 1 in fs') == !cond
    ensures Onward(g.S, n, g, p', {}, st', ts', fs', r0, r)
  {
    var j := n + 1;
    assert p'.c[n] == t && p'.c[j] == JMP(NO_JUMP);
    assert Base(p', st') == p';
    var x := TestVal(g.S, p'.k, t, r);
    if x.Err? {
      ReachesStep(g.S, p', n, r, Error(x.error));
      assert Good(g, p', {}, st', ts', fs', r0, Error(x.error));
    } else if x.value {
      ReachesStep(g.S, p', n, r, Exit(j, true, r));
      assert Controlled(p'.c, j);
      assert Good(g, p', {}, st', ts', fs', r0, Exit(j, true, r));
    } else {
      ReachesAfter(g.S, p', n, r, n + 2, r);
      assert Good(g, p', {}, st', ts', fs', r0, Fall(r));
    }
  }

  /** condjump: a test and its pending jump `j`, which joins the list of its condition.
      The test may replace the suffix of the descriptor (a NOT or a comparison). */
  lemma TestAndJump(g: Goal, p: Prog, here: set<int>, k: Kind, ts: set<int>, fs: set<int>, n: nat,
                    p': Prog, t: Instr, cond: bool, st': Stage, ts': set<int>, fs': set<int>)
    requires Described(g, p, here, Val(k), ts, fs)
    requires n == |p.c| - Suffix(Val(k)) && (n < |p.c| ==> here == {})
    requires TestEmitted(p, here, n, p', t) && g.p0.pend - g.here0 <= p'.pend
    requires Pending(p.(c := p.c[..n]), here) && Pending(p.(c := p.c[..n]), ts + fs) && here !! ts + fs
    requires TestsValue(g.S, p, k, p'.k, t, cond)
    requires st' == Cond(!cond) || (st' == Val(VFALSE) && cond && !t.TESTSET?)
    requires ts' == if cond then ts + {n + 1} else ts
    requires fs' == if cond then fs else fs + {n + 1}
    ensures Described(g, p', {}, st', ts', fs')
  {
    var st := Val(k);
    assert Base(p', st') == p';
    forall r0: Regs, r: Regs | FallGood(g, p, st, r0, r) ensures Onward(g.S, n, g, p', {}, st', ts', fs', r0, r) {
      TestOutcome(g, p, here, k, n, p', t, cond, st', ts', fs', r0, r);
    }
    forall r0: Regs, i, via, r: Regs | ExitGood(g, p.c, ts, fs, r0, i, via, r) && i !in here
      ensures i in p'.pend && Good(g, p', {}, st', ts', fs', r0, Exit(i, via, r))
    {
      assert i in ts + fs;
      ExitKept(g, p, here, ts, fs, n, p', t, r0, i, via, r);
    }
    PatchDischarges(Base(p, st), here, p', [t, JMP(NO_JUMP)]);
    Append(g, p, here, st, ts, fs, g, p', {}, st', ts', fs');
  }

  lemma ExitKept(g: Goal, p: Prog, here: set<int>, ts: set<int>, fs: set<int>, n: nat, p': Prog, t: Instr, r0: Regs, i: int, via: bool, r: Regs)
    requires ExitGood(g, p.c, ts, fs, r0, i, via, r) && i !in here && i < n
    requires TestEmitted(p, here, n, p', t) && Pending(p.(c := p.c[..n]), here)
    ensures ExitGood(g, p'.c, ts, fs, r0, i, via, r)
  {
    assert Pending(p, here);
    ExitsSurvive(g, p, here, ts, fs, p'.c, n, r0, i, via, r);
  }

  /** Only the offsets of pending jumps differ. */
  ghost predicate Relinked(p: Prog, q: Prog) {
    && |p.c| == |q.c| && p.k <= q.k && p.pend == q.pend
    && forall i :: 0 <= i < |p.c| ==> q.c[i] == p.c[i] || (i in p.pend && p.c[i].JMP? && q.c[i].JMP?)
  }

  /** Same code, possibly relinked lists and more constants, another reading of the value. */
  lemma Restage(g: Goal, p: Prog, here: set<int>, st: Stage, ts: set<int>, fs: set<int>, p': Prog, st': Stage)
    requires Described(g, p, here, st, ts, fs) && StageOk(p', st')
    requires Suffix(st) == Suffix(st') == 0
    requires Relinked(p, p') && Pending(p, here + ts + fs) && g.p0.pend - g.here0 <= p'.pend
    requires forall r0, r {:trigger FallGood(g, p, st, r0, r)} :: FallGood(g, p, st, r0, r) ==> FallGood(g, p', st', r0, r)
    ensures Described(g, p', here, st', ts, fs)
  {
    forall r0: Regs, o1 | Good(g, p, here, st, ts, fs, r0, o1) && (o1.Exit? ==> o1.j in p.pend)
      ensures Good(g, p', here, st', ts, fs, r0, o1)
    {
      if o1.Fall? || (o1.Exit? && o1.j in here) { assert FallGood(g, p, st, r0, o1.regs); }
      else if o1.Exit? {
        assert ExitGood(g, p.c, ts, fs, r0, o1.j, o1.via, o1.regs);
        assert ExitGood(g, p'.c, ts, fs, r0, o1.j, o1.via, o1.regs);
      }
    }
    assert Base(p, st).c == p.c && Base(p', st').c == p'.c;
    forall i | 0 <= i < |p.c| ensures SameAt(Base(p, st), Base(p', st'), i) { }
    Relabel(g, p, here, st, ts, fs, g, p', here, st', ts, fs);
  }

  /** luaK_patchtohere after a test: jumps for the outcome that falls through now lead to the
      end of the code. */
  lemma ListToHere(g: Goal, p: Prog, here: set<int>, b: bool, ts: set<int>, fs: set<int>, p': Prog)
    requires Described(g, p, here, Cond(b), ts, fs)
    requires ts !! fs
    requires Relinked(p, p') && Pending(p, here + ts + fs) && g.p0.pend - g.here0 <= p'.pend
    ensures Described(g, p', here + (if b then ts else fs), Cond(b), if b then {} else ts, if b then fs else {})
  {
    var here', ts', fs' := here + (if b then ts else fs), if b then {} else ts, if b then fs else {};
    var st := Cond(b);
    forall r0: Regs, o1 | Good(g, p, here, st, ts, fs, r0, o1) && (o1.Exit? ==> o1.j in p.pend)
      ensures Good(g, p', here', st, ts', fs', r0, o1)
    {
      if o1.Exit? && o1.j !in here {
        assert ExitGood(g, p.c, ts, fs, r0, o1.j, o1.via, o1.regs);
      }
    }
    assert Base(p, st).c == p.c && Base(p', st).c == p'.c;
    forall i | 0 <= i < |p.c| ensures SameAt(Base(p, st), Base(p', st), i) { }
    Relabel(g, p, here, st, ts, fs, g, p', here', st, ts', fs');
  }
}
