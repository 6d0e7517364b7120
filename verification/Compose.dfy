/** Building the meaning of an operator from the meaning of its operands. */
module Compose {
  import opened Vm
  import opened Simulation
  import opened Describe
  import opened Transitions

  /** Expressions only look at active locals. */
  lemma {:induction false} EvalAgree(S: Sem, nactvar: nat, e: Expr, r0: Regs, r: Regs)
    requires WellFormed(S, nactvar, e) && Agree(r0, r, nactvar)
    ensures Eval(S, e, r) == Eval(S, e, r0)
  {
    match e
    case Unary(_, a) => EvalAgree(S, nactvar, a, r0, r);
    case Binary(_, a, b) => EvalAgree(S, nactvar, a, r0, r); EvalAgree(S, nactvar, b, r0, r);
    case _ =>
  }

  /** A sub-expression that starts where `p` ends. */
  ghost function SubGoal(g: Goal, p: Prog, here: set<int>, free: nat, src: Expr): Goal {
    Goal(g.S, g.np, p, here, free, src)
  }

  lemma Restart(g: Goal, p: Prog, here: set<int>, free: nat, k: Kind, src: Expr)
    requires StageOk(p, Val(k)) && Suffix(Val(k)) == 0
    requires forall r :: ValueOf(g.S, p, k, r) == Eval(g.S, src, r)
    ensures Described(SubGoal(g, p, here, free, src), p, here, Val(k), {}, {})
  {
    var g' := SubGoal(g, p, here, free, src);
    assert Base(p, Val(k)) == p;
    forall init, o | Clean(g'.np, init) && Reaches(g'.S, g'.p0, 0, init, o)
      ensures exists o1 :: Reaches(g.S, p, 0, init, o1) && Follow(g', p, here, Val(k), {}, {}, o, o1)
    {
      assert Follow(g', p, here, Val(k), {}, {}, o, o);
    }
  }

  /** The first operand as an expression of its own: a constant, or the register it is in. */
  ghost function OperandExpr(p: Prog, k: Kind): Expr
    requires OperandOk(p, k)
  {
    match k
    case VK(i) => Const(p.k[i])
    case VNONRELOC(x) => Local(x)
    case VKNUM(n) => Const(Num(n))
  }

  ghost predicate SafeBelow(k: Kind, free: nat) { k.VNONRELOC? ==> k.reg < free }

  /** A run that left before the expression began left through a jump that is still held. */
  lemma HeldExit(g: Goal, init: Regs, o: Outcome)
    requires Reaches(g.S, g.p0, 0, init, o)
    ensures o.Exit? ==> o.j in g.p0.pend
  {
    if o.Exit? {
      var n: nat :| Run(g.S, g.p0, n, 0, init, o);
      RunExits(g.S, g.p0, n, 0, init, o);
    }
  }

  lemma BothFall(g: Goal, p1: Prog, k1: Kind, free1: nat, src2: Expr, p2: Prog, k2: Kind, free2: nat, p3: Prog, k1': Kind, op: BinOp,
                 nactvar: nat, r0: Regs, r1: Regs, r2: Regs, r3: Regs)
    requires OperandOk(p1, k1) && OperandOk(p2, k2) && OperandOk(p2, k1) && OperandOk(p3, k1') && !op.AND? && !op.OR?
    requires SafeBelow(k1, free1) && SafeBelow(k2, free2) && nactvar <= g.free0 <= free1 <= free2
    requires p1.k <= p2.k <= p3.k
    requires FallGood(g, p1, Val(k1), r0, r1)
    requires FallGood(SubGoal(g, p1, {}, free1, src2), p2, Val(k2), r1, r2)
    requires FallGood(SubGoal(g, p2, {}, free2, OperandExpr(p2, k1)), p3, Val(k1'), r2, r3)
    requires WellFormed(g.S, nactvar, src2)
    ensures FallGood(g.(src := Binary(op, g.src, src2)), p3, Oper(op, k1', k2), r0, r3)
  {
    EvalAgree(g.S, nactvar, src2, r0, r1);
    assert OperandVal(p3, k2, r3) == OperandVal(p2, k2, r2);
    assert OperandVal(p3, k1', r3) == OperandVal(p1, k1, r1);
  }

  lemma BothFollow(g: Goal, p1: Prog, here1: set<int>, k1: Kind, free1: nat, src2: Expr, p2: Prog, here2: set<int>, k2: Kind, free2: nat,
                   p3: Prog, here3: set<int>, k1': Kind, op: BinOp, nactvar: nat, o: Outcome, o1: Outcome, o2: Outcome, o3: Outcome)
    requires OperandOk(p1, k1) && OperandOk(p2, k2) && OperandOk(p2, k1) && OperandOk(p3, k1') && !op.AND? && !op.OR?
    requires SafeBelow(k1, free1) && SafeBelow(k2, free2) && nactvar <= g.free0 <= free1 <= free2
    requires p1.k <= p2.k <= p3.k && WellFormed(g.S, nactvar, src2)
    requires AtEnd(o, g.here0) && Good(g, p1, here1, Val(k1), {}, {}, o.regs, o1)
    requires Follow(SubGoal(g, p1, here1, free1, src2), p2, here2, Val(k2), {}, {}, o1, o2)
    requires Follow(SubGoal(g, p2, here2, free2, OperandExpr(p2, k1)), p3, here3, Val(k1'), {}, {}, o2, o3)
    ensures Good(g.(src := Binary(op, g.src, src2)), p3, here3, Oper(op, k1', k2), {}, {}, o.regs, o3)
  {
    if AtEnd(o1, here1) {
      assert FallGood(g, p1, Val(k1), o.regs, o1.regs);
      EvalAgree(g.S, nactvar, src2, o.regs, o1.regs);
      if AtEnd(o2, here2) {
        assert FallGood(SubGoal(g, p1, {}, free1, src2), p2, Val(k2), o1.regs, o2.regs);
        if AtEnd(o3, here3) {
          BothFall(g, p1, k1, free1, src2, p2, k2, free2, p3, k1', op, nactvar, o.regs, o1.regs, o2.regs, o3.regs);
        }
      }
    }
  }

  /** `k1` at `p1` and `k1'` at `p3` denote the same operand; `k2` was computed between. */
  lemma BothOperands(g: Goal, p1: Prog, here1: set<int>, free1: nat, k1: Kind, src2: Expr,
                     p2: Prog, here2: set<int>, free2: nat, k2: Kind, p3: Prog, here3: set<int>, k1': Kind, op: BinOp, nactvar: nat)
    requires OperandOk(p1, k1) && OperandOk(p2, k2) && OperandOk(p2, k1) && OperandOk(p3, k1') && !op.AND? && !op.OR?
    requires SafeBelow(k1, free1) && SafeBelow(k2, free2) && nactvar <= g.free0 <= free1 <= free2
    requires p1.k <= p2.k <= p3.k
    requires Described(g, p1, here1, Val(k1), {}, {})
    requires Described(SubGoal(g, p1, here1, free1, src2), p2, here2, Val(k2), {}, {})
    requires Described(SubGoal(g, p2, here2, free2, OperandExpr(p2, k1)), p3, here3, Val(k1'), {}, {})
    requires WellFormed(g.S, nactvar, src2)
    requires g.p0.pend - g.here0 !! here1 + here2
    ensures Described(g.(src := Binary(op, g.src, src2)), p3, here3, Oper(op, k1', k2), {}, {})
  {
    var g', st' := g.(src := Binary(op, g.src, src2)), Oper(op, k1', k2);
    var g2, g3 := SubGoal(g, p1, here1, free1, src2), SubGoal(g, p2, here2, free2, OperandExpr(p2, k1));
    assert Base(p1, Val(k1)) == p1 && Base(p2, Val(k2)) == p2 && Base(p3, Val(k1')) == p3 && Base(p3, st') == p3;
    forall init, o | Clean(g.np, init) && Reaches(g.S, g.p0, 0, init, o)
      ensures exists o3 :: Reaches(g.S, p3, 0, init, o3) && Follow(g', p3, here3, st', {}, {}, o, o3)
    {
      var o1 :| Reaches(g.S, p1, 0, init, o1) && Follow(g, p1, here1, Val(k1), {}, {}, o, o1);
      var o2 :| Reaches(g.S, p2, 0, init, o2) && Follow(g2, p2, here2, Val(k2), {}, {}, o1, o2);
      var o3 :| Reaches(g.S, p3, 0, init, o3) && Follow(g3, p3, here3, Val(k1'), {}, {}, o2, o3);
      if AtEnd(o, g.here0) {
        BothFollow(g, p1, here1, k1, free1, src2, p2, here2, k2, free2, p3, here3, k1', op, nactvar, o, o1, o2, o3);
      } else {
        HeldExit(g, init, o);
      }
      assert Follow(g', p3, here3, st', {}, {}, o, o3);
    }
  }

  /** The same for one run: `o` before the first operand, `o1` before the second, `o2` after it. */
  lemma LogicFollow(g: Goal, p1: Prog, here1: set<int>, js: set<int>, b: bool, src2: Expr, free1: nat,
                    p2: Prog, here2: set<int>, st2: Stage, ts2: set<int>, fs2: set<int>, nactvar: nat, o: Outcome, o1: Outcome, o2: Outcome)
    requires StageOk(p2, st2) && st2.Val? && nactvar <= g.free0 <= free1 && WellFormed(g.S, nactvar, src2)
    requires Follow(g, p1, here1, Cond(b), if b then {} else js, if b then js else {}, o, o1)
    requires Follow(SubGoal(g, p1, here1, free1, src2), p2, here2, st2, ts2, fs2, o1, o2)
    requires js !! here1 && js !! here2 && js !! ts2 && js !! fs2
    requires Pending(p1, js) && (o.Exit? ==> o.j in g.p0.pend) && g.p0.pend - g.here0 !! here1
    requires forall j :: j in js ==> j < |p2.c| && (j >= 1 ==> p2.c[j - 1] == p1.c[j - 1] || (p1.c[j - 1].JMP? && p2.c[j - 1].JMP?))
    ensures Follow(g.(src := Binary(if b then AND else OR, g.src, src2)), p2, here2, st2,
                   if b then ts2 else ts2 + js, if b then fs2 + js else fs2, o, o2)
  {
    hide WellFormed;
    var g' := g.(src := Binary(if b then AND else OR, g.src, src2));
    var g2 := SubGoal(g, p1, here1, free1, src2);
    var ts1, fs1 := if b then {} else js, if b then js else {};
    var ts', fs' := if b then ts2 else ts2 + js, if b then fs2 + js else fs2;
    if AtEnd(o, g.here0) {
      if AtEnd(o1, here1) {
        assert FallGood(g, p1, Cond(b), o.regs, o1.regs);
        EvalAgree(g.S, nactvar, src2, o.regs, o1.regs);
        if AtEnd(o2, here2) {
          assert FallGood(g2, p2, st2, o1.regs, o2.regs);
          assert FallGood(g', p2, st2, o.regs, o2.regs);
        } else if o2.Exit? {
          assert ExitGood(g2, p2.c, ts2, fs2, o1.regs, o2.j, o2.via, o2.regs);
          assert ExitGood(g', p2.c, ts', fs', o.regs, o2.j, o2.via, o2.regs);
        }
      } else if o1.Exit? {
        assert ExitGood(g, p1.c, ts1, fs1, o.regs, o1.j, o1.via, o1.regs);
        assert ExitGood(g', p2.c, ts', fs', o.regs, o2.j, o2.via, o2.regs);
      }
    }
  }

  /** Operand 1 was tested: its jumps `js` leave when it decides `and`/`or`; otherwise
      control falls through into operand 2. */
  lemma ShortCircuit(g: Goal, p1: Prog, here1: set<int>, js: set<int>, b: bool, src2: Expr, free1: nat,
                     p2: Prog, here2: set<int>, st2: Stage, ts2: set<int>, fs2: set<int>, nactvar: nat)
    requires Described(g, p1, here1, Cond(b), if b then {} else js, if b then js else {})
    requires Described(SubGoal(g, p1, here1, free1, src2), p2, here2, st2, ts2, fs2)
    requires nactvar <= g.free0 <= free1 && WellFormed(g.S, nactvar, src2)
    requires Pending(p1, here1 + js) && Pending(Base(p2, st2), here2 + ts2 + fs2)
    requires js !! here1 && js !! here2 && js !! ts2 && js !! fs2
    requires st2.Val? && g.p0.pend - g.here0 !! here1
    requires forall j :: j in js ==> j < |p2.c| && (j >= 1 ==> p2.c[j - 1] == p1.c[j - 1] || (p1.c[j - 1].JMP? && p2.c[j - 1].JMP?))
    ensures Described(g.(src := Binary(if b then AND else OR, g.src, src2)), p2, here2, st2,
                      if b then ts2 else ts2 + js, if b then fs2 + js else fs2)
  {
    var g' := g.(src := Binary(if b then AND else OR, g.src, src2));
    var g2 := SubGoal(g, p1, here1, free1, src2);
    var ts1, fs1 := if b then {} else js, if b then js else {};
    var ts', fs' := if b then ts2 else ts2 + js, if b then fs2 + js else fs2;
    var b2 := Base(p2, st2);
    assert Base(p1, Cond(b)) == p1;
    forall init, o | Clean(g.np, init) && Reaches(g.S, g.p0, 0, init, o)
      ensures exists o2 :: Reaches(g.S, b2, 0, init, o2) && Follow(g', p2, here2, st2, ts', fs', o, o2)
    {
      var o1 :| Reaches(g.S, p1, 0, init, o1) && Follow(g, p1, here1, Cond(b), ts1, fs1, o, o1);
      var o2 :| Reaches(g.S, b2, 0, init, o2) && Follow(g2, p2, here2, st2, ts2, fs2, o1, o2);
      HeldExit(g, init, o);
      LogicFollow(g, p1, here1, js, b, src2, free1, p2, here2, st2, ts2, fs2, nactvar, o, o1, o2);
      assert Follow(g', p2, here2, st2, ts', fs', o, o2);
    }
  }

  /** Emit a load as the open suffix of the descriptor (VRELOCABLE): an operator applied to
      operands that have no jumps. */
  lemma OpenLoad(g: Goal, p: Prog, here: set<int>, st: Stage, src': Expr, p': Prog, ins: Instr)
    requires Described(g, p, here, st, {}, {}) && Suffix(st) == 0
    requires Pending(p, here)
    requires Emits(p, here, p', [ins]) && p'.pend == p.pend - here
    requires g.p0.pend - g.here0 <= p'.pend
    requires ins.IsLoad() && LoadOk(p'.k, ins)
    requires forall r0, r {:trigger FallGood(g, p, st, r0, r)} :: FallGood(g, p, st, r0, r) ==>
               LoadVal(g.S, p'.k, ins, r) == Eval(g.S, src', r0)
    requires forall r0, x :: Eval(g.S, g.src, r0) == Err(x) ==> Eval(g.S, src', r0) == Err(x)
    ensures Described(g.(src := src'), p', {}, Val(VRELOCABLE(|p.c|)), {}, {})
  {
    var g', st' := g.(src := src'), Val(VRELOCABLE(|p.c|));
    var b' := Base(p', st');
    assert Base(p, st) == p && |b'.c| == |p.c|;
    assert b'.c == Patch(p.c, here, |p.c|, NO_REG, |p.c|) + [];
    PatchDischarges(p, here, b', []);
    forall r0: Regs, r: Regs | FallGood(g, p, st, r0, r) ensures Onward(g.S, |p.c|, g', p', {}, st', {}, {}, r0, r) {
      ReachesEnd(g.S, b', r);
      assert FallGood(g', p', st', r0, r);
      assert Good(g', p', {}, st', {}, {}, r0, Fall(r));
    }
    Append(g, p, here, st, {}, {}, g', p', {}, st', {}, {});
  }

  /** codecomp: the comparison and its pending jump are the open suffix (VJMP). */
  lemma OpenCompare(g: Goal, p: Prog, here: set<int>, st: Stage, p': Prog, t: Instr)
    requires Described(g, p, here, st, {}, {}) && st.Oper?
    requires Pending(p, here)
    requires Emits(p, here, p', [t, JMP(NO_JUMP)]) && p'.pend == p.pend - here + {|p.c| + 1}
    requires g.p0.pend - g.here0 <= p'.pend
    requires t.CMP? && TestOk(p'.k, t)
    requires forall r0, r {:trigger FallGood(g, p, st, r0, r)} :: FallGood(g, p, st, r0, r) ==>
               Eval(g.S, g.src, r0) == (var x := TestVal(g.S, p'.k, t, r); if x.Err? then Err(x.error) else Ok(Bool(x.value)))
    ensures Described(g, p', {}, Val(VJMP(|p.c| + 1)), {}, {})
  {
    var st' := Val(VJMP(|p.c| + 1));
    var b' := Base(p', st');
    assert b'.c == Patch(p.c, here, |p.c|, NO_REG, |p.c|) + [];
    assert Base(p, st) == p;
    PatchDischarges(p, here, b', []);
    forall r0: Regs, r: Regs | FallGood(g, p, st, r0, r) ensures Onward(g.S, |p.c|, g, p', {}, st', {}, {}, r0, r) {
      ReachesEnd(g.S, b', r);
      assert FallGood(g, p', st', r0, r);
      assert Good(g, p', {}, st', {}, {}, r0, Fall(r));
    }
    Append(g, p, here, st, {}, {}, g, p', {}, st', {}, {});
  }

  // ---------------------------------------------------------------- not

  ghost predicate Negation(v: Result<Value>, w: Result<Value>) {
    w == if v.Ok? then Ok(Bool(!Truthy(v.value))) else v
  }

  /** removevalues: no jump of the lists carries a value any more, each keeps its test. */
  ghost predicate Stripped(p: Prog, js: set<int>, q: Prog) {
    forall j :: j in js ==> j < |p.c| && j < |q.c| && !Valued(q.c, j) && (Controlled(p.c, j) <==> Controlled(q.c, j))
  }

  lemma NegatedExit(g: Goal, p: Prog, ts: set<int>, fs: set<int>, p': Prog, r0: Regs, j: int, via: bool, r: Regs)
    requires ExitGood(g, p.c, ts, fs, r0, j, via, r) && ts !! fs && Stripped(p, ts + fs, p')
    ensures ExitGood(g.(src := Unary(NOT, g.src)), p'.c, fs, ts, r0, j, via, r)
  {
    assert j in ts + fs;
  }

  /** codenot without new code: a constant is folded or a comparison inverted. */
  lemma NegateInPlace(g: Goal, p: Prog, here: set<int>, k: Kind, ts: set<int>, fs: set<int>, p': Prog, k': Kind)
    requires Described(g, p, here, Val(k), ts, fs) && StageOk(p', Val(k'))
    requires Suffix(Val(k)) == Suffix(Val(k')) && |p.c| == |p'.c| && p.pend == p'.pend
    requires Continues(Base(p, Val(k)), Base(p', Val(k'))) && Stripped(p, ts + fs, p')
    requires Pending(p, here + ts + fs) && ts !! fs && g.p0.pend - g.here0 <= p'.pend
    requires forall r :: Negation(ValueOf(g.S, p, k, r), ValueOf(g.S, p', k', r))
    ensures Described(g.(src := Unary(NOT, g.src)), p', here, Val(k'), fs, ts)
  {
    var g', st, st' := g.(src := Unary(NOT, g.src)), Val(k), Val(k');
    forall r0: Regs, o1 | Good(g, p, here, st, ts, fs, r0, o1) && (o1.Exit? ==> o1.j in p.pend)
      ensures Good(g', p', here, st', fs, ts, r0, o1)
    {
      if o1.Fall? || (o1.Exit? && o1.j in here) {
        assert FallGood(g, p, st, r0, o1.regs);
        assert Negation(ValueOf(g.S, p, k, o1.regs), ValueOf(g.S, p', k', o1.regs));
        assert FallGood(g', p', st', r0, o1.regs);
      } else if o1.Exit? {
        NegatedExit(g, p, ts, fs, p', r0, o1.j, o1.via, o1.regs);
      }
    }
    Relabel(g, p, here, st, ts, fs, g', p', here, st', fs, ts);
  }

  /** codenot on a value in a register: an open OP_NOT. */
  lemma NegateLoad(g: Goal, p: Prog, here: set<int>, reg: nat, ts: set<int>, fs: set<int>, p': Prog)
    requires Described(g, p, here, Val(VNONRELOC(reg)), ts, fs)
    requires Pending(p, here) && Pending(p, ts + fs) && ts !! fs && here !! ts + fs
    requires StageOk(p', Val(VRELOCABLE(|p.c|))) && p'.c[|p.c|].NOTOP? && p'.c[|p.c|].b == reg
    requires Discharged(p, here, Base(p', Val(VRELOCABLE(|p.c|)))) && Stripped(p, ts + fs, p')
    requires g.p0.pend - g.here0 <= p'.pend
    ensures Described(g.(src := Unary(NOT, g.src)), p', {}, Val(VRELOCABLE(|p.c|)), fs, ts)
  {
    var g', st, st' := g.(src := Unary(NOT, g.src)), Val(VNONRELOC(reg)), Val(VRELOCABLE(|p.c|));
    var b' := Base(p', st');
    assert Base(p, st) == p;
    forall r0: Regs, r: Regs | FallGood(g, p, st, r0, r) ensures Onward(g.S, |p.c|, g', p', {}, st', fs, ts, r0, r) {
      ReachesEnd(g.S, b', r);
      assert FallGood(g', p', st', r0, r);
      assert Good(g', p', {}, st', fs, ts, r0, Fall(r));
    }
    forall r0: Regs, j, via, r: Regs | ExitGood(g, p.c, ts, fs, r0, j, via, r) && j !in here
      ensures j in p'.pend && Good(g', p', {}, st', fs, ts, r0, Exit(j, via, r))
    {
      assert j in ts + fs;
      NegatedExit(g, p, ts, fs, p', r0, j, via, r);
    }
    Append(g, p, here, st, ts, fs, g', p', {}, st', fs, ts);
  }

  // ---------------------------------------------------------------- exp2reg

  /** Where exp2reg sends jump `j`: to `final` with its value in `reg`, or to the load of the
      Boolean it stands for. */
  ghost predicate ResolvedTo(p: Prog, q: Prog, j: int, reg: nat, final: int, load: int, b: bool)
    requires 0 <= j < |p.c| <= |q.c|
  {
    && q.c[j].JMP? && j !in q.pend
    && if Valued(p.c, j) then
         && TargetOf(q, j) == final
         && q.c[j - 1] == (if reg == p.c[j - 1].b then TEST(p.c[j - 1].b, p.c[j - 1].c) else if reg < 256 then TESTSET(reg, p.c[j - 1].b, p.c[j - 1].c) else TEST(0, false))
       else
         && TargetOf(q, j) == load && 0 <= load < final && final <= |q.c| && q.c[load].LOADBOOL? && q.c[load].a == reg
         && q.c[load].val == b && load + (if q.c[load].skip then 2 else 1) == final
         && (j >= 1 ==> !q.c[j - 1].TESTSET?)
  }

  /** exp2reg: whatever way the expression ends, its value ends up in `reg`. */
  lemma Finish(g: Goal, p: Prog, here: set<int>, st: Stage, ts: set<int>, fs: set<int>, p': Prog, here': set<int>, reg: nat, pf: int, pt: int)
    requires Described(g, p, here, st, ts, fs) && Suffix(st) == 0
    requires ts !! fs && here !! ts + fs && Pending(p, here + ts + fs)
    requires Continues(p, p') && here <= p'.pend && here <= here' && g.p0.pend - g.here0 <= p'.pend
    requires forall j :: j in ts ==> ResolvedTo(p, p', j, reg, |p'.c|, pt, true)
    requires forall j :: j in fs ==> ResolvedTo(p, p', j, reg, |p'.c|, pf, false)
    requires g.free0 <= reg < 250
    requires st == Val(VNONRELOC(reg)) || (st == Val(VFALSE) && here == {})
    requires forall r0, r {:trigger FallGood(g, p, st, r0, r)} :: FallGood(g, p, st, r0, r) ==>
               Onward(g.S, |p.c|, g, p', here', Val(VNONRELOC(reg)), {}, {}, r0, r)
    ensures Described(g, p', here', Val(VNONRELOC(reg)), {}, {})
  {
    var st' := Val(VNONRELOC(reg));
    assert Base(p, st) == p && Base(p', st') == p';
    forall r0: Regs, o1 | Good(g, p, here, st, ts, fs, r0, o1)
      ensures Carries(g, p, here, st, ts, fs, g, p', here', st', {}, {}, r0, o1)
    {
      match o1
      case Error(_) => assert Becomes(g.S, p, p', o1, o1);
      case Fall(r) =>
        assert FallGood(g, p, st, r0, r);
        assert Onward(g.S, |p.c|, g, p', here', st', {}, {}, r0, r);
      case Exit(j, via, r) =>
        if j in here {
          assert FallGood(g, p, st, r0, r);
          assert Good(g, p', here', st', {}, {}, r0, o1);
          assert Becomes(g.S, p, p', o1, o1);
        } else {
          assert j in ts + fs;
          FinishExit(g, p, ts, fs, p', here', reg, if j in ts then pt else pf, r0, j, via, r);
        }
      case Halt(_) =>
    }
    Transform(g, p, here, st, ts, fs, g, p', here', st', {}, {});
  }

  lemma FinishExit(g: Goal, p: Prog, ts: set<int>, fs: set<int>, p': Prog, here': set<int>, reg: nat, load: int, r0: Regs, j: int, via: bool, r: Regs)
    requires ExitGood(g, p.c, ts, fs, r0, j, via, r) && |p.c| <= |p'.c|
    requires ResolvedTo(p, p', j, reg, |p'.c|, load, j in ts)
    requires g.free0 <= reg < 250
    ensures exists o2 :: Becomes(g.S, p, p', Exit(j, via, r), o2) && Good(g, p', here', Val(VNONRELOC(reg)), {}, {}, r0, o2)
  {
    var r1 := LandAt(p', j, via, r);
    var r2 := if Valued(p.c, j) then r1 else r1[reg := Bool(j in ts)];
    ReachesEnd(g.S, p', r2);
    if !Valued(p.c, j) {
      ReachesStep(g.S, p', load, r1, Fall(r2));
    }
    assert Reaches(g.S, p', TargetOf(p', j), r1, Fall(r2));
    assert Becomes(g.S, p, p', Exit(j, via, r), Fall(r2));
    assert FallGood(g, p', Val(VNONRELOC(reg)), r0, r2);
    assert Good(g, p', here', Val(VNONRELOC(reg)), {}, {}, r0, Fall(r2));
  }

  /** The code exp2reg leaves: `tail` after the old code, both lists patched. */
  ghost predicate Finished(p: Prog, ts: set<int>, fs: set<int>, tail: seq<Instr>, p': Prog, reg: nat, pf: int, pt: int) {
    && reg < 250 && p.k <= p'.k
    && var n := |p.c| + |tail|;
       p'.c == Patch(Patch(p.c + tail, fs, n, reg, pf), ts, n, reg, pt)
  }

  ghost predicate BoolLoads(c: seq<Instr>, reg: nat, pf: int, n: int) {
    reg < 256 && 0 <= pf && pf + 2 == n == |c| && c[pf] == LOADBOOL(reg, false, true) && c[pf + 1] == LOADBOOL(reg, true, false)
  }

  lemma FinishedResolves(p: Prog, ts: set<int>, fs: set<int>, tail: seq<Instr>, p': Prog, reg: nat, pf: int)
    requires Finished(p, ts, fs, tail, p', reg, pf, if pf < 0 then pf else pf + 1)
    requires ts !! fs && Pending(p, ts + fs) && p'.pend !! ts + fs
    requires forall j :: j in p'.pend && j < |p.c| ==> j in p.pend
    requires if tail == [] then forall j :: j in ts + fs ==> Valued(p.c, j) else pf >= |p.c| && BoolLoads(p.c + tail, reg, pf, |p.c| + |tail|)
    ensures Continues(p, p')
    ensures forall j :: j in ts ==> ResolvedTo(p, p', j, reg, |p'.c|, pf + 1, true)
    ensures forall j :: j in fs ==> ResolvedTo(p, p', j, reg, |p'.c|, pf, false)
    ensures forall i :: |p.c| <= i < |p'.c| ==> p'.c[i] == tail[i - |p.c|]
  {
    var n := |p.c| + |tail|;
    var pt := if pf < 0 then pf else pf + 1;
    var c := p.c + tail;
    var c1 := Patch(c, fs, n, reg, pf);
    forall i | 0 <= i < n ensures p'.c[i] == PatchAt(c1, ts, n, reg, pt, i) && c1[i] == PatchAt(c, fs, n, reg, pf, i) { }
    forall i | 0 <= i < |p.c| ensures SameAt(p, p', i) { }
  }

  /** Falling through to `n`, where the code ends, is jumped over, or loads false. */
  lemma FallFinishes(g: Goal, p: Prog, st: Stage, n: nat, p': Prog, here': set<int>, reg: nat, r0: Regs, r: Regs)
    requires StageOk(p, st) && FallGood(g, p, st, r0, r) && g.free0 <= reg < 250
    requires
      || (n == |p'.c| && st == Val(VNONRELOC(reg)))
      || (n < |p'.c| && p'.c[n].JMP? && n in p'.pend && n in here' && st == Val(VNONRELOC(reg)))
      || (n + 2 == |p'.c| && p'.c[n] == LOADBOOL(reg, false, true) && st == Val(VFALSE))
    ensures Onward(g.S, n, g, p', here', Val(VNONRELOC(reg)), {}, {}, r0, r)
  {
    var st' := Val(VNONRELOC(reg));
    assert Base(p', st') == p';
    if n == |p'.c| {
      ReachesEnd(g.S, p', r);
      assert Good(g, p', here', st', {}, {}, r0, Fall(r));
    } else if p'.c[n].JMP? {
      ReachesStep(g.S, p', n, r, Exit(n, false, r));
      assert Good(g, p', here', st', {}, {}, r0, Exit(n, false, r));
    } else {
      ReachesAfter(g.S, p', n, r, n + 2, r[reg := Bool(false)]);
      assert Good(g, p', here', st', {}, {}, r0, Fall(r[reg := Bool(false)]));
    }
  }

  /** The end of exp2reg, in its three shapes: all jumps carry values; Boolean loads are
      needed and jumped over; Boolean loads are needed after a comparison. */
  lemma FinishAll(g: Goal, p: Prog, here: set<int>, st: Stage, ts: set<int>, fs: set<int>, tail: seq<Instr>,
                  p': Prog, here': set<int>, reg: nat, pf: int)
    requires Described(g, p, here, st, ts, fs)
    requires ts !! fs && here !! ts + fs && Pending(p, here + ts + fs)
    requires Finished(p, ts, fs, tail, p', reg, pf, if pf < 0 then pf else pf + 1)
    requires g.free0 <= reg && g.p0.pend - g.here0 <= p'.pend
    requires var n := |p.c|;
      || (tail == [] && st == Val(VNONRELOC(reg)) && (forall j :: j in ts + fs ==> Valued(p.c, j)) &&
          p'.pend == p.pend - ts - fs && here' == here)
      || (|tail| == 3 && tail[0].JMP? && BoolLoads(p.c + tail, reg, n + 1, n + 3) && pf == n + 1 && st == Val(VNONRELOC(reg)) &&
          p'.pend == p.pend + {n} - ts - fs && here' == here + {n})
      || (|tail| == 2 && BoolLoads(p.c + tail, reg, n, n + 2) && pf == n && st == Val(VFALSE) &&
          p'.pend == p.pend - ts - fs && here == here' == {})
    ensures Described(g, p', here', Val(VNONRELOC(reg)), {}, {})
  {
    var n := |p.c|;
    FinishedResolves(p, ts, fs, tail, p', reg, pf);
    assert Base(p', Val(VNONRELOC(reg))) == p' && |p'.c| == n + |tail|;
    assert forall j :: j in ts + fs ==> j < n;
    forall r0: Regs, r: Regs | FallGood(g, p, st, r0, r) ensures Onward(g.S, n, g, p', here', Val(VNONRELOC(reg)), {}, {}, r0, r) {
      if |tail| != 0 { assert p'.c[n] == tail[0] == (p.c + tail)[n]; }
      FallFinishes(g, p, st, n, p', here', reg, r0, r);
    }
    forall j | j in here ensures j in p'.pend { assert j in here + ts + fs; }
    Finish(g, p, here, st, ts, fs, p', here', reg, pf, pf + 1);
  }
}
