/** How runs of unfinished code survive what the code generator does to it: appending
    instructions, relinking pending jumps, and resolving jumps to their targets. */
module Simulation {
  import opened Vm

  lemma {:induction false} MoreFuel(S: Sem, p: Prog, n: nat, m: nat, pc: int, r: Regs, o: Outcome)
    requires Run(S, p, n, pc, r, o) && n <= m
    ensures Run(S, p, m, pc, r, o)
  {
    if pc == |p.c| || n == 0 || pc < 0 || pc > |p.c| {
    } else {
      match Step(S, p, pc, r)
      case Goto(q, r') => MoreFuel(S, p, n - 1, m - 1, q, r', o);
      case Stop(_) =>
      case Stuck =>
    }
  }

  lemma {:induction false} RunDeterministic(S: Sem, p: Prog, n: nat, m: nat, pc: int, r: Regs, o: Outcome, o': Outcome)
    requires Run(S, p, n, pc, r, o) && Run(S, p, m, pc, r, o')
    ensures o == o'
  {
    if pc == |p.c| || pc < 0 || pc > |p.c| {
    } else {
      match Step(S, p, pc, r)
      case Goto(q, r') => RunDeterministic(S, p, n - 1, m - 1, q, r', o, o');
      case Stop(_) =>
      case Stuck =>
    }
  }

  lemma ReachesStep(S: Sem, p: Prog, pc: int, r: Regs, o: Outcome)
    requires 0 <= pc < |p.c|
    requires match Step(S, p, pc, r) case Goto(q, r') => Reaches(S, p, q, r', o) case Stop(o') => o == o' case Stuck => false
    ensures Reaches(S, p, pc, r, o)
  {
    match Step(S, p, pc, r)
    case Goto(q, r') =>
      var n: nat :| Run(S, p, n, q, r', o);
      assert Run(S, p, n + 1, pc, r, o);
    case Stop(_) => assert Run(S, p, 1, pc, r, o);
    case Stuck =>
  }

  lemma ReachesEnd(S: Sem, p: Prog, r: Regs)
    ensures Reaches(S, p, |p.c|, r, Fall(r))
  {
    assert Run(S, p, 0, |p.c|, r, Fall(r));
  }

  /** Instruction `i` of `p` may look different in `q` only when no run of `p` can tell:
      the target of a pending jump, or where a pending TESTSET puts its value. */
  ghost predicate SameAt(p: Prog, q: Prog, i: int)
    requires 0 <= i < |p.c| && i < |q.c|
  {
    || q.c[i] == p.c[i]
    || (i in p.pend && p.c[i].JMP? && q.c[i].JMP?)
    || (i + 1 in p.pend && p.c[i].TESTSET? &&
        ((q.c[i].TESTSET? && q.c[i].b == p.c[i].b && q.c[i].c == p.c[i].c) ||
         q.c[i] == TEST(p.c[i].b, p.c[i].c)))
  }

  /** `q` continues `p`: same code so far (up to pending jumps), maybe more of it, more
      constants, and some jumps resolved. */
  ghost predicate Continues(p: Prog, q: Prog) {
    && |p.c| <= |q.c|
    && p.k <= q.k
    && (forall j :: j in q.pend && j < |p.c| ==> j in p.pend)
    && (forall i :: 0 <= i < |p.c| ==> SameAt(p, q, i))
  }

  /** Where a run leaving through jump `j` goes on once `j` is resolved in `q`. */
  ghost function TargetOf(q: Prog, j: int): int
    requires 0 <= j < |q.c| && q.c[j].JMP?
  {
    j + 1 + q.c[j].sbx
  }

  ghost function LandAt(q: Prog, j: int, via: bool, r: Regs): Regs
    requires 0 <= j < |q.c|
  {
    if via && j >= 1 then Land(q.c[j - 1], true, r) else r
  }

  lemma ContinuesStep(S: Sem, p: Prog, q: Prog, pc: int, r: Regs)
    requires Continues(p, q)
    requires 0 <= pc < |p.c|
    ensures match Step(S, p, pc, r)
            case Goto(x, r') => Step(S, q, pc, r) == Goto(x, r')
            case Stop(o) =>
              if o.Exit? && o.j !in q.pend then
                0 <= o.j < |q.c| && q.c[o.j].JMP? &&
                Step(S, q, pc, r) == Goto(TargetOf(q, o.j), LandAt(q, o.j, o.via, o.regs))
              else Step(S, q, pc, r) == Stop(o)
            case Stuck => true
  {
    assert SameAt(p, q, pc);
    if p.c[pc].IsTest() && pc + 1 < |p.c| {
      assert SameAt(p, q, pc + 1);
    }
  }

  /** The simulation: a run of `p` is also a run of `q`, which goes on where `p`'s run
      stopped if that was the end of `p` or a jump resolved in `q`. */
  lemma {:induction false} Simulate(S: Sem, p: Prog, q: Prog, n: nat, pc: int, r: Regs, o: Outcome, o2: Outcome)
    requires Continues(p, q)
    requires Run(S, p, n, pc, r, o)
    requires match o
             case Fall(r') => Reaches(S, q, |p.c|, r', o2)
             case Exit(j, via, r') =>
               if j in q.pend then o2 == o
               else 0 <= j < |q.c| && q.c[j].JMP? ==> Reaches(S, q, TargetOf(q, j), LandAt(q, j, via, r'), o2)
             case _ => o2 == o
    ensures Reaches(S, q, pc, r, o2)
  {
    if pc == |p.c| {
    } else {
      ContinuesStep(S, p, q, pc, r);
      match Step(S, p, pc, r)
      case Goto(x, r') =>
        Simulate(S, p, q, n - 1, x, r', o, o2);
        ReachesStep(S, q, pc, r, o2);
      case Stop(_) =>
        ReachesStep(S, q, pc, r, o2);
      case Stuck =>
    }
  }

  /** The last instruction is entered only from the one before it. */
  ghost predicate OnlyFallsInto(p: Prog) {
    && |p.c| > 0
    && (p.c[|p.c| - 1].LOADNIL?)
    && (forall i :: 0 <= i < |p.c| && p.c[i].JMP? && i !in p.pend ==> i + 1 + p.c[i].sbx != |p.c|)
    && (forall i :: 0 <= i < |p.c| && p.c[i].LOADBOOL? && p.c[i].skip ==> i + 2 != |p.c|)
  }

  /** A run past a final LOADNIL is a run up to it followed by it; other runs do not reach it. */
  lemma {:induction false} DropLast(S: Sem, p: Prog, n: nat, pc: int, r: Regs, o: Outcome, i: Instr) returns (r0: Regs)
    requires OnlyFallsInto(p)
    requires Run(S, p, n, pc, r, o) && pc != |p.c| && i.LOADNIL? && i.a <= i.to
    ensures var m := |p.c| - 1;
            var q := p.(c := p.c[..m] + [i]);
            var l := p.c[m];
            if o.Fall? then l.a <= l.to && o.regs == NilRange(r0, l.a, l.to) && Reaches(S, q, pc, r, Fall(NilRange(r0, i.a, i.to)))
            else Reaches(S, q, pc, r, o)
  {
    var m := |p.c| - 1;
    var q := p.(c := p.c[..m] + [i]);
    if pc == m {
      r0 := r;
      var x := NilRange(r, i.a, i.to);
      ReachesEnd(S, q, x);
      if p.c[m].a <= p.c[m].to && n > 0 {
        assert Run(S, p, n - 1, m + 1, NilRange(r, p.c[m].a, p.c[m].to), o);
      }
      ReachesStep(S, q, pc, r, Fall(x));
    } else {
      r0 := r;
      assert q.c[pc] == p.c[pc];
      match Step(S, p, pc, r)
      case Goto(x, r') =>
        assert Step(S, q, pc, r) == Goto(x, r');
        assert x != |p.c|;
        r0 := DropLast(S, p, n - 1, x, r', o, i);
        var o2 := if o.Fall? then Fall(NilRange(r0, i.a, i.to)) else o;
        ReachesStep(S, q, pc, r, o2);
      case Stop(o') =>
        assert Step(S, q, pc, r) == Stop(o');
        ReachesStep(S, q, pc, r, o');
      case Stuck =>
    }
  }
}
