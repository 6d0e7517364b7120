/** What an expression descriptor says about the code emitted so far, and the lemmas that
    carry this meaning through every change the code generator makes. */
module Describe {
  import opened Basics
  import opened Vm
  import opened Simulation

  const NO_JUMP: int := -1
  const NO_REG: Reg := 255

  /** expkind, with the payload each kind uses. */
  datatype Kind =
    | VNIL | VTRUE | VFALSE
    | VK(index: nat)
    | VKNUM(nval: real)
    | VLOCAL(local: nat)
    | VUPVAL(up: nat)
    | VGLOBAL(name: nat)
    | VJMP(jump: nat)
    | VRELOCABLE(at: nat)
    | VNONRELOC(reg: nat)

  // ---------------------------------------------------------------- jump lists in code

  /** getjump: lists are threaded through the offsets of unfinished jumps. */
  function NextJump(c: seq<Instr>, pc: int): int
    requires 0 <= pc < |c| && c[pc].JMP?
  {
    if c[pc].sbx == NO_JUMP then NO_JUMP else pc + 1 + c[pc].sbx
  }

  ghost function Elems(l: seq<int>): set<int> { set x | x in l }

  ghost predicate IsList(c: seq<Instr>, head: int, l: seq<int>) {
    && NoDup(l)
    && (head == if l == [] then NO_JUMP else l[0])
    && (forall i :: 0 <= i < |l| ==> 0 <= l[i] < |c|)
    && (forall i :: 0 <= i < |l| ==> c[l[i]].JMP?)
    && (forall i :: 0 <= i < |l| ==> Linked(c, l, i))
  }

  ghost predicate Linked(c: seq<Instr>, l: seq<int>, i: int) {
    0 <= i < |l| && 0 <= l[i] < |c| && c[l[i]].JMP? && NextJump(c, l[i]) == if i + 1 < |l| then l[i + 1] else NO_JUMP
  }

  /** getjumpcontrol finds a test before the jump. */
  ghost predicate Controlled(c: seq<Instr>, j: int) { 1 <= j <= |c| && c[j - 1].IsTest() }

  /** The jump carries a value: its control is a TESTSET. */
  ghost predicate Valued(c: seq<Instr>, j: int) { 1 <= j <= |c| && c[j - 1].TESTSET? }

  /** The effect of patchlistaux on a list with elements `js`. */
  ghost function PatchAt(c: seq<Instr>, js: set<int>, vtarget: int, reg: Reg, dtarget: int, i: int): Instr
    requires 0 <= i < |c|
  {
    if i in js then JMP((if Valued(c, i) then vtarget else dtarget) - (i + 1))
    else if i + 1 in js && c[i].TESTSET? then
      if reg != NO_REG && reg != c[i].b then TESTSET(reg, c[i].b, c[i].c) else TEST(c[i].b, c[i].c)
    else c[i]
  }

  ghost function Patch(c: seq<Instr>, js: set<int>, vtarget: int, reg: Reg, dtarget: int): (r: seq<Instr>)
    ensures |r| == |c|
    ensures forall i :: 0 <= i < |c| ==> r[i] == PatchAt(c, js, vtarget, reg, dtarget, i)
  {
    seq(|c|, i requires 0 <= i < |c| => PatchAt(c, js, vtarget, reg, dtarget, i))
  }

  // ---------------------------------------------------------------- meaning of descriptors

  /** How far an expression has got: it still stands for a value, or its truth was tested
      and control falls through exactly when it is `b`, or both operands are at hand. */
  datatype Stage = Val(k: Kind) | Cond(b: bool) | Oper(op: BinOp, k1: Kind, k2: Kind)

  /** Instructions at the end of the code that belong to the descriptor: a load whose
      destination is open, or a comparison with its jump. */
  ghost function Suffix(st: Stage): nat {
    if st.Val? && st.k.VRELOCABLE? then 1 else if st.Val? && st.k.VJMP? then 2 else 0
  }

  /** A constant or a register: what RK operands are made of. */
  ghost predicate OperandOk(p: Prog, k: Kind) {
    match k
    case VK(i) => i < |p.k|
    case VNONRELOC(r) => r < 250
    case VKNUM(_) => true
    case _ => false
  }

  ghost function OperandVal(p: Prog, k: Kind, r: Regs): Value
    requires OperandOk(p, k)
  {
    match k
    case VK(i) => p.k[i]
    case VNONRELOC(x) => r[x]
    case VKNUM(n) => Num(n)
  }

  ghost predicate StageOk(p: Prog, st: Stage) {
    match st
    case Cond(_) => true
    case Oper(op, k1, k2) =>
      !op.AND? && !op.OR? && OperandOk(p, k1) && OperandOk(p, k2)
    case Val(k) =>
      match k
      case VK(i) => i < |p.k|
      case VLOCAL(r) => r < 250
      case VNONRELOC(r) => r < 250
      case VGLOBAL(i) => i < |p.k| && p.k[i].Str?
      case VRELOCABLE(i) => i + 1 == |p.c| && p.c[i].IsLoad() && LoadOk(p.k, p.c[i])
      case VJMP(j) => 1 <= j && j + 1 == |p.c| && p.c[j - 1].CMP? && TestOk(p.k, p.c[j - 1]) && p.c[j] == JMP(NO_JUMP)
      case _ => true
  }

  ghost function Base(p: Prog, st: Stage): Prog
    requires StageOk(p, st)
  {
    p.(c := p.c[..|p.c| - Suffix(st)])
  }

  ghost function ValueOf(S: Sem, p: Prog, k: Kind, r: Regs): Result<Value>
    requires StageOk(p, Val(k))
  {
    match k
    case VNIL => Ok(Nil)
    case VTRUE => Ok(Bool(true))
    case VFALSE => Ok(Bool(false))
    case VK(i) => Ok(p.k[i])
    case VKNUM(n) => Ok(Num(n))
    case VLOCAL(x) => Ok(r[x])
    case VUPVAL(u) => Ok(S.upval(u))
    case VGLOBAL(i) => S.global(p.k[i].s)
    case VRELOCABLE(i) => LoadVal(S, p.k, p.c[i], r)
    case VJMP(j) => var t := TestVal(S, p.k, p.c[j - 1], r); if t.Err? then Err(t.error) else Ok(Bool(t.value))
    case VNONRELOC(x) => Ok(r[x])
  }

  /** Compilation of `src` began with code `p0`, jumps `here0` pending to its end and `free0`
      the first free register; the function has `np` parameters. */
  datatype Goal = Goal(S: Sem, np: nat, p0: Prog, here0: set<int>, free0: nat, src: Expr)

  /** On entry to a function every register but the parameters is nil. */
  ghost predicate Clean(np: nat, r: Regs) { forall i :: np <= i < 256 ==> r[i] == Nil }

  ghost predicate AtEnd(o: Outcome, here: set<int>) {
    o.Fall? || (o.Exit? && o.j in here)
  }

  ghost predicate Agree(r0: Regs, r: Regs, n: nat) {
    forall i :: 0 <= i < n && i < 256 ==> r[i] == r0[i]
  }

  ghost predicate FallGood(g: Goal, p: Prog, st: Stage, r0: Regs, r: Regs)
    requires StageOk(p, st)
  {
    && Agree(r0, r, g.free0)
    && var v := Eval(g.S, g.src, r0);
       match st
       case Val(k) => ValueOf(g.S, p, k, r) == v
       case Cond(b) => v.Ok? && Truthy(v.value) == b
       case Oper(op, k1, k2) => BinaryOn(g.S, op, OperandVal(p, k1, r), OperandVal(p, k2, r)) == v
  }

  /** A jump taken by a TESTSET leaves with the value in its register, any other jump of
      the true (false) list leaves for the value true (false). */
  ghost predicate ExitGood(g: Goal, c: seq<Instr>, ts: set<int>, fs: set<int>, r0: Regs, j: int, via: bool, r: Regs) {
    && (j in ts || j in fs)
    && 0 <= j < |c|
    && via == Controlled(c, j)
    && Agree(r0, r, g.free0)
    && var v := Eval(g.S, g.src, r0);
       v.Ok? && Truthy(v.value) == (j in ts) &&
       v.value == if Valued(c, j) then r[c[j - 1].b] else Bool(j in ts)
  }

  ghost predicate Good(g: Goal, p: Prog, here: set<int>, st: Stage, ts: set<int>, fs: set<int>, r0: Regs, o: Outcome)
    requires StageOk(p, st)
  {
    match o
    case Error(x) => Eval(g.S, g.src, r0) == Err(x)
    case Halt(_) => false
    case Fall(r) => FallGood(g, p, st, r0, r)
    case Exit(j, via, r) => if j in here then FallGood(g, p, st, r0, r) else ExitGood(g, p.c, ts, fs, r0, j, via, r)
  }

  ghost predicate Follow(g: Goal, p: Prog, here: set<int>, st: Stage, ts: set<int>, fs: set<int>, o: Outcome, o1: Outcome)
    requires StageOk(p, st)
  {
    if AtEnd(o, g.here0) then Good(g, p, here, st, ts, fs, o.regs, o1) else o1 == o
  }

  /** The contract of the code generator.  Every run of the code compiled so far, from
      function entry, that got to the point where `src` begins goes on to compute `src`;
      every other run is untouched. */
  ghost predicate Described(g: Goal, p: Prog, here: set<int>, st: Stage, ts: set<int>, fs: set<int>) {
    && StageOk(p, st)
    && forall init, o {:trigger Reaches(g.S, g.p0, 0, init, o)} ::
         Clean(g.np, init) && Reaches(g.S, g.p0, 0, init, o) ==>
         exists o1 :: Reaches(g.S, Base(p, st), 0, init, o1) && Follow(g, p, here, st, ts, fs, o, o1)
  }

  // ---------------------------------------------------------------- carrying it forward

  lemma {:induction false} RunExits(S: Sem, p: Prog, n: nat, pc: int, r: Regs, o: Outcome)
    requires Run(S, p, n, pc, r, o) && o.Exit?
    ensures o.j in p.pend && 0 <= o.j < |p.c| && p.c[o.j].JMP?
  {
    if pc != |p.c| {
      match Step(S, p, pc, r)
      case Goto(q, r') => RunExits(S, p, n - 1, q, r', o);
      case Stop(_) =>
      case Stuck =>
    }
  }

  /** `o1`, reached in `p`, becomes `o2` in `q`. */
  ghost predicate Becomes(S: Sem, p: Prog, q: Prog, o1: Outcome, o2: Outcome) {
    match o1
    case Fall(r) => Reaches(S, q, |p.c|, r, o2)
    case Exit(j, via, r) =>
      if j in q.pend then o2 == o1
      else 0 <= j < |q.c| && q.c[j].JMP? ==> Reaches(S, q, TargetOf(q, j), LandAt(q, j, via, r), o2)
    case _ => o2 == o1
  }

  ghost predicate Carries(g: Goal, p: Prog, here: set<int>, st: Stage, ts: set<int>, fs: set<int>,
                          g': Goal, p': Prog, here': set<int>, st': Stage, ts': set<int>, fs': set<int>, r0: Regs, o1: Outcome)
    requires StageOk(p, st) && StageOk(p', st')
  {
    exists o2 :: Becomes(g.S, Base(p, st), Base(p', st'), o1, o2) && Good(g', p', here', st', ts', fs', r0, o2)
  }

  /** The one induction-free step behind every transformation below: if the new code
      continues the old one and every good way to stop in the old code carries over to a good
      way to stop in the new code, the new code is described. */
  lemma Transform(g: Goal, p: Prog, here: set<int>, st: Stage, ts: set<int>, fs: set<int>,
                  g': Goal, p': Prog, here': set<int>, st': Stage, ts': set<int>, fs': set<int>)
    requires g' == g.(src := g'.src)
    requires Described(g, p, here, st, ts, fs)
    requires StageOk(p', st')
    requires Continues(Base(p, st), Base(p', st'))
    requires g.p0.pend - g.here0 <= p'.pend
    requires forall r0, o1 {:trigger Good(g, p, here, st, ts, fs, r0, o1)} :: Good(g, p, here, st, ts, fs, r0, o1) ==>
               Carries(g, p, here, st, ts, fs, g', p', here', st', ts', fs', r0, o1)
    ensures Described(g', p', here', st', ts', fs')
  {
    var b, b' := Base(p, st), Base(p', st');
    forall init, o | Clean(g.np, init) && Reaches(g.S, g.p0, 0, init, o)
      ensures exists o2 :: Reaches(g.S, b', 0, init, o2) && Follow(g', p', here', st', ts', fs', o, o2)
    {
      var o1 :| Reaches(g.S, b, 0, init, o1) && Follow(g, p, here, st, ts, fs, o, o1);
      var n: nat :| Run(g.S, b, n, 0, init, o1);
      var o2;
      if AtEnd(o, g.here0) {
        assert Good(g, p, here, st, ts, fs, o.regs, o1);
        o2 :| Becomes(g.S, b, b', o1, o2) && Good(g', p', here', st', ts', fs', o.regs, o2);
      } else {
        o2 := o;
        if o.Exit? {
          var m: nat :| Run(g.S, g.p0, m, 0, init, o);
          RunExits(g.S, g.p0, m, 0, init, o);
        }
      }
      Simulate(g.S, b, b', n, 0, init, o1, o2);
      assert Follow(g', p', here', st', ts', fs', o, o2);
    }
  }

  ghost predicate Onward(S: Sem, n: int, g': Goal, p': Prog, here': set<int>, st': Stage, ts': set<int>, fs': set<int>, r0: Regs, r: Regs)
    requires StageOk(p', st')
  {
    exists o2 :: Reaches(S, Base(p', st'), n, r, o2) && Good(g', p', here', st', ts', fs', r0, o2)
  }

  ghost predicate Pending(p: Prog, js: set<int>) {
    forall j :: j in js ==> j in p.pend && 0 <= j < |p.c| && p.c[j].JMP?
  }

  /** `q` continues `p` and its jumps `here` now lead to the first new instruction. */
  ghost predicate Discharged(p: Prog, here: set<int>, q: Prog) {
    && Continues(p, q)
    && (forall j :: j in here && 0 <= j < |p.c| ==> j !in q.pend && q.c[j] == JMP(|p.c| - (j + 1)) && !Valued(q.c, j))
    && (forall j :: j < |p.c| && j in p.pend && j !in here ==> j in q.pend)
  }

  lemma PatchDischarges(p: Prog, here: set<int>, q: Prog, tail: seq<Instr>)
    requires Pending(p, here)
    requires q.c == Patch(p.c, here, |p.c|, NO_REG, |p.c|) + tail && p.k <= q.k
    requires forall j :: j < |p.c| ==> (j in q.pend <==> j in p.pend - here)
    ensures Discharged(p, here, q)
  {
    var n := |p.c|;
    forall i | 0 <= i < n ensures SameAt(p, q, i) && q.c[i] == PatchAt(p.c, here, n, NO_REG, n, i) { }
    forall j | j in here && 1 <= j < n ensures !Valued(q.c, j) {
      assert q.c[j - 1] == PatchAt(p.c, here, n, NO_REG, n, j - 1);
    }
  }

  /** Emitting code: the jumps pending to the end of the code are discharged to the first
      new instruction, and only what happens from there on is left to show. */
  lemma Append(g: Goal, p: Prog, here: set<int>, st: Stage, ts: set<int>, fs: set<int>,
               g': Goal, p': Prog, here': set<int>, st': Stage, ts': set<int>, fs': set<int>)
    requires g' == g.(src := g'.src)
    requires Described(g, p, here, st, ts, fs)
    requires StageOk(p', st')
    requires Pending(Base(p, st), here) && Discharged(Base(p, st), here, Base(p', st'))
    requires g.p0.pend - g.here0 <= p'.pend
    requires forall r0, r {:trigger FallGood(g, p, st, r0, r)} :: FallGood(g, p, st, r0, r) ==>
               Onward(g.S, |Base(p, st).c|, g', p', here', st', ts', fs', r0, r)
    requires forall r0, j, via, r {:trigger ExitGood(g, p.c, ts, fs, r0, j, via, r)} ::
               ExitGood(g, p.c, ts, fs, r0, j, via, r) && j !in here ==>
               j in p'.pend && Good(g', p', here', st', ts', fs', r0, Exit(j, via, r))
    requires forall r0, x :: Eval(g.S, g.src, r0) == Err(x) ==> Eval(g.S, g'.src, r0) == Err(x)
    ensures Described(g', p', here', st', ts', fs')
  {
    var b, b' := Base(p, st), Base(p', st');
    var n := |b.c|;
    forall r0, o1 | Good(g, p, here, st, ts, fs, r0, o1)
      ensures Carries(g, p, here, st, ts, fs, g', p', here', st', ts', fs', r0, o1)
    {
      match o1
      case Error(_) => assert Becomes(g.S, b, b', o1, o1);
      case Fall(r) =>
        assert FallGood(g, p, st, r0, r);
        assert Onward(g.S, n, g', p', here', st', ts', fs', r0, r);
      case Exit(j, via, r) =>
        if j in here {
          assert FallGood(g, p, st, r0, r);
          var o2 :| Reaches(g.S, b', n, r, o2) && Good(g', p', here', st', ts', fs', r0, o2);
          assert LandAt(b', j, via, r) == r;
          assert Becomes(g.S, b, b', o1, o2);
        } else {
          assert ExitGood(g, p.c, ts, fs, r0, j, via, r);
          assert Becomes(g.S, b, b', o1, o1);
        }
      case Halt(_) =>
    }
    Transform(g, p, here, st, ts, fs, g', p', here', st', ts', fs');
  }

  /** No new code: relinked lists, more constants, or another reading of the same code. */
  lemma Relabel(g: Goal, p: Prog, here: set<int>, st: Stage, ts: set<int>, fs: set<int>,
                g': Goal, p': Prog, here': set<int>, st': Stage, ts': set<int>, fs': set<int>)
    requires g' == g.(src := g'.src)
    requires Described(g, p, here, st, ts, fs)
    requires StageOk(p', st')
    requires var b, b' := Base(p, st), Base(p', st');
             Continues(b, b') && |b.c| == |b'.c| && b.pend <= b'.pend
    requires g.p0.pend - g.here0 <= p'.pend
    requires forall r0, o1 {:trigger Good(g, p, here, st, ts, fs, r0, o1)} ::
               Good(g, p, here, st, ts, fs, r0, o1) && (o1.Exit? ==> o1.j in p.pend) ==>
               Good(g', p', here', st', ts', fs', r0, o1)
    requires Pending(p, here + ts + fs)
    ensures Described(g', p', here', st', ts', fs')
  {
    var b, b' := Base(p, st), Base(p', st');
    forall r0, o1 | Good(g, p, here, st, ts, fs, r0, o1)
      ensures Carries(g, p, here, st, ts, fs, g', p', here', st', ts', fs', r0, o1)
    {
      if o1.Fall? { ReachesEnd(g.S, b', o1.regs); }
      assert Becomes(g.S, b, b', o1, o1);
    }
    Transform(g, p, here, st, ts, fs, g', p', here', st', ts', fs');
  }

  /** The effect of removevalues: the tests of `js` keep their condition and lose their value. */
  ghost function StripAt(c: seq<Instr>, js: set<int>, i: int): Instr
    requires 0 <= i < |c|
  {
    if i + 1 in js && c[i].TESTSET? then TEST(c[i].b, c[i].c) else c[i]
  }
}
