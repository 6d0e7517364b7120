/** Source expressions, their meaning, and the part of the Lua 5.1 virtual machine
    that executes compiled expressions. */
module Vm {

  datatype Result<+T> = Ok(value: T) | Err(error: int)

  datatype Value = Nil | Bool(b: bool) | Num(n: real) | Str(s: string) | Obj(id: int)

  ghost predicate Truthy(v: Value) {
    v != Nil && v != Bool(false)
  }

  datatype ArithOp = ADD | SUB | MUL | DIV | MOD | POW | UNM | LEN
  datatype CmpOp = EQ | LT | LE

  /** The run-time environment.  Number arithmetic, metamethod dispatch, comparison and
      global lookup are left uninterpreted; a call may raise an error. */
  datatype Sem = Sem(
    num: (ArithOp, real, real) -> real,
    isNaN: real -> bool,
    meta: (ArithOp, Value, Value) -> Result<Value>,
    cmp: (CmpOp, Value, Value) -> Result<bool>,
    upval: nat -> Value,
    global: string -> Result<Value>)
  {
    // Negation only produces NaN from NaN.
    ghost predicate Sane() {
      forall x {:trigger num(UNM, x, 0.0)} :: isNaN(num(UNM, x, 0.0)) ==> isNaN(x)
    }
  }

  /** A binary or unary operation on values: numbers take the fast path. */
  ghost function Arith(S: Sem, op: ArithOp, a: Value, b: Value): Result<Value> {
    if op == LEN then S.meta(LEN, a, Nil)
    else if op == UNM then
      if a.Num? then Ok(Num(S.num(UNM, a.n, 0.0))) else S.meta(UNM, a, a)
    else if a.Num? && b.Num? then Ok(Num(S.num(op, a.n, b.n)))
    else S.meta(op, a, b)
  }

  // ---------------------------------------------------------------- source language

  datatype UnOp = MINUS | NOT | LENGTH
  datatype BinOp = BArith(op: ArithOp) | BNE | BEQ | BLT | BLE | BGT | BGE | AND | OR

  datatype Expr =
    | Const(v: Value)
    | Local(r: nat)
    | Upval(i: nat)
    | Global(name: string)
    | Unary(uop: UnOp, arg: Expr)
    | Binary(bop: BinOp, left: Expr, right: Expr)

  /** Lua's comparison `op` (section 2.5.2 of the Lua 5.1 Reference Manual): `a > b` is
      `b < a`, `a >= b` is `b <= a`, `~=` negates `==`. */
  ghost function Compare(S: Sem, op: BinOp, a: Value, b: Value): Result<Value>
    requires !op.BArith? && !op.AND? && !op.OR?
  {
    var r := match op
      case BEQ => S.cmp(EQ, a, b)
      case BNE => S.cmp(EQ, a, b)
      case BLT => S.cmp(LT, a, b)
      case BLE => S.cmp(LE, a, b)
      case BGT => S.cmp(LT, b, a)
      case BGE => S.cmp(LE, b, a);
    if r.Err? then Err(r.error) else Ok(Bool(if op == BNE then !r.value else r.value))
  }

  /** The meaning of an expression, strictly left to right. */
  ghost function Eval(S: Sem, e: Expr, regs: Regs): Result<Value> {
    match e
    case Const(v) => Ok(v)
    case Local(r) => if r < REGS then Ok(regs[r]) else Err(0)
    case Upval(i) => Ok(S.upval(i))
    case Global(name) => S.global(name)
    case Unary(op, a) =>
      var x := Eval(S, a, regs);
      if x.Err? then x else UnaryOn(S, op, x.value)
    case Binary(op, a, b) =>
      var x := Eval(S, a, regs);
      if x.Err? then x
      else if op.AND? then (if Truthy(x.value) then Eval(S, b, regs) else x)
      else if op.OR? then (if Truthy(x.value) then x else Eval(S, b, regs))
      else
        var y := Eval(S, b, regs);
        if y.Err? then y else BinaryOn(S, op, x.value, y.value)
  }

  ghost function UnaryOn(S: Sem, op: UnOp, x: Value): Result<Value> {
    match op
    case MINUS => Arith(S, UNM, x, Num(0.0))
    case NOT => Ok(Bool(!Truthy(x)))
    case LENGTH => Arith(S, LEN, x, Num(0.0))
  }

  ghost function BinaryOn(S: Sem, op: BinOp, x: Value, y: Value): Result<Value>
    requires !op.AND? && !op.OR?
  {
    if op.BArith? then Arith(S, op.op, x, y) else Compare(S, op, x, y)
  }

  /** What the parser may hand to the code generator: known locals, numerals that are not
      NaN, and binary arithmetic operators only in binary position. */
  ghost predicate WellFormed(S: Sem, nactvar: nat, e: Expr) {
    match e
    case Const(v) => !v.Obj? && (v.Num? ==> !S.isNaN(v.n))
    case Local(r) => r < nactvar
    case Upval(_) => true
    case Global(_) => true
    case Unary(_, a) => WellFormed(S, nactvar, a)
    case Binary(op, a, b) =>
      (op.BArith? ==> op.op != UNM && op.op != LEN) &&
      WellFormed(S, nactvar, a) && WellFormed(S, nactvar, b)
  }

  // ---------------------------------------------------------------- target machine

  const REGS: nat := 256
  const BITRK: nat := 256
  type Reg = n: nat | n < 256
  type RK = n: nat | n < 512
  type Regs = r: seq<Value> | |r| == 256 ghost witness seq(256, _ => Nil)

  datatype Instr =
    | MOVE(a: Reg, b: Reg)
    | LOADK(a: Reg, bx: nat)
    | LOADBOOL(a: Reg, val: bool, skip: bool)
    | LOADNIL(a: Reg, to: Reg)
    | GETUPVAL(a: Reg, up: nat)
    | GETGLOBAL(a: Reg, bx: nat)
    | ARITH(op: ArithOp, a: Reg, rb: RK, rc: RK)
    | NOTOP(a: Reg, b: Reg)
    | JMP(sbx: int)
    | CMP(cmp: CmpOp, want: bool, rb: RK, rc: RK)
    | TEST(a: Reg, c: bool)
    | TESTSET(a: Reg, b: Reg, c: bool)
    | RETURN(a: Reg, nret: nat)
  {
    /** testTMode: the next instruction is a jump taken or skipped by this one. */
    predicate IsTest() { CMP? || TEST? || TESTSET? }
    /** Instructions whose only effect is to set register `a`. */
    predicate IsLoad() { MOVE? || LOADK? || GETUPVAL? || GETGLOBAL? || ARITH? || NOTOP? || (LOADBOOL? && !skip) }
    function WithA(r: Reg): Instr
      requires IsLoad()
    {
      match this
      case MOVE(_, b) => MOVE(r, b)
      case LOADK(_, bx) => LOADK(r, bx)
      case LOADBOOL(_, v, s) => LOADBOOL(r, v, s)
      case GETUPVAL(_, u) => GETUPVAL(r, u)
      case GETGLOBAL(_, bx) => GETGLOBAL(r, bx)
      case ARITH(op, _, b, c) => ARITH(op, r, b, c)
      case NOTOP(_, b) => NOTOP(r, b)
    }
  }

  /** Code with its constants and its pending jumps: JMPs whose target is not known yet. */
  datatype Prog = Prog(c: seq<Instr>, k: seq<Value>, pend: set<int>)

  /** How a run of (possibly unfinished) code ends: past its last instruction, through a
      pending jump (`via` tells whether a test took it), with an error, or by RETURN. */
  datatype Outcome =
    | Fall(regs: Regs)
    | Exit(j: int, via: bool, regs: Regs)
    | Error(err: int)
    | Halt(v: Value)

  datatype Next = Goto(pc: int, regs: Regs) | Stop(o: Outcome) | Stuck

  /** RK(x): a constant when the high bit is set, otherwise a register. */
  ghost function RKVal(k: seq<Value>, x: RK, r: Regs): Value {
    if x >= BITRK then (if x - BITRK < |k| then k[x - BITRK] else Nil) else r[x]
  }

  ghost predicate RKOk(k: seq<Value>, x: RK) { x >= BITRK ==> x - BITRK < |k| }

  ghost predicate LoadOk(k: seq<Value>, i: Instr)
    requires i.IsLoad()
  {
    match i
    case LOADK(_, bx) => bx < |k|
    case GETGLOBAL(_, bx) => bx < |k| && k[bx].Str?
    case ARITH(_, _, b, c) => RKOk(k, b) && RKOk(k, c)
    case _ => true
  }

  /** The value a load instruction puts in its register `a`. */
  ghost function LoadVal(S: Sem, k: seq<Value>, i: Instr, r: Regs): Result<Value>
    requires i.IsLoad() && LoadOk(k, i)
  {
    match i
    case MOVE(_, b) => Ok(r[b])
    case LOADK(_, bx) => Ok(k[bx])
    case LOADBOOL(_, v, _) => Ok(Bool(v))
    case GETUPVAL(_, u) => Ok(S.upval(u))
    case GETGLOBAL(_, bx) => S.global(k[bx].s)
    case ARITH(op, _, b, c) => Arith(S, op, RKVal(k, b, r), RKVal(k, c, r))
    case NOTOP(_, b) => Ok(Bool(!Truthy(r[b])))
  }

  ghost predicate TestOk(k: seq<Value>, i: Instr) {
    i.CMP? ==> RKOk(k, i.rb) && RKOk(k, i.rc)
  }

  /** Whether a test takes the jump that follows it. */
  ghost function TestVal(S: Sem, k: seq<Value>, i: Instr, r: Regs): Result<bool>
    requires i.IsTest() && TestOk(k, i)
  {
    match i
    case CMP(op, want, b, c) =>
      var x := S.cmp(op, RKVal(k, b, r), RKVal(k, c, r));
      if x.Err? then x else Ok(x.value == want)
    case TEST(a, c) => Ok(!Truthy(r[a]) != c)
    case TESTSET(_, b, c) => Ok(!Truthy(r[b]) != c)
  }

  /** Registers after a taken jump controlled by `i`. */
  ghost function Land(i: Instr, via: bool, r: Regs): Regs {
    if via && i.TESTSET? then r[i.a := r[i.b]] else r
  }

  ghost function NilRange(r: Regs, from: nat, to: nat): (r': Regs)
    ensures forall x :: 0 <= x < 256 ==> r'[x] == if from <= x <= to then Nil else r[x]
  {
    seq(256, x requires 0 <= x < 256 => if from <= x <= to then Nil else r[x])
  }

  /** One machine step at `pc`. A test and its jump are one step, as in luaV_execute. */
  ghost function Step(S: Sem, p: Prog, pc: int, r: Regs): Next
    requires 0 <= pc < |p.c|
  {
    var i := p.c[pc];
    if i.IsTest() then
      if !(TestOk(p.k, i) && pc + 1 < |p.c| && p.c[pc + 1].JMP?) then Stuck
      else
        var t := TestVal(S, p.k, i, r);
        if t.Err? then Stop(Error(t.error))
        else if !t.value then Goto(pc + 2, r)
        else if pc + 1 in p.pend then Stop(Exit(pc + 1, true, r))
        else Goto(pc + 2 + p.c[pc + 1].sbx, Land(i, true, r))
    else if i.JMP? then
      if pc in p.pend then Stop(Exit(pc, false, r)) else Goto(pc + 1 + i.sbx, r)
    else if i.LOADNIL? then
      // the loop runs at least once, from `to` down to `a`
      if i.a <= i.to then Goto(pc + 1, NilRange(r, i.a, i.to)) else Stuck
    else if i.LOADBOOL? then
      Goto(if i.skip then pc + 2 else pc + 1, r[i.a := Bool(i.val)])
    else if i.RETURN? then
      if i.nret == 2 then Stop(Halt(r[i.a])) else Stuck
    else if !LoadOk(p.k, i) then Stuck
    else
      var v := LoadVal(S, p.k, i, r);
      if v.Err? then Stop(Error(v.error)) else Goto(pc + 1, r[i.a := v.value])
  }

  /** `o` is where a run of at most `n` steps from `pc` ends. */
  ghost predicate Run(S: Sem, p: Prog, n: nat, pc: int, r: Regs, o: Outcome) {
    if pc == |p.c| then o == Fall(r)
    else if n == 0 || pc < 0 || pc > |p.c| then false
    else
      match Step(S, p, pc, r)
      case Goto(q, r') => Run(S, p, n - 1, q, r', o)
      case Stop(o') => o == o'
      case Stuck => false
  }

  /** A run of the code from `pc` with registers `r` ends with `o`. */
  ghost predicate Reaches(S: Sem, p: Prog, pc: int, r: Regs, o: Outcome) {
    exists n: nat :: Run(S, p, n, pc, r, o)
  }
}
