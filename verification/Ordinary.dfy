/** The ordinary environment, where numbers are computed and compared as real numbers are, and
    what compiled expressions return there. */
module Ordinary {
  import opened Basics
  import opened Vm
  import opened Describe
  import opened CodeGenerator
  import opened CodeFacts

  /** The operations of real numbers. */
  function RealOp(op: ArithOp, x: real, y: real): Option<real> {
    match op
    case ADD => Some(x + y)
    case SUB => Some(x - y)
    case MUL => Some(x * y)
    case DIV => if y != 0.0 then Some(x / y) else None
    case UNM => Some(-x)
    case _ => None
  }

  predicate IsComparison(op: BinOp) { op in {BEQ, BNE, BLT, BLE, BGT, BGE} }

  /** What a comparison of two numbers is. */
  predicate Compares(op: BinOp, x: real, y: real)
    requires IsComparison(op)
  {
    match op
    case BEQ => x == y
    case BNE => x != y
    case BLT => x < y
    case BLE => x <= y
    case BGT => x > y
    case BGE => x >= y
  }

  ghost predicate RealNumbers(S: Sem) {
    && (forall x :: !S.isNaN(x))
    && (forall op, x, y :: RealOp(op, x, y).Some? ==> S.num(op, x, y) == RealOp(op, x, y).value)
  }

  ghost predicate RealOrder(S: Sem) {
    && (forall x, y :: S.cmp(LT, Num(x), Num(y)) == Ok(x < y))
    && (forall x, y :: S.cmp(LE, Num(x), Num(y)) == Ok(x <= y))
    && (forall v: Value, w: Value :: !v.Obj? ==> S.cmp(EQ, v, w) == Ok(v == w))
  }

  ghost predicate Ordinary(S: Sem) {
    RealNumbers(S) && RealOrder(S) && forall s :: S.meta(LEN, Str(s), Nil) == Ok(Num(|s| as real))
  }

  function RealCmp(op: CmpOp, v: Value, w: Value): Result<bool> {
    if op == EQ then Ok(v == w)
    else if !v.Num? || !w.Num? then Err(0)
    else Ok(if op == LT then v.n < w.n else v.n <= w.n)
  }

  function RealNum(op: ArithOp, x: real, y: real): real {
    if RealOp(op, x, y).Some? then RealOp(op, x, y).value else 0.0
  }

  function Length(op: ArithOp, v: Value): Result<Value> {
    if op == LEN && v.Str? then Ok(Num(|v.s| as real)) else Err(0)
  }

  /** There is such an environment. */
  lemma OrdinaryExists() returns (S: Sem)
    ensures Ordinary(S) && S.Sane()
  {
    hide RealOp, RealNum, RealCmp, Length;
    S := Sem(
      (op: ArithOp, x: real, y: real) => RealNum(op, x, y),
      (x: real) => false,
      (op: ArithOp, v: Value, w: Value) => Length(op, v),
      (op: CmpOp, v: Value, w: Value) => RealCmp(op, v, w),
      (i: nat) => Nil,
      (name: string) => Ok(Nil));
    forall op, x, y ensures RealOp(op, x, y).Some? ==> S.num(op, x, y) == RealOp(op, x, y).value { RealNumIs(op, x, y); }
    forall v: Value, w: Value ensures S.cmp(EQ, v, w) == Ok(v == w) { RealCmpIs(v, w, 0.0, 0.0); }
    forall x, y ensures S.cmp(LT, Num(x), Num(y)) == Ok(x < y) && S.cmp(LE, Num(x), Num(y)) == Ok(x <= y) { RealCmpIs(Nil, Nil, x, y); }
    forall s ensures S.meta(LEN, Str(s), Nil) == Ok(Num(|s| as real)) { LengthIs(s); }
  }

  lemma RealNumIs(op: ArithOp, x: real, y: real)
    ensures RealOp(op, x, y).Some? ==> RealNum(op, x, y) == RealOp(op, x, y).value
  {
    hide RealOp;
  }

  lemma RealCmpIs(v: Value, w: Value, x: real, y: real)
    ensures RealCmp(EQ, v, w) == Ok(v == w)
    ensures RealCmp(LT, Num(x), Num(y)) == Ok(x < y) && RealCmp(LE, Num(x), Num(y)) == Ok(x <= y)
  {
  }

  lemma LengthIs(s: string)
    ensures Length(LEN, Str(s)) == Ok(Num(|s| as real))
  {
  }

  /** The value of an expression, for the operators and values that the manual gives a meaning
      without metamethods (sections 2.5.1 to 2.5.5 of the Lua 5.1 Reference Manual). */
  ghost function Calc(e: Expr, regs: Regs): Option<Value> {
    match e
    case Const(v) => Some(v)
    case Local(r) => if r < REGS then Some(regs[r]) else None
    case Unary(op, a) =>
      var v := Calc(a, regs);
      if v == None then None else CalcUnary(op, v.value)
    case Binary(AND, a, b) =>
      var v := Calc(a, regs);
      if v == None || v.value == Nil || v.value == Bool(false) then v else Calc(b, regs)
    case Binary(OR, a, b) =>
      var v := Calc(a, regs);
      if v == None then None else if v.value != Nil && v.value != Bool(false) then v else Calc(b, regs)
    case Binary(op, a, b) =>
      var v, w := Calc(a, regs), Calc(b, regs);
      if v == None || w == None then None else CalcBinary(op, v.value, w.value)
    case _ => None
  }

  ghost function CalcUnary(op: UnOp, v: Value): Option<Value> {
    match (op, v)
    case (MINUS, Num(x)) => Some(Num(-x))
    case (NOT, _) => Some(Bool(v == Nil || v == Bool(false)))
    case (LENGTH, Str(s)) => Some(Num(|s| as real))
    case _ => None
  }

  ghost function CalcBinary(op: BinOp, v: Value, w: Value): Option<Value> {
    if v.Num? && w.Num? then
      if op.BArith? then (var r := RealOp(op.op, v.n, w.n); if r.Some? then Some(Num(r.value)) else None)
      else if IsComparison(op) then Some(Bool(Compares(op, v.n, w.n)))
      else None
    else if op == BEQ && !v.Obj? then Some(Bool(v == w))
    else if op == BNE && !v.Obj? then Some(Bool(v != w))
    else None
  }

  lemma CalcUnaryRight(S: Sem, op: UnOp, v: Value)
    requires Ordinary(S) && CalcUnary(op, v).Some?
    ensures UnaryOn(S, op, v) == Ok(CalcUnary(op, v).value)
  {
    hide RealOrder;
    if v.Num? { assert RealOp(UNM, v.n, 0.0) == Some(-v.n); }
  }

  lemma CalcCompareRight(S: Sem, op: BinOp, v: Value, w: Value)
    requires RealOrder(S) && CalcBinary(op, v, w).Some? && IsComparison(op)
    ensures BinaryOn(S, op, v, w) == Ok(CalcBinary(op, v, w).value)
  {
    hide RealOp;
  }

  lemma CalcBinaryRight(S: Sem, op: BinOp, v: Value, w: Value)
    requires Ordinary(S) && CalcBinary(op, v, w).Some? && !op.AND? && !op.OR? && op != BArith(UNM) && op != BArith(LEN)
    ensures BinaryOn(S, op, v, w) == Ok(CalcBinary(op, v, w).value)
  {
    hide RealOrder, RealOp;
    if IsComparison(op) { CalcCompareRight(S, op, v, w); }
  }

  lemma {:induction false} CalcRight(S: Sem, nactvar: nat, e: Expr, regs: Regs)
    requires Ordinary(S) && WellFormed(S, nactvar, e) && Calc(e, regs).Some?
    ensures Eval(S, e, regs) == Ok(Calc(e, regs).value)
  {
    hide Ordinary;
    match e
    case Unary(op, a) =>
      CalcRight(S, nactvar, a, regs);
      CalcUnaryRight(S, op, Calc(a, regs).value);
    case Binary(op, a, b) =>
      CalcRight(S, nactvar, a, regs);
      var v := Calc(a, regs).value;
      if op.AND? || op.OR? {
        if op.AND? == Truthy(v) { CalcRight(S, nactvar, b, regs); }
      } else {
        CalcRight(S, nactvar, b, regs);
        CalcBinaryRight(S, op, v, Calc(b, regs).value);
      }
    case _ =>
  }

  /** Compiled code computes: wherever the manual gives the expression a value, the code of
      `return src` returns it. */
  method CompileOrdinary(S: Sem, nparams: nat, src: Expr) returns (st: Status, code: seq<Instr>, k: seq<Value>)
    requires Ordinary(S) && nparams < MAXSTACK && WellFormed(S, nparams, src)
    ensures st.Done? ==> forall init {:trigger Clean(nparams, init)} :: Clean(nparams, init) && Calc(src, init).Some? ==>
              Reaches(S, Prog(code, k, {}), 0, init, Halt(Calc(src, init).value))
    ensures st.Failed? ==> |code| > MAXARG_sBx || |k| >= MAXARG_Bx || nparams + Depth(src) + 1 >= MAXSTACK
    ensures |code| <= 40 * Size(src) + 7 && |k| <= 40 * Size(src) + 7
  {
    st, code, k := CompileReturn(S, nparams, src);
    forall init | Clean(nparams, init) && Calc(src, init).Some? ensures Eval(S, src, init) == Ok(Calc(src, init).value) { CalcRight(S, nparams, src, init); }
  }

  /** `return x op y` is always compiled, and returns whether `x op y`: of two numerals, and of two
      parameters whatever numbers they are. */
  method CompileComparison(S: Sem, op: BinOp, x: real, y: real) returns (code: seq<Instr>, k: seq<Value>, code': seq<Instr>, k': seq<Value>)
    requires Ordinary(S) && IsComparison(op)
    ensures forall init :: Clean(0, init) ==> Reaches(S, Prog(code, k, {}), 0, init, Halt(Bool(Compares(op, x, y))))
    ensures forall init: Regs :: Clean(2, init) && init[0].Num? && init[1].Num? ==>
              Reaches(S, Prog(code', k', {}), 0, init, Halt(Bool(Compares(op, init[0].n, init[1].n))))
  {
    hide Ordinary, Calc, WellFormed, Reaches, Compares, Size, Depth;
    var numerals, parameters := Binary(op, Const(Num(x)), Const(Num(y))), Binary(op, Local(0), Local(1));
    var st, st';
    ComparisonSmall(S, op, Const(Num(x)), Const(Num(y)), 0);
    st, code, k := CompileOrdinary(S, 0, numerals);
    forall init: Regs ensures Calc(numerals, init) == Some(Bool(Compares(op, x, y))) { ComparisonCalc(op, Const(Num(x)), Const(Num(y)), init); }
    ComparisonSmall(S, op, Local(0), Local(1), 2);
    st', code', k' := CompileOrdinary(S, 2, parameters);
    forall init: Regs | init[0].Num? && init[1].Num?
      ensures Calc(parameters, init) == Some(Bool(Compares(op, init[0].n, init[1].n)))
    {
      ComparisonCalc(op, Local(0), Local(1), init);
    }
  }

  lemma ComparisonSmall(S: Sem, op: BinOp, a: Expr, b: Expr, n: nat)
    requires Ordinary(S) && IsComparison(op) && ((a.Const? && b.Const? && a.v.Num? && b.v.Num?) || (a == Local(0) && b == Local(1) && n == 2))
    ensures var e := Binary(op, a, b); WellFormed(S, n, e) && Size(e) == 3 && Depth(e) == 3
  {
    hide RealOp, RealOrder;
  }

  lemma ComparisonCalc(op: BinOp, a: Expr, b: Expr, regs: Regs)
    requires IsComparison(op)
    ensures a.Const? && b.Const? && a.v.Num? && b.v.Num? ==>
      Calc(Binary(op, a, b), regs) == Some(Bool(Compares(op, a.v.n, b.v.n)))
    ensures a == Local(0) && b == Local(1) && regs[0].Num? && regs[1].Num? ==>
      Calc(Binary(op, a, b), regs) == Some(Bool(Compares(op, regs[0].n, regs[1].n)))
  {
  }

  /** In any environment `a > b` is `b < a`, and `a >= b` is `b <= a`, when neither operand raises
      an error; with an error, it is that of the operand that is computed first. */
  lemma Exchanged(S: Sem, a: Expr, b: Expr, regs: Regs)
    requires Eval(S, a, regs).Ok? && Eval(S, b, regs).Ok?
    ensures Eval(S, Binary(BGT, a, b), regs) == Eval(S, Binary(BLT, b, a), regs)
    ensures Eval(S, Binary(BGE, a, b), regs) == Eval(S, Binary(BLE, b, a), regs)
  {
  }
}
