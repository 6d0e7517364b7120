/** Expressions with operators: the parser by precedence climbing, and the trees it builds. */
module Precedence {

  datatype Operator = Add | Sub | Mul | Div | Mod | Pow | Concat | Eq | Ne | Lt | Le | Gt | Ge | And | Or

  /** `Atom` stands for a literal, a name, or any other expression that starts and ends by
      itself; `Other` for any token that cannot be part of an expression.  A call, an index or a
      field access belongs to the atom it follows; token sequences hold no such suffix after an
      atom, nor after a group, so an `Open` only ever starts a group. */
  datatype Token = Atom(id: nat) | Open | Close | Op(op: Operator) | Not | Len | Other

  datatype Node = Leaf(id: nat) | Group(e: Node) | Unary(token: Token, arg: Node) | Binary(op: Operator, left: Node, right: Node)

  predicate IsUnaryOperator(t: Token) { t == Not || t == Len || t == Op(Sub) }

  predicate IsBinaryOperator(t: Token) { t.Op? }

  const UNARY_PRIORITY := 8
  const MAX_SYNTAX_LEVELS := 200

  function LeftPriority(op: Operator): nat {
    match op
    case Add => 6 case Sub => 6
    case Mul => 7 case Div => 7 case Mod => 7
    case Pow => 10
    case Concat => 5
    case Eq => 3 case Ne => 3 case Lt => 3 case Le => 3 case Gt => 3 case Ge => 3
    case And => 2
    case Or => 1
  }

  function RightPriority(op: Operator): nat {
    match op
    case Pow => 9
    case Concat => 4
    case _ => LeftPriority(op)
  }

  // ---------------------------------------------------------------- trees and their tokens

  function Flatten(e: Node): (ts: seq<Token>)
    ensures ts != []
  {
    match e
    case Leaf(id) => [Atom(id)]
    case Group(g) => [Open] + Flatten(g) + [Close]
    case Unary(t, a) => [t] + Flatten(a)
    case Binary(op, l, r) => Flatten(l) + [Op(op)] + Flatten(r)
  }

  /** The operators that nothing in `e` stands to the left of bind tighter than `limit`. */
  predicate LeftOk(e: Node, limit: nat) {
    match e
    case Binary(op, l, _) => LeftPriority(op) > limit && LeftOk(l, limit)
    case _ => true
  }

  /** An operator with left priority `p` after `e` takes all of `e` for its operand. */
  predicate RightOk(e: Node, p: nat) {
    match e
    case Binary(op, _, r) => p <= RightPriority(op) && RightOk(r, p)
    case Unary(_, a) => p <= UNARY_PRIORITY && RightOk(a, p)
    case _ => true
  }

  /** The tree respects the priorities: every operator has the operands that the rules of
      precedence and associativity give it. */
  predicate Respects(e: Node) {
    match e
    case Leaf(_) => true
    case Group(g) => Respects(g)
    case Unary(t, a) => IsUnaryOperator(t) && Respects(a) && LeftOk(a, UNARY_PRIORITY)
    case Binary(op, l, r) => Respects(l) && Respects(r) && RightOk(l, LeftPriority(op)) && LeftOk(r, RightPriority(op))
  }

  /** How many syntax levels it takes to parse the tree. */
  function Levels(e: Node): nat {
    match e
    case Leaf(_) => 1
    case Group(g) => 1 + Levels(g)
    case Unary(_, a) => 1 + Levels(a)
    case Binary(_, l, r) => if Levels(l) > 1 + Levels(r) then Levels(l) else 1 + Levels(r)
  }

  function First(ts: seq<Token>): Token { if ts == [] then Other else ts[0] }

  /** The operator that follows, if one does, does not take less than `e`. */
  predicate Follows(e: Node, ts: seq<Token>) {
    First(ts).Op? ==> RightOk(e, LeftPriority(First(ts).op))
  }

  predicate Stops(ts: seq<Token>, limit: nat) {
    First(ts).Op? ==> LeftPriority(First(ts).op) <= limit
  }

  // ---------------------------------------------------------------- what the parser computes

  datatype Error = UnexpectedSymbol | ExpectedDifferentToken | TooManySyntaxLevels
  datatype Result = Ok(e: Node, rest: seq<Token>) | Err(error: Error)

  /** simpleexp: an atom, or an expression in parentheses. */
  function Simple(ts: seq<Token>, level: int): (r: Result)
    ensures r.Ok? ==> |r.rest| < |ts|
    decreases |ts|, 0
  {
    match First(ts)
    case Atom(id) => Ok(Leaf(id), ts[1..])
    case Open =>
      (match SubExpr(ts[1..], 0, level)
       case Err(error) => Err(error)
       case Ok(e, rest) => if First(rest) == Close then Ok(Group(e), rest[1..]) else Err(ExpectedDifferentToken))
    case _ => Err(UnexpectedSymbol)
  }

  /** subexpr at a syntax level (the more levels are left, the deeper the trees it can build). */
  function SubExpr(ts: seq<Token>, limit: nat, level: int): (r: Result)
    ensures r.Ok? ==> |r.rest| < |ts|
    decreases |ts|, 1
  {
    if level + 1 > MAX_SYNTAX_LEVELS then Err(TooManySyntaxLevels)
    else
      var first := if IsUnaryOperator(First(ts)) then
          (match SubExpr(ts[1..], UNARY_PRIORITY, level + 1)
           case Err(error) => Err(error)
           case Ok(a, rest) => Ok(Unary(ts[0], a), rest))
        else Simple(ts, level + 1);
      match first
      case Err(error) => Err(error)
      case Ok(e, rest) => Climb(e, rest, limit, level)
  }

  /** The loop of subexpr: `e` takes the operators that follow it. */
  function Climb(e: Node, ts: seq<Token>, limit: nat, level: int): (r: Result)
    ensures r.Ok? ==> |r.rest| <= |ts|
    decreases |ts|, 2
  {
    if !First(ts).Op? || LeftPriority(First(ts).op) <= limit then Ok(e, ts)
    else
      match SubExpr(ts[1..], RightPriority(First(ts).op), level + 1)
      case Err(error) => Err(error)
      case Ok(right, rest) => Climb(Binary(First(ts).op, e, right), rest, limit, level)
  }

  /** The first operand, with its unary operator if it has one. */
  function Operand(ts: seq<Token>, level: int): (r: Result)
    ensures r.Ok? ==> |r.rest| < |ts|
  {
    if IsUnaryOperator(First(ts)) then
      (match SubExpr(ts[1..], UNARY_PRIORITY, level)
       case Err(error) => Err(error)
       case Ok(a, rest) => Ok(Unary(ts[0], a), rest))
    else Simple(ts, level)
  }

  lemma TooDeep(ts: seq<Token>, limit: nat, level: int)
    requires level >= MAX_SYNTAX_LEVELS
    ensures SubExpr(ts, limit, level) == Err(TooManySyntaxLevels)
  {
  }

  lemma Starts(ts: seq<Token>, limit: nat, level: int)
    requires level < MAX_SYNTAX_LEVELS
    ensures SubExpr(ts, limit, level) ==
      var first := Operand(ts, level + 1); if first.Err? then first else Climb(first.e, first.rest, limit, level)
  {
  }

  lemma Climbs(e: Node, ts: seq<Token>, limit: nat, level: int)
    requires First(ts).Op?
    ensures Climb(e, ts, limit, level) ==
      if LeftPriority(First(ts).op) <= limit then Ok(e, ts)
      else var right := SubExpr(ts[1..], RightPriority(First(ts).op), level + 1);
        if right.Err? then right else Climb(Binary(First(ts).op, e, right.e), right.rest, limit, level)
  {
  }

  // ---------------------------------------------------------------- exactness

  lemma LeafStep(id: nat, ts: seq<Token>, limit: nat, level: int)
    requires level < MAX_SYNTAX_LEVELS
    ensures SubExpr([Atom(id)] + ts, limit, level) == Climb(Leaf(id), ts, limit, level)
  {
    assert ([Atom(id)] + ts)[1..] == ts;
  }

  lemma GroupStep(ts: seq<Token>, limit: nat, level: int, g: Node, rest: seq<Token>)
    requires level < MAX_SYNTAX_LEVELS && SubExpr(ts, 0, level + 1) == Ok(g, [Close] + rest)
    ensures SubExpr([Open] + ts, limit, level) == Climb(Group(g), rest, limit, level)
  {
    assert ([Open] + ts)[1..] == ts && ([Close] + rest)[1..] == rest;
    assert Simple([Open] + ts, level + 1) == Ok(Group(g), rest);
  }

  lemma UnaryStep(t: Token, ts: seq<Token>, limit: nat, level: int, a: Node, rest: seq<Token>)
    requires level < MAX_SYNTAX_LEVELS && IsUnaryOperator(t) && SubExpr(ts, UNARY_PRIORITY, level + 1) == Ok(a, rest)
    ensures SubExpr([t] + ts, limit, level) == Climb(Unary(t, a), rest, limit, level)
  {
    assert ([t] + ts)[1..] == ts;
  }

  lemma BinaryStep(e: Node, op: Operator, ts: seq<Token>, limit: nat, level: int, r: Node, rest: seq<Token>)
    requires LeftPriority(op) > limit && SubExpr(ts, RightPriority(op), level + 1) == Ok(r, rest)
    ensures Climb(e, [Op(op)] + ts, limit, level) == Climb(Binary(op, e, r), rest, limit, level)
  {
    assert ([Op(op)] + ts)[1..] == ts;
  }

  lemma StopStep(e: Node, ts: seq<Token>, limit: nat, level: int)
    requires Stops(ts, limit)
    ensures Climb(e, ts, limit, level) == Ok(e, ts)
  {
  }

  /** A tree that respects the priorities is rebuilt from its tokens, and then takes part in
      what follows them. */
  lemma {:induction false} Rebuilt(e: Node, rest: seq<Token>, limit: nat, level: int)
    requires Respects(e) && LeftOk(e, limit) && Follows(e, rest) && level + Levels(e) <= MAX_SYNTAX_LEVELS
    ensures SubExpr(Flatten(e) + rest, limit, level) == Climb(e, rest, limit, level)
    decreases e
  {
    hide SubExpr, Climb, Simple;
    var ts := Flatten(e) + rest;
    match e {
      case Leaf(id) =>
        LeafStep(id, rest, limit, level);
      case Group(g) =>
        var inner := [Close] + rest;
        assert ts == [Open] + (Flatten(g) + inner);
        Weakest(g);
        Rebuilt(g, inner, 0, level + 1);
        StopStep(g, inner, 0, level + 1);
        GroupStep(Flatten(g) + inner, limit, level, g, rest);
      case Unary(t, a) =>
        assert ts == [t] + (Flatten(a) + rest);
        Rebuilt(a, rest, UNARY_PRIORITY, level + 1);
        StopStep(a, rest, UNARY_PRIORITY, level + 1);
        UnaryStep(t, Flatten(a) + rest, limit, level, a, rest);
      case Binary(op, l, r) =>
        var after := [Op(op)] + (Flatten(r) + rest);
        assert ts == Flatten(l) + after;
        Rebuilt(l, after, limit, level);
        Rebuilt(r, rest, RightPriority(op), level + 1);
        StopStep(r, rest, RightPriority(op), level + 1);
        BinaryStep(l, op, Flatten(r) + rest, limit, level, r, rest);
    }
  }

  lemma {:induction false} Weakest(e: Node)
    ensures LeftOk(e, 0)
    decreases e
  {
    if e.Binary? { Weakest(e.left); }
  }

  /** What a call of subexpr returns: a tree that respects the priorities, and flattens to the
      tokens consumed; the next operator is left for the caller. */
  ghost predicate Exact(ts: seq<Token>, limit: nat, level: int, e: Node, rest: seq<Token>) {
    && ts == Flatten(e) + rest && Respects(e) && LeftOk(e, limit) && level + Levels(e) <= MAX_SYNTAX_LEVELS
    && Follows(e, rest) && Stops(rest, limit)
  }

  lemma {:induction false} SimpleExact(ts: seq<Token>, level: int)
    requires level <= MAX_SYNTAX_LEVELS && Simple(ts, level).Ok?
    ensures var Ok(e, rest) := Simple(ts, level);
      ts == Flatten(e) + rest && Respects(e) && level - 1 + Levels(e) <= MAX_SYNTAX_LEVELS && (e.Leaf? || e.Group?)
    decreases |ts|, 0
  {
    if First(ts) == Open {
      assert ts == [Open] + ts[1..];
      SubExprExact(ts[1..], 0, level);
      var Ok(g, rest) := SubExpr(ts[1..], 0, level);
      assert rest == [Close] + rest[1..];
      assert ts == [Open] + (Flatten(g) + ([Close] + rest[1..])) == Flatten(Group(g)) + rest[1..];
    } else {
      assert ts == [ts[0]] + ts[1..];
    }
  }

  lemma BinaryFlat(op: Operator, l: Node, r: Node, rest: seq<Token>)
    ensures Flatten(Binary(op, l, r)) + rest == Flatten(l) + ([Op(op)] + (Flatten(r) + rest))
  {
  }

  lemma {:induction false} SubExprExact(ts: seq<Token>, limit: nat, level: int)
    requires SubExpr(ts, limit, level).Ok?
    ensures Exact(ts, limit, level, SubExpr(ts, limit, level).e, SubExpr(ts, limit, level).rest)
    decreases |ts|, 1
  {
    if IsUnaryOperator(First(ts)) {
      SubExprExact(ts[1..], UNARY_PRIORITY, level + 1);
      var Ok(a, rest) := SubExpr(ts[1..], UNARY_PRIORITY, level + 1);
      assert ts == [ts[0]] + (Flatten(a) + rest) == Flatten(Unary(ts[0], a)) + rest;
      ClimbExact(Unary(ts[0], a), rest, limit, level);
    } else {
      SimpleExact(ts, level + 1);
      var Ok(e, rest) := Simple(ts, level + 1);
      ClimbExact(e, rest, limit, level);
    }
  }

  lemma {:induction false} ClimbExact(e: Node, ts: seq<Token>, limit: nat, level: int)
    requires Climb(e, ts, limit, level).Ok? && Respects(e) && LeftOk(e, limit) && Follows(e, ts) && level + Levels(e) <= MAX_SYNTAX_LEVELS
    ensures Exact(Flatten(e) + ts, limit, level, Climb(e, ts, limit, level).e, Climb(e, ts, limit, level).rest)
    decreases |ts|, 2
  {
    if First(ts).Op? && LeftPriority(First(ts).op) > limit {
      var op := First(ts).op;
      SubExprExact(ts[1..], RightPriority(op), level + 1);
      var Ok(r, rest) := SubExpr(ts[1..], RightPriority(op), level + 1);
      var b := Binary(op, e, r);
      assert ts == [Op(op)] + ts[1..];
      BinaryFlat(op, e, r, rest);
      ClimbExact(b, rest, limit, level);
    }
  }

  /** The parser returns a tree exactly when it is the one: the tokens consumed are its tokens,
      it respects the priorities, and it is not nested too deeply. */
  lemma ParseExact(ts: seq<Token>, limit: nat, level: int, e: Node, rest: seq<Token>)
    ensures SubExpr(ts, limit, level) == Ok(e, rest) <==> Exact(ts, limit, level, e, rest)
  {
    if SubExpr(ts, limit, level) == Ok(e, rest) { SubExprExact(ts, limit, level); }
    if Exact(ts, limit, level, e, rest) { Rebuilt(e, rest, limit, level); }
  }

  /** No two trees that respect the priorities have the same tokens. */
  lemma Unambiguous(a: Node, b: Node)
    requires Respects(a) && Respects(b) && Flatten(a) == Flatten(b)
    ensures a == b
  {
    Weakest(a);
    Weakest(b);
    assert Flatten(a) + [] == Flatten(a) && Flatten(b) + [] == Flatten(b);
    var level := MAX_SYNTAX_LEVELS - Levels(a) - Levels(b);  // deep enough for both
    ParseExact(Flatten(a), 0, level, a, []);
    ParseExact(Flatten(b), 0, level, b, []);
  }

  // ---------------------------------------------------------------- the manual's table

  /** Section 2.5.6 of the Lua 5.1 Reference Manual: the operators from loosest to tightest, the
      unary operators having a row of their own. */
  const TABLE: seq<seq<Operator>> := [[Or], [And], [Lt, Gt, Le, Ge, Ne, Eq], [Concat], [Add, Sub], [Mul, Div, Mod], [], [Pow]]
  const UNARY_ROW := 6
  const RIGHT_ASSOCIATIVE := {Concat, Pow}

  ghost predicate InRow(a: Operator, i: nat) { i < |TABLE| && a in TABLE[i] }

  ghost predicate Tighter(a: Operator, b: Operator) {
    exists i: nat, j: nat :: i < j && InRow(b, i) && InRow(a, j)
  }

  ghost predicate SameRow(a: Operator, b: Operator) {
    exists i: nat :: InRow(a, i) && InRow(b, i)
  }

  ghost predicate TighterThanUnary(a: Operator) {
    exists i: nat :: UNARY_ROW < i && InRow(a, i)
  }

  /** In `x a y b z` the operand `y` goes to `a`. */
  ghost predicate GroupsLeft(a: Operator, b: Operator) {
    Tighter(a, b) || (SameRow(a, b) && a !in RIGHT_ASSOCIATIVE)
  }

  /** `e` is no operand of `op` on its left that `op` should have taken a part of. */
  ghost predicate Behind(e: Node, op: Operator) {
    match e
    case Binary(o, l, _) => !GroupsLeft(op, o) && Behind(l, op)
    case _ => true
  }

  ghost predicate BehindUnary(e: Node) {
    match e
    case Binary(o, l, _) => TighterThanUnary(o) && BehindUnary(l)
    case _ => true
  }

  ghost predicate Before(e: Node, op: Operator) {
    match e
    case Binary(o, _, r) => GroupsLeft(o, op) && Before(r, op)
    case Unary(_, a) => !TighterThanUnary(op) && Before(a, op)
    case _ => true
  }

  /** The tree groups as the table says. */
  ghost predicate Grouped(e: Node) {
    match e
    case Leaf(_) => true
    case Group(g) => Grouped(g)
    case Unary(t, a) => t in {Not, Len, Op(Sub)} && Grouped(a) && BehindUnary(a)
    case Binary(op, l, r) => Grouped(l) && Grouped(r) && Before(l, op) && Behind(r, op)
  }

  /** A tree that groups as the table says, and is followed by no operator, is nested in `level`. */
  ghost predicate Expression(ts: seq<Token>, level: int, e: Node, rest: seq<Token>) {
    ts == Flatten(e) + rest && Grouped(e) && level + Levels(e) <= MAX_SYNTAX_LEVELS && !First(rest).Op?
  }

  ghost function Row(op: Operator): nat {
    match op
    case Or => 0
    case And => 1
    case Lt => 2 case Gt => 2 case Le => 2 case Ge => 2 case Ne => 2 case Eq => 2
    case Concat => 3
    case Add => 4 case Sub => 4
    case Mul => 5 case Div => 5 case Mod => 5
    case Pow => 7
  }

  lemma OneRow(op: Operator, i: nat)
    ensures InRow(op, i) <==> i == Row(op)
  {
    assert TABLE[0] == [Or] && TABLE[1] == [And] && TABLE[2] == [Lt, Gt, Le, Ge, Ne, Eq] && TABLE[3] == [Concat];
    assert TABLE[4] == [Add, Sub] && TABLE[5] == [Mul, Div, Mod] && TABLE[6] == [] && TABLE[7] == [Pow];
  }

  lemma OnlyRow(op: Operator)
    ensures forall i: nat :: InRow(op, i) <==> i == Row(op)
  {
    hide InRow, Row;
    forall i: nat ensures InRow(op, i) <==> i == Row(op) { OneRow(op, i); }
  }

  lemma TighterRows(a: Operator, b: Operator, ra: nat, rb: nat)
    requires (forall i: nat :: InRow(a, i) <==> i == ra) && (forall i: nat :: InRow(b, i) <==> i == rb)
    ensures Tighter(a, b) <==> ra > rb
  {
    hide InRow;
    assert InRow(a, ra) && InRow(b, rb);
  }

  lemma SameRows(a: Operator, b: Operator, ra: nat, rb: nat)
    requires (forall i: nat :: InRow(a, i) <==> i == ra) && (forall i: nat :: InRow(b, i) <==> i == rb)
    ensures SameRow(a, b) <==> ra == rb
  {
    hide InRow;
    assert InRow(a, ra) && InRow(b, rb);
  }

  lemma Rows(a: Operator, b: Operator)
    ensures Tighter(a, b) <==> Row(a) > Row(b)
    ensures SameRow(a, b) <==> Row(a) == Row(b)
    ensures TighterThanUnary(a) <==> Row(a) > UNARY_ROW
  {
    hide InRow, Row, Tighter, SameRow;
    OnlyRow(a);
    OnlyRow(b);
    assert InRow(a, Row(a));
    TighterRows(a, b, Row(a), Row(b));
    SameRows(a, b, Row(a), Row(b));
  }

  /** The priorities encode the table. */
  lemma Priorities(a: Operator, b: Operator)
    ensures GroupsLeft(a, b) <==> LeftPriority(b) <= RightPriority(a)
    ensures TighterThanUnary(a) <==> LeftPriority(a) > UNARY_PRIORITY
  {
    hide Tighter, SameRow, TighterThanUnary;
    Rows(a, b);
  }

  lemma {:induction false} SpineExact(e: Node, op: Operator)
    ensures Behind(e, op) <==> LeftOk(e, RightPriority(op))
    ensures BehindUnary(e) <==> LeftOk(e, UNARY_PRIORITY)
    ensures Before(e, op) <==> RightOk(e, LeftPriority(op))
  {
    hide GroupsLeft, TighterThanUnary, LeftPriority, RightPriority;
    match e
    case Binary(o, l, r) =>
      SpineExact(l, op);
      SpineExact(r, op);
      Priorities(o, op);
      Priorities(op, o);
    case Unary(_, a) =>
      SpineExact(a, op);
      Priorities(op, op);
    case _ =>
  }

  /** The priorities give every tree the operands that the table gives it. */
  lemma {:induction false} GroupedExact(e: Node)
    ensures Respects(e) <==> Grouped(e)
  {
    hide LeftPriority, RightPriority;
    match e
    case Leaf(_) =>
    case Group(g) => GroupedExact(g);
    case Unary(t, a) =>
      GroupedExact(a);
      SpineExact(a, Pow);
    case Binary(op, l, r) =>
      GroupedExact(l);
      GroupedExact(r);
      SpineExact(l, op);
      SpineExact(r, op);
  }

  /** What the parser makes of an expression, without its priorities: a tree is the result exactly
      when it groups as the table says. */
  lemma ParseGrouped(ts: seq<Token>, level: int, e: Node, rest: seq<Token>)
    ensures SubExpr(ts, 0, level) == Ok(e, rest) <==> Expression(ts, level, e, rest)
  {
    hide SubExpr;
    ParseExact(ts, 0, level, e, rest);
    GroupedExact(e);
    Weakest(e);
    if !First(rest).Op? { assert Follows(e, rest) && Stops(rest, 0); }
  }

  lemma Pair(o: Operator, l: Node, r: Node)
    requires l.Leaf? && r.Leaf?
    ensures var e := Binary(o, l, r);
      && Flatten(e) == [Atom(l.id), Op(o), Atom(r.id)] && Grouped(e) && Levels(e) == 2
      && forall q :: (Before(e, q) <==> GroupsLeft(o, q)) && (Behind(e, q) <==> !GroupsLeft(q, o))
  {
  }

  /** Two operators: the operand between them goes to the tighter one, and to the first one if
      they are in the same row and associate to the left. */
  lemma TwoOperators(a: nat, o1: Operator, b: nat, o2: Operator, c: nat)
    ensures SubExpr([Atom(a), Op(o1), Atom(b), Op(o2), Atom(c)], 0, 0) ==
      Ok(if Tighter(o1, o2) || (SameRow(o1, o2) && o1 !in RIGHT_ASSOCIATIVE)
         then Binary(o2, Binary(o1, Leaf(a), Leaf(b)), Leaf(c))
         else Binary(o1, Leaf(a), Binary(o2, Leaf(b), Leaf(c))), [])
  {
    hide SubExpr, Tighter, SameRow;
    var left, right := Binary(o2, Binary(o1, Leaf(a), Leaf(b)), Leaf(c)), Binary(o1, Leaf(a), Binary(o2, Leaf(b), Leaf(c)));
    var e := if GroupsLeft(o1, o2) then left else right;
    Pair(o1, Leaf(a), Leaf(b));
    Pair(o2, Leaf(b), Leaf(c));
    assert Flatten(left) + [] == Flatten(right) + [] == [Atom(a), Op(o1), Atom(b), Op(o2), Atom(c)];
    ParseGrouped([Atom(a), Op(o1), Atom(b), Op(o2), Atom(c)], 0, e, []);
  }

  /** A unary operator takes only `^` and its operands along. */
  lemma UnaryFirst(u: Token, a: nat, o: Operator, b: nat)
    requires u == Not || u == Len || u == Op(Sub)
    ensures SubExpr([u, Atom(a), Op(o), Atom(b)], 0, 0) ==
      Ok(if o == Pow then Unary(u, Binary(o, Leaf(a), Leaf(b))) else Binary(o, Unary(u, Leaf(a)), Leaf(b)), [])
  {
    hide SubExpr, TighterThanUnary, Tighter, SameRow;
    Rows(o, o);
    var inside, outside := Unary(u, Binary(o, Leaf(a), Leaf(b))), Binary(o, Unary(u, Leaf(a)), Leaf(b));
    Pair(o, Leaf(a), Leaf(b));
    assert Flatten(Unary(u, Leaf(a))) == [u, Atom(a)] && Grouped(Unary(u, Leaf(a))) && Levels(Unary(u, Leaf(a))) == 2;
    assert Flatten(inside) + [] == Flatten(outside) + [] == [u, Atom(a), Op(o), Atom(b)];
    ParseGrouped([u, Atom(a), Op(o), Atom(b)], 0, if o == Pow then inside else outside, []);
  }

  lemma SecondLevels(l: Node, o: Operator, u: Token, r: Node)
    requires l.Leaf? && r.Leaf?
    ensures Levels(Binary(o, l, Unary(u, r))) == 3
  {
    assert Levels(l) == 1 && Levels(r) == 1;
    assert Levels(Unary(u, r)) == 2;
  }

  lemma UnarySecond(a: nat, o: Operator, u: Token, b: nat)
    requires u == Not || u == Len || u == Op(Sub)
    ensures SubExpr([Atom(a), Op(o), u, Atom(b)], 0, 0) == Ok(Binary(o, Leaf(a), Unary(u, Leaf(b))), [])
  {
    hide SubExpr;
    var e := Binary(o, Leaf(a), Unary(u, Leaf(b)));
    assert Flatten(Unary(u, Leaf(b))) == [u, Atom(b)] && Grouped(Unary(u, Leaf(b)));
    assert Flatten(e) + [] == [Atom(a), Op(o), u, Atom(b)];
    SecondLevels(Leaf(a), o, u, Leaf(b));
    assert Grouped(e);
    ParseGrouped([Atom(a), Op(o), u, Atom(b)], 0, e, []);
  }

  /** 1 + 2 * 3 */
  lemma SumOfProduct()
    ensures SubExpr([Atom(1), Op(Add), Atom(2), Op(Mul), Atom(3)], 0, 0) == Ok(Binary(Add, Leaf(1), Binary(Mul, Leaf(2), Leaf(3))), [])
  {
    hide SubExpr, Tighter, SameRow;
    Rows(Add, Mul);
    TwoOperators(1, Add, 2, Mul, 3);
  }

  // ---------------------------------------------------------------- the parser

  class Parser {
    const tokens: seq<Token>
    var pos: nat             // where the parser has got to
    var syntaxLevel: nat

    constructor (tokens: seq<Token>)
      ensures this.tokens == tokens && pos == 0 && syntaxLevel == 0
    {
      this.tokens := tokens;
      pos, syntaxLevel := 0, 0;
    }

    /** The tokens from the current one on. */
    function Rest(): seq<Token>
      reads this
    {
      if pos <= |tokens| then tokens[pos..] else []
    }

    function Current(): Token
      reads this
    {
      First(Rest())
    }

    method NextToken()
      modifies this`pos
      ensures old(Rest()) != [] ==> Rest() == old(Rest())[1..]
    {
      pos := pos + 1;
    }

    /** simpleexp */
    method SimpleExp() returns (r: Result)
      requires syntaxLevel <= MAX_SYNTAX_LEVELS
      modifies this
      ensures r == old(Simple(Rest(), syntaxLevel))
      ensures r.Ok? ==> Rest() == r.rest && syntaxLevel == old(syntaxLevel)
      decreases |Rest()|, 0
    {
      match Current() {
        case Atom(id) =>
          NextToken();
          r := Ok(Leaf(id), Rest());
        case Open =>
          NextToken();
          var inner, _ := SubExpression(0);
          if inner.Err? {
            return Err(inner.error);
          }
          if Current() != Close {
            return Err(ExpectedDifferentToken);
          }
          NextToken();
          r := Ok(Group(inner.e), Rest());
        case _ =>
          r := Err(UnexpectedSymbol);
      }
    }

    /** subexpr; `op` is the operator that follows and was left untreated. */
    method SubExpression(limit: nat) returns (r: Result, op: Token)
      requires syntaxLevel <= MAX_SYNTAX_LEVELS
      modifies this
      ensures r == old(SubExpr(Rest(), limit, syntaxLevel))
      ensures r.Ok? ==> Rest() == r.rest && syntaxLevel == old(syntaxLevel)
      ensures r.Ok? ==> op == if IsBinaryOperator(Current()) then Current() else Other
      decreases |Rest()|, 1
    {
      hide LeftPriority, RightPriority, SubExpr, Climb, Simple;
      op := Other;
      ghost var ts, level := Rest(), syntaxLevel;
      syntaxLevel := syntaxLevel + 1;
      if syntaxLevel > MAX_SYNTAX_LEVELS {
        TooDeep(ts, limit, level);
        return Err(TooManySyntaxLevels), op;
      }
      Starts(ts, limit, level);
      var node: Node;
      if IsUnaryOperator(Current()) {
        var token := Current();
        NextToken();
        var argument, _ := SubExpression(UNARY_PRIORITY);
        if argument.Err? {
          return argument, op;
        }
        node := Unary(token, argument.e);
      } else {
        var first := SimpleExp();
        if first.Err? {
          return first, op;
        }
        node := first.e;
      }
      op := Current();
      while IsBinaryOperator(op)
        invariant syntaxLevel == level + 1 <= MAX_SYNTAX_LEVELS && |Rest()| < |ts|
        invariant op == Current() || (op == Other && !IsBinaryOperator(Current()))
        invariant SubExpr(ts, limit, level) == Climb(node, Rest(), limit, level)
        decreases |Rest()|
      {
        Climbs(node, Rest(), limit, level);
        if LeftPriority(op.op) <= limit {
          syntaxLevel := syntaxLevel - 1;
          return Ok(node, Rest()), op;
        }
        NextToken();
        var right, untreated := SubExpression(RightPriority(op.op));
        if right.Err? {
          return right, Other;
        }
        node := Binary(op.op, node, right.e);
        op := untreated;
      }
      StopStep(node, Rest(), limit, level);
      op := Other;
      syntaxLevel := syntaxLevel - 1;
      return Ok(node, Rest()), op;
    }

    /** expr: what it parses is an expression, grouped as the table says, and the only one. */
    method Expr() returns (r: Result)
      requires syntaxLevel <= MAX_SYNTAX_LEVELS
      modifies this
      ensures r.Ok? ==> syntaxLevel == old(syntaxLevel) && Rest() == r.rest && old(Expression(Rest(), syntaxLevel, r.e, r.rest))
      ensures r.Err? ==> forall e, rest :: !old(Expression(Rest(), syntaxLevel, e, rest))
    {
      ghost var ts, level := Rest(), syntaxLevel;
      var untreated;
      r, untreated := SubExpression(0);
      forall e, rest ensures SubExpr(ts, 0, level) == Ok(e, rest) <==> Expression(ts, level, e, rest) { ParseGrouped(ts, level, e, rest); }
    }
  }
}
