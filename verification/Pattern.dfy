/** Patterns: their syntax, and what it means for a string to match. */
module Pattern {
  import opened Basics

  const LUA_MAXCAPTURES := 32
  const CAP_UNFINISHED := -1
  const CAP_POSITION := -2

  /** A C string: reading at its end gives the terminating zero. */
  function At(t: string, i: nat): (c: char)
    ensures c != '\0' ==> i < |t|
  {
    if i < |t| then t[i] else '\0'
  }

  // ---------------------------------------------------------------- character classes

  predicate IsLower(c: char) { 'a' <= c <= 'z' }

  predicate IsUpper(c: char) { 'A' <= c <= 'Z' }

  predicate IsAlpha(c: char) { IsLower(c) || IsUpper(c) }

  predicate IsCntrl(c: char) { c < ' ' || c == '\U{7f}' }

  predicate IsPunct(c: char) { ' ' < c < '\U{7f}' && !IsAlpha(c) && !IsDigit(c) }

  predicate IsSpace(c: char) { c == ' ' || '\t' <= c <= '\r' }

  predicate IsXDigit(c: char) { IsDigit(c) || 'a' <= c <= 'f' || 'A' <= c <= 'F' }

  /** match_class: whether `c` is in the class `%cl`; an upper-case letter is the complement. */
  function MatchClass(c: char, cl: char): bool {
    if cl == 'a' || cl == 'A' then IsAlpha(c) == IsLower(cl)
    else if cl == 'c' || cl == 'C' then IsCntrl(c) == IsLower(cl)
    else if cl == 'd' || cl == 'D' then IsDigit(c) == IsLower(cl)
    else if cl == 'l' || cl == 'L' then IsLower(c) == IsLower(cl)
    else if cl == 'p' || cl == 'P' then IsPunct(c) == IsLower(cl)
    else if cl == 's' || cl == 'S' then IsSpace(c) == IsLower(cl)
    else if cl == 'u' || cl == 'U' then IsUpper(c) == IsLower(cl)
    else if cl == 'w' || cl == 'W' then (IsAlpha(c) || IsDigit(c)) == IsLower(cl)
    else if cl == 'x' || cl == 'X' then IsXDigit(c) == IsLower(cl)
    else if cl == 'z' || cl == 'Z' then (c == '\0') == IsLower(cl)
    else cl == c
  }

  /** The members of a set, given by the text from `i` to the closing bracket at `ec`: classes,
      ranges and single characters. */
  predicate SetHas(p: string, i: nat, ec: nat, c: char)
    decreases ec - i
  {
    if i >= ec then false
    else if At(p, i) == '%' then MatchClass(c, At(p, i + 1)) || SetHas(p, i + 2, ec, c)
    else if At(p, i + 1) == '-' && i + 2 < ec then At(p, i) <= c <= At(p, i + 2) || SetHas(p, i + 3, ec, c)
    else At(p, i) == c || SetHas(p, i + 1, ec, c)
  }

  /** A set in brackets, from `[` at `i` to `]` at `ec`. */
  predicate BracketHas(p: string, i: nat, ec: nat, c: char) {
    if At(p, i + 1) == '^' then !SetHas(p, i + 2, ec, c) else SetHas(p, i + 1, ec, c)
  }

  /** The single-character class written from `lo` to `hi`. */
  predicate ClassHas(p: string, lo: nat, hi: nat, c: char) {
    match At(p, lo)
    case '.' => true
    case '%' => MatchClass(c, At(p, lo + 1))
    case '[' => BracketHas(p, lo, if hi > 0 then hi - 1 else 0, c)
    case x => x == c
  }

  // ---------------------------------------------------------------- syntax

  /** Where a set ends whose members start at `i`; the first character is always a member. */
  function SetEnd(p: string, i: nat): (r: Option<nat>)
    ensures r.Some? ==> i < r.value <= |p|
    decreases |p| - i
  {
    if At(p, i) == '\0' then None
    else
      var j := if At(p, i) == '%' && At(p, i + 1) != '\0' then i + 2 else i + 1;
      if At(p, j) == ']' then Some(j + 1) else SetEnd(p, j)
  }

  /** classend: where the single-character class at `i` ends. */
  function ClassEnd(p: string, i: nat): (r: Option<nat>)
    requires At(p, i) != '\0'
    ensures r.Some? ==> i < r.value <= |p|
  {
    match At(p, i)
    case '%' => if At(p, i + 1) == '\0' then None else Some(i + 2)
    case '[' => SetEnd(p, if At(p, i + 1) == '^' then i + 2 else i + 1)
    case _ => Some(i + 1)
  }

  datatype Rep = One | Optional | Star | Plus | Lazy

  /** The items of a pattern. A piece is a single-character class, written from `lo` to `hi`,
      and how often it is repeated. */
  datatype Item =
    | Stop
    | Open(position: bool)
    | Shut
    | Balance(x: char, y: char)
    | Frontier(lo: nat, hi: nat)
    | Back(l: char)
    | Last
    | Piece(lo: nat, hi: nat, rep: Rep)
    | Malformed

  datatype Parsed = Parsed(item: Item, next: nat)

  function PieceAt(p: string, i: nat): (r: Parsed)
    requires At(p, i) != '\0'
    ensures i < r.next <= |p|
  {
    match ClassEnd(p, i)
    case None => Parsed(Malformed, i + 1)
    case Some(ep) =>
      match At(p, ep)
      case '?' => Parsed(Piece(i, ep, Optional), ep + 1)
      case '*' => Parsed(Piece(i, ep, Star), ep + 1)
      case '+' => Parsed(Piece(i, ep, Plus), ep + 1)
      case '-' => Parsed(Piece(i, ep, Lazy), ep + 1)
      case _ => Parsed(Piece(i, ep, One), ep)
  }

  /** The item at `i`, and where the next one starts. */
  function ItemAt(p: string, i: nat): (r: Parsed)
    ensures r.item != Stop ==> i < r.next <= |p|
  {
    match At(p, i)
    case '(' => if At(p, i + 1) == ')' then Parsed(Open(true), i + 2) else Parsed(Open(false), i + 1)
    case ')' => Parsed(Shut, i + 1)
    case '%' =>
      if At(p, i + 1) == 'b' then
        if At(p, i + 2) == '\0' || At(p, i + 3) == '\0' then Parsed(Malformed, i + 1) else Parsed(Balance(At(p, i + 2), At(p, i + 3)), i + 4)
      else if At(p, i + 1) == 'f' then
        if At(p, i + 2) != '[' then Parsed(Malformed, i + 1)
        else match ClassEnd(p, i + 2) { case None => Parsed(Malformed, i + 1) case Some(ep) => Parsed(Frontier(i + 2, ep), ep) }
      else if IsDigit(At(p, i + 1)) then Parsed(Back(At(p, i + 1)), i + 2)
      else PieceAt(p, i)
    case '\0' => Parsed(Stop, i)
    case '$' => if At(p, i + 1) == '\0' then Parsed(Last, i + 1) else PieceAt(p, i)
    case _ => PieceAt(p, i)
  }

  // ---------------------------------------------------------------- captures

  /** `len` is the length of the captured text, or says that the capture is not finished, or
      that it is a position. */
  datatype Capture = Capture(init: nat, len: int)

  /** The last capture that is not finished, or -1. */
  function LastOpen(caps: seq<Capture>): (l: int)
    ensures -1 <= l < |caps|
    ensures l >= 0 ==> caps[l].len == CAP_UNFINISHED
    ensures forall j :: l < j < |caps| ==> caps[j].len != CAP_UNFINISHED
  {
    if caps == [] then -1
    else if caps[|caps| - 1].len == CAP_UNFINISHED then |caps| - 1
    else LastOpen(caps[..|caps| - 1])
  }

  /** The index of a capture that `%l` may refer to. */
  predicate RefOk(caps: seq<Capture>, l: char) {
    var k := l as int - '1' as int;
    0 <= k < |caps| && caps[k].len != CAP_UNFINISHED
  }

  // ---------------------------------------------------------------- matching

  /** How many x's are open after the text from `s` to `t`: a `y` closes, an `x` opens. */
  function Depth(src: string, s: nat, t: nat, x: char, y: char): int
    requires s <= t <= |src|
    decreases t - s
  {
    if s == t then 0
    else if t - 1 == s then 1
    else Depth(src, s, t - 1, x, y) + (if src[t - 1] == y then -1 else if src[t - 1] == x then 1 else 0)
  }

  /** The text from `s` to `t` starts with `x` and ends with the `y` that balances it. */
  ghost predicate Balanced(src: string, s: nat, t: nat, x: char, y: char) {
    s + 1 < t <= |src| && src[s] == x && Depth(src, s, t, x, y) == 0 && forall m :: s < m < t ==> Depth(src, s, m, x, y) > 0
  }

  predicate Allowed(rep: Rep, n: nat) {
    match rep
    case One => n == 1
    case Optional => n <= 1
    case Plus => n >= 1
    case _ => true
  }

  /** `n` characters from `s` on are in the class. */
  predicate AllIn(src: string, s: nat, n: nat, p: string, lo: nat, hi: nat) {
    s + n <= |src| && forall k :: s <= k < s + n ==> ClassHas(p, lo, hi, src[k])
  }

  /** An item that cannot be used: it is malformed, there are too many captures, no capture is
      open that it could close, or it refers to no finished capture. */
  predicate Unusable(p: string, i: nat, caps: seq<Capture>) {
    match ItemAt(p, i).item
    case Malformed => true
    case Open(_) => |caps| >= LUA_MAXCAPTURES
    case Shut => LastOpen(caps) < 0
    case Back(l) => !RefOk(caps, l)
    case _ => false
  }

  datatype Outcome = Fail | Match(end: nat, caps: seq<Capture>) | Misuse

  /** What the pattern from `i` on matches at `s`, when the pieces are repeated as often as the
      numbers `ns` say, one for each; or that this way arrives at an item that cannot be used. */
  ghost function Play(src: string, p: string, i: nat, caps: seq<Capture>, s: nat, ns: seq<nat>): (r: Outcome)
    requires s <= |src|
    ensures r.Match? ==> s <= r.end <= |src|
    decreases |p| - i
  {
    var Parsed(item, next) := ItemAt(p, i);
    if Unusable(p, i, caps) then (if ns == [] then Misuse else Fail)
    else
      match item
      case Stop => if ns == [] then Match(s, caps) else Fail
      case Open(position) => Play(src, p, next, caps + [Capture(s, if position then CAP_POSITION else CAP_UNFINISHED)], s, ns)
      case Shut =>
        var l := LastOpen(caps);
        Play(src, p, next, caps[l := Capture(caps[l].init, s - caps[l].init)], s, ns)
      case Balance(x, y) =>
        if exists t :: Balanced(src, s, t, x, y) then var t :| Balanced(src, s, t, x, y); Play(src, p, next, caps, t, ns) else Fail
      case Frontier(lo, hi) =>
        var previous := if s == 0 then '\0' else src[s - 1];
        if !BracketHas(p, lo, hi - 1, previous) && BracketHas(p, lo, hi - 1, At(src, s)) then Play(src, p, next, caps, s, ns) else Fail
      case Back(l) =>
        var c := caps[l as int - '1' as int];
        if 0 <= c.len <= |src| - s && c.init + c.len <= |src| && src[c.init..c.init + c.len] == src[s..s + c.len]
        then Play(src, p, next, caps, s + c.len, ns) else Fail
      case Last => if s == |src| && ns == [] then Match(s, caps) else Fail
      case Piece(lo, hi, rep) =>
        if ns != [] && Allowed(rep, ns[0]) && AllIn(src, s, ns[0], p, lo, hi) then Play(src, p, next, caps, s + ns[0], ns[1..]) else Fail
      case Malformed => Misuse
  }

  /** `ns` is `ms`, or tried before it: at the first piece where they differ it has more
      repetitions, or fewer of a lazy one. */
  ghost predicate Preferred(p: string, i: nat, ns: seq<nat>, ms: seq<nat>)
    decreases |p| - i
  {
    ns == ms ||
    var Parsed(item, next) := ItemAt(p, i);
    match item
    case Stop => false
    case Last => false
    case Malformed => false
    case Piece(_, _, rep) =>
      ns != [] && ms != [] && if ns[0] == ms[0] then Preferred(p, next, ns[1..], ms[1..]) else (ns[0] > ms[0]) == (rep != Lazy)
    case _ => Preferred(p, next, ns, ms)
  }

  /** The pattern from `i` on can match at `s`. */
  ghost predicate CanMatch(src: string, p: string, i: nat, caps: seq<Capture>, s: nat)
    requires s <= |src|
  {
    exists ns :: Play(src, p, i, caps, s, ns).Match?
  }

  /** Some way matches, or arrives at an item that cannot be used. */
  ghost predicate Ends(src: string, p: string, i: nat, caps: seq<Capture>, s: nat)
    requires s <= |src|
  {
    exists ns :: Play(src, p, i, caps, s, ns) != Fail
  }

  /** `ns` is the first of all ways that do not fail. */
  ghost predicate Best(src: string, p: string, i: nat, caps: seq<Capture>, s: nat, ns: seq<nat>)
    requires s <= |src|
  {
    && Play(src, p, i, caps, s, ns) != Fail
    && forall ms :: Play(src, p, i, caps, s, ms) != Fail ==> Preferred(p, i, ns, ms)
  }

  /** The first way that does not fail arrives at an item that cannot be used. */
  ghost predicate Misused(src: string, p: string, i: nat, caps: seq<Capture>, s: nat)
    requires s <= |src|
  {
    exists ns :: Best(src, p, i, caps, s, ns) && Play(src, p, i, caps, s, ns) == Misuse
  }

  // ---------------------------------------------------------------- well-formed patterns

  datatype Shape = Unfinished | Finished | Position

  function ShapeOf(c: Capture): Shape {
    if c.len == CAP_UNFINISHED then Unfinished else if c.len == CAP_POSITION then Position else Finished
  }

  function Shapes(caps: seq<Capture>): (r: seq<Shape>)
    ensures |r| == |caps|
  {
    seq(|caps|, i requires 0 <= i < |caps| => ShapeOf(caps[i]))
  }

  function LastUnfinished(sh: seq<Shape>): (l: int)
    ensures -1 <= l < |sh|
  {
    if sh == [] then -1 else if sh[|sh| - 1] == Unfinished then |sh| - 1 else LastUnfinished(sh[..|sh| - 1])
  }

  /** No item is malformed, there are not too many captures, every `)` has its `(`, and references
      are to finished captures. */
  predicate WellFormed(p: string, i: nat, sh: seq<Shape>)
    decreases |p| - i
  {
    var Parsed(item, next) := ItemAt(p, i);
    match item
    case Stop => true
    case Last => true
    case Malformed => false
    case Open(position) => |sh| < LUA_MAXCAPTURES && WellFormed(p, next, sh + [if position then Position else Unfinished])
    case Shut =>
      var l := LastUnfinished(sh);
      l >= 0 && WellFormed(p, next, sh[l := Finished])
    case Back(l) =>
      var k := l as int - '1' as int;
      0 <= k < |sh| && sh[k] != Unfinished && WellFormed(p, next, sh)
    case _ => WellFormed(p, next, sh)
  }
}
