/** The backtracking matcher. */
module Matcher {
  import opened Basics
  import opened Pattern
  import opened PatternFacts

  datatype Result = Found(end: nat) | NotFound | Error

  /** memchr: the first `c` among `n` characters from `from` on. */
  method MemChr(s: string, from: nat, n: nat, c: char) returns (k: int)
    requires from + n <= |s|
    ensures k == -1 ==> forall j :: from <= j < from + n ==> s[j] != c
    ensures k != -1 ==> from <= k < from + n && s[k] == c && forall j :: from <= j < k ==> s[j] != c
  {
    k := from;
    while k < from + n
      invariant from <= k <= from + n && forall j :: from <= j < k ==> s[j] != c
    {
      if s[k] == c {
        return;
      }
      k := k + 1;
    }
    return -1;
  }

  /** lmemfind: the first place from `init` on where the text `t` occurs. */
  method MemFind(s: string, init: nat, t: string) returns (k: int)
    requires init <= |s|
    ensures k == -1 ==> forall j :: j >= init ==> !Occurs(s, t, j)
    ensures k != -1 ==> k >= init && Occurs(s, t, k) && forall j :: init <= j < k ==> !Occurs(s, t, j)
  {
    if t == "" {
      return init;
    }
    if |t| > |s| - init {
      return -1;
    }
    var l2 := |t| - 1;
    var s1, l1 := init, |s| - init - l2;
    while l1 > 0
      invariant init <= s1 && l1 >= 0 && s1 + l1 + l2 == |s| && forall j :: init <= j < s1 ==> !Occurs(s, t, j)
      decreases l1
    {
      var c := MemChr(s, s1, l1, t[0]);
      if c == -1 {
        forall j | s1 <= j && Occurs(s, t, j) ensures j < |s| && s[j] == t[0] { OccursStarts(s, t, j); }
        return -1;
      }
      forall j | s1 <= j < c && Occurs(s, t, j) ensures s[j] == t[0] { OccursStarts(s, t, j); }
      assert s[c..c + |t|] == [s[c]] + s[c + 1..c + 1 + l2] && t == [t[0]] + t[1..];
      if s[c + 1..c + 1 + l2] == t[1..] {
        return c;
      }
      l1, s1 := l1 - (c + 1 - s1), c + 1;
    }
    return -1;
  }

  class MatchState {
    const src: string                    // what is searched
    var level: nat                       // how many of the captures are in use
    const capture: array<Capture>

    constructor (src: string)
      ensures Valid() && this.src == src && Caps() == [] && fresh(capture)
    {
      this.src, level := src, 0;
      capture := new Capture[LUA_MAXCAPTURES](_ => Capture(0, 0));
    }

    ghost predicate Valid()
      reads this
    {
      capture.Length == LUA_MAXCAPTURES && level <= LUA_MAXCAPTURES
    }

    ghost function Caps(): seq<Capture>
      requires Valid()
      reads this, capture
    {
      capture[..level]
    }

    /** What a call of the matcher promises. The ways to match are tried in their order, up to the
        first one that does not fail: it matches, with its captures, or it arrives at an item that
        cannot be used, which is an error. If all fail, the captures are as they were. */
    ghost predicate Right(p: string, i: nat, caps: seq<Capture>, s: nat, r: Result, ns: seq<nat>)
      requires Valid() && s <= |src|
      reads this, capture
    {
      match r
      case Found(e) => Best(src, p, i, caps, s, ns) && Play(src, p, i, caps, s, ns) == Match(e, Caps()) && s <= e <= |src|
      case NotFound => !Ends(src, p, i, caps, s) && Caps() == caps
      case Error => Best(src, p, i, caps, s, ns) && Play(src, p, i, caps, s, ns) == Misuse
    }

    // -------------------------------------------------------------- single characters

    /** classend */
    method ClassEndAt(p: string, i: nat) returns (r: Option<nat>)
      requires At(p, i) != '\0'
      ensures r == ClassEnd(p, i)
    {
      match At(p, i) {
        case '%' =>
          r := if At(p, i + 1) == '\0' then None else Some(i + 2);
        case '[' =>
          var q := if At(p, i + 1) == '^' then i + 2 else i + 1;
          while true
            invariant q <= |p| + 1 && ClassEnd(p, i) == SetEnd(p, q)
            decreases |p| - q
          {
            if At(p, q) == '\0' {
              return None;
            }
            if At(p, q) == '%' && At(p, q + 1) != '\0' {
              q := q + 2;
            } else {
              q := q + 1;
            }
            if At(p, q) == ']' {
              return Some(q + 1);
            }
          }
        case _ =>
          r := Some(i + 1);
      }
    }

    /** matchbracketclass */
    method MatchBracketClass(c: char, p: string, i: nat, ec: nat) returns (b: bool)
      ensures b == BracketHas(p, i, ec, c)
    {
      var sig := true;
      var q := i;
      if At(p, i + 1) == '^' {
        sig := false;
        q := q + 1;
      }
      q := q + 1;
      while q < ec
        invariant BracketHas(p, i, ec, c) == (SetHas(p, q, ec, c) == sig)
        decreases ec - q
      {
        if At(p, q) == '%' {
          q := q + 1;
          if MatchClass(c, At(p, q)) {
            return sig;
          }
        } else if At(p, q + 1) == '-' && q + 2 < ec {
          q := q + 2;
          if At(p, q - 2) <= c <= At(p, q) {
            return sig;
          }
        } else if At(p, q) == c {
          return sig;
        }
        q := q + 1;
      }
      return !sig;
    }

    /** singlematch */
    method SingleMatch(c: char, p: string, i: nat, ep: nat) returns (b: bool)
      requires ep > 0
      ensures b == ClassHas(p, i, ep, c)
    {
      match At(p, i) {
        case '.' => b := true;
        case '%' => b := MatchClass(c, At(p, i + 1));
        case '[' => b := MatchBracketClass(c, p, i, ep - 1);
        case x => b := x == c;
      }
    }

    // -------------------------------------------------------------- items

    /** capture_to_close */
    method CaptureToClose() returns (l: int)
      requires Valid()
      ensures l == LastOpen(Caps())
    {
      l := level - 1;
      assert capture[..level] == Caps();
      while l >= 0
        invariant -1 <= l < level && LastOpen(Caps()) == LastOpen(capture[..l + 1])
      {
        assert capture[..l + 1][..l] == capture[..l];
        if capture[l].len == CAP_UNFINISHED {
          return;
        }
        l := l - 1;
      }
    }

    /** matchbalance: where the balanced text that starts at `s` ends, or -1. */
    method MatchBalance(s0: nat, x: char, y: char) returns (t: int)
      requires s0 <= |src| && x != '\0'
      ensures t >= 0 ==> Balanced(src, s0, t, x, y)
      ensures t < 0 ==> forall u :: !Balanced(src, s0, u, x, y)
    {
      if At(src, s0) != x {
        return -1;
      }
      var cont := 1;
      var s := s0 + 1;
      while s < |src|
        invariant s0 < s <= |src| && cont == Depth(src, s0, s, x, y)
        invariant forall m :: s0 < m <= s ==> Depth(src, s0, m, x, y) > 0
      {
        if src[s] == y {
          cont := cont - 1;
          if cont == 0 {
            return s + 1;
          }
        } else if src[s] == x {
          cont := cont + 1;
        }
        s := s + 1;
      }
      return -1;
    }

    /** match_capture: where the text of a former capture ends at `s`. */
    method MatchCapture(s: nat, l: char) returns (r: Result)
      requires Valid() && s <= |src| && CapsOk(Caps(), s)
      ensures r == Error <==> !RefOk(Caps(), l)
      ensures r.Found? ==> (var c := Caps()[l as int - '1' as int];
        0 <= c.len <= |src| - s && c.init + c.len <= |src| && src[c.init..c.init + c.len] == src[s..s + c.len] && r.end == s + c.len)
      ensures r.NotFound? ==> (var c := Caps()[l as int - '1' as int];
        !(0 <= c.len <= |src| - s && c.init + c.len <= |src| && src[c.init..c.init + c.len] == src[s..s + c.len]))
    {
      var k := l as int - '1' as int;
      if k < 0 || k >= level || capture[k].len == CAP_UNFINISHED {
        return Error;
      }
      assert capture[k] == Caps()[k];
      var c := capture[k];
      // the length of a position capture, taken as unsigned, exceeds every string
      if c.len >= 0 && |src| - s >= c.len && src[c.init..c.init + c.len] == src[s..s + c.len] {
        r := Found(s + c.len);
      } else {
        r := NotFound;
      }
    }

    // -------------------------------------------------------------- match

    /** match: the pattern from `i` on against the source from `s` on. */
    method DoMatch(p: string, i: nat, s: nat) returns (r: Result, ghost ns: seq<nat>)
      requires Valid() && s <= |src| && CapsOk(Caps(), s)
      modifies this`level, capture
      ensures Valid() && Right(p, i, old(Caps()), s, r, ns)
      decreases |p| - i, 2
    {
      hide Play, Best, Ends, WellFormed, Preferred;
      ns := [];
      match At(p, i) {
        case '(' =>
          if At(p, i + 1) == ')' {
            r, ns := StartCapture(p, i, i + 2, s, CAP_POSITION);
          } else {
            r, ns := StartCapture(p, i, i + 1, s, CAP_UNFINISHED);
          }
        case ')' =>
          r, ns := EndCapture(p, i, s);
        case '%' =>
          r, ns := Escape(p, i, s);
        case '\0' =>
          StopHere(src, p, i, Caps(), s);
          r := Found(s);
        case '$' =>
          if At(p, i + 1) == '\0' {
            if s == |src| {
              LastHere(src, p, i, Caps(), s);
              r := Found(s);
            } else {
              Stuck(src, p, i, Caps(), s);
              r := NotFound;
            }
          } else {
            r, ns := Default(p, i, s);
          }
        case _ =>
          r, ns := Default(p, i, s);
      }
    }

    /** start_capture */
    method StartCapture(p: string, ghost i: nat, q: nat, s: nat, what: int) returns (r: Result, ghost ns: seq<nat>)
      requires Valid() && s <= |src| && CapsOk(Caps(), s) && (what == CAP_POSITION || what == CAP_UNFINISHED)
      requires ItemAt(p, i) == Parsed(Open(what == CAP_POSITION), q)
      modifies this`level, capture
      ensures Valid() && Right(p, i, old(Caps()), s, r, ns)
      decreases |p| - i, 1
    {
      hide Play, Best, Ends, Preferred, ItemAt, Goes;
      ghost var caps := Caps();
      ns := [];
      if level >= LUA_MAXCAPTURES {
        MisuseHere(src, p, i, caps, s);
        return Error, [];
      }
      OpenGoes(src, p, i, caps, s);
      capture[level] := Capture(s, what);
      level := level + 1;
      ghost var caps' := caps + [Capture(s, what)];
      assert Caps() == caps';
      GoesBest(src, p, i, caps, s, q, caps', s);
      r, ns := DoMatch(p, q, s);
      GoesSame(src, p, i, caps, s, q, caps', s, ns);
      if r == NotFound {
        level := level - 1;
        assert Caps() == caps'[..level];
      }
    }

    /** end_capture */
    method EndCapture(p: string, i: nat, s: nat) returns (r: Result, ghost ns: seq<nat>)
      requires Valid() && s <= |src| && CapsOk(Caps(), s) && ItemAt(p, i) == Parsed(Shut, i + 1)
      modifies this`level, capture
      ensures Valid() && Right(p, i, old(Caps()), s, r, ns)
      decreases |p| - i, 1
    {
      hide Play, Best, Ends, Preferred, ItemAt, Goes, LastOpen, LastUnfinished;
      ghost var caps := Caps();
      var l := CaptureToClose();
      if l < 0 {
        MisuseHere(src, p, i, caps, s);
        return Error, [];
      }
      ShutGoes(src, p, i, caps, s);
      assert capture[l] == caps[l];
      capture[l] := Capture(capture[l].init, s - capture[l].init);
      ghost var caps' := caps[l := Capture(caps[l].init, s - caps[l].init)];
      assert Caps() == caps';
      GoesBest(src, p, i, caps, s, i + 1, caps', s);
      r, ns := DoMatch(p, i + 1, s);
      GoesSame(src, p, i, caps, s, i + 1, caps', s, ns);
      if r == NotFound {
        assert capture[l] == caps'[l];
        capture[l] := Capture(capture[l].init, CAP_UNFINISHED);
        assert Caps() == caps'[l := caps[l]] == caps;
      }
    }

    /** match, after an escape character */
    method Escape(p: string, i: nat, s: nat) returns (r: Result, ghost ns: seq<nat>)
      requires Valid() && s <= |src| && CapsOk(Caps(), s) && At(p, i) == '%'
      modifies this`level, capture
      ensures Valid() && Right(p, i, old(Caps()), s, r, ns)
      decreases |p| - i, 1
    {
      hide Play, Best, Ends, Preferred, Goes, WellFormed;
      ns := [];
      if At(p, i + 1) == 'b' {
        if At(p, i + 2) == '\0' || At(p, i + 3) == '\0' {
          MisuseHere(src, p, i, Caps(), s);
          return Error, [];
        }
        var t := MatchBalance(s, At(p, i + 2), At(p, i + 3));
        if t < 0 {
          Stuck(src, p, i, Caps(), s);
          return NotFound, [];
        }
        BalanceGoes(src, p, i, Caps(), s, t);
        r, ns := Continue(p, i, s, i + 4, t);
      } else if At(p, i + 1) == 'f' {
        r, ns := MatchFrontier(p, i, s);
      } else if IsDigit(At(p, i + 1)) {
        var m := MatchCapture(s, At(p, i + 1));
        match m {
          case Error =>
            MisuseHere(src, p, i, Caps(), s);
            return Error, [];
          case NotFound =>
            Stuck(src, p, i, Caps(), s);
            return NotFound, [];
          case Found(e) =>
            BackGoes(src, p, i, Caps(), s);
            r, ns := Continue(p, i, s, i + 2, e);
        }
      } else {
        r, ns := Default(p, i, s);
      }
    }

    /** match on the rest of the pattern, after an item that keeps the captures. */
    method Continue(p: string, ghost i: nat, ghost s: nat, next: nat, t: nat) returns (r: Result, ghost ns: seq<nat>)
      requires Valid() && s <= t <= |src| && CapsOk(Caps(), s) && ItemAt(p, i).next == next && i < next <= |p|
      requires Goes(src, p, i, Caps(), s, next, Caps(), t)
      requires ItemAt(p, i).item.Balance? || ItemAt(p, i).item.Frontier? || ItemAt(p, i).item.Back?
      modifies this`level, capture
      ensures Valid() && Right(p, i, old(Caps()), s, r, ns)
      decreases |p| - i, 0, 0
    {
      hide Play, Best, Ends, Preferred, Goes, ItemAt;
      ghost var caps := Caps();
      GoesBest(src, p, i, caps, s, next, caps, t);
      r, ns := DoMatch(p, next, t);
      GoesSame(src, p, i, caps, s, next, caps, t, ns);
    }

    method MatchFrontier(p: string, i: nat, s: nat) returns (r: Result, ghost ns: seq<nat>)
      requires Valid() && s <= |src| && CapsOk(Caps(), s) && At(p, i) == '%' && At(p, i + 1) == 'f'
      modifies this`level, capture
      ensures Valid() && Right(p, i, old(Caps()), s, r, ns)
      decreases |p| - i, 0, 1
    {
      hide Play, Best, Ends, Preferred, Goes, WellFormed, BracketHas;
      ns := [];
      if At(p, i + 2) != '[' {
        MisuseHere(src, p, i, Caps(), s);
        return Error, [];  // %f wants a set
      }
      var end := ClassEndAt(p, i + 2);
      if end == None {
        MisuseHere(src, p, i, Caps(), s);
        return Error, [];
      }
      var ep := end.value;
      var previous := if s == 0 then '\0' else src[s - 1];
      var before := MatchBracketClass(previous, p, i + 2, ep - 1);
      var here := MatchBracketClass(At(src, s), p, i + 2, ep - 1);
      if before || !here {
        Stuck(src, p, i, Caps(), s);
        return NotFound, [];
      }
      FrontierGoes(src, p, i, Caps(), s);
      r, ns := Continue(p, i, s, ep, s);
    }

    /** match, when there is a single-character class at `i`. */
    method Default(p: string, i: nat, s: nat) returns (r: Result, ghost ns: seq<nat>)
      requires Valid() && s <= |src| && CapsOk(Caps(), s) && At(p, i) != '\0' && ItemAt(p, i) == PieceAt(p, i)
      modifies this`level, capture
      ensures Valid() && Right(p, i, old(Caps()), s, r, ns)
      decreases |p| - i, 0, 1
    {
      hide Play, Best, Ends, Preferred, Goes, WellFormed, ClassHas, ItemAt;
      ns := [];
      var end := ClassEndAt(p, i);
      if end == None {
        MisuseHere(src, p, i, Caps(), s);
        return Error, [];
      }
      var ep := end.value;
      var m := false;
      if s < |src| {
        m := SingleMatch(src[s], p, i, ep);
      }
      match At(p, ep) {
        case '?' =>
          r, ns := MatchOptional(p, i, ep, s, m);
        case '*' =>
          ghost var n, rest;
          r, n, rest := MaxExpand(p, i, ep, s);
          ns := [n] + rest;
          ExpandRight(p, i, ep, old(Caps()), s, r, n, rest);
        case '+' =>
          if m {
            ghost var n, rest;
            r, n, rest := MaxExpand(p, i, ep, s + 1);
            ns := [n + 1] + rest;
            PlusRight(p, i, ep, old(Caps()), s, r, n, rest);
          } else {
            NoPiece(src, p, i, Caps(), s, i, ep);
            r := NotFound;
          }
        case '-' =>
          ghost var n, rest;
          r, n, rest := MinExpand(p, i, ep, s);
          ns := [n] + rest;
          LazyRight(p, i, ep, old(Caps()), s, r, n, rest);
        case _ =>
          if !m {
            NoPiece(src, p, i, Caps(), s, i, ep);
            r := NotFound;
          } else {
            r, ns := DoMatch(p, ep, s + 1);
            OneRight(p, i, ep, old(Caps()), s, r, ns);
            ns := [1] + ns;
          }
      }
    }

    method MatchOptional(p: string, i: nat, ep: nat, s: nat, m: bool) returns (r: Result, ghost ns: seq<nat>)
      requires Valid() && s <= |src| && CapsOk(Caps(), s) && ItemAt(p, i) == Parsed(Piece(i, ep, Optional), ep + 1)
      requires m <==> s < |src| && ClassHas(p, i, ep, src[s])
      modifies this`level, capture
      ensures Valid() && Right(p, i, old(Caps()), s, r, ns)
      decreases |p| - i, 0, 0
    {
      hide Play, Best, Ends, Preferred, Goes, ClassHas, ItemAt;
      ghost var caps := Caps();
      if m {
        r, ns := DoMatch(p, ep + 1, s + 1);
        if r != NotFound {
          OptionalTaken(p, i, ep, caps, s, r, ns);
          ns := [1] + ns;
          return;
        }
      }
      r, ns := DoMatch(p, ep + 1, s);
      OptionalSkipped(p, i, ep, caps, s, m, r, ns);
      ns := [0] + ns;
    }

    /** What max_expand and min_expand promise: `n` repetitions, and `rest` for the rest. */
    ghost predicate Expanded(p: string, i: nat, ep: nat, caps: seq<Capture>, s: nat, r: Result, n: nat, rest: seq<nat>, max: bool)
      requires Valid() && s <= |src|
      reads this, capture
    {
      match r
      case Found(e) =>
        && AllIn(src, s, n, p, i, ep) && Best(src, p, ep + 1, caps, s + n, rest) && s + n <= e <= |src|
        && Play(src, p, ep + 1, caps, s + n, rest) == Match(e, Caps())
        && forall m: nat :: m != n && (m > n) == max && AllIn(src, s, m, p, i, ep) ==> !Ends(src, p, ep + 1, caps, s + m)
      case NotFound => Caps() == caps && forall m :: AllIn(src, s, m, p, i, ep) ==> !Ends(src, p, ep + 1, caps, s + m)
      case Error =>
        && AllIn(src, s, n, p, i, ep) && Best(src, p, ep + 1, caps, s + n, rest)
        && Play(src, p, ep + 1, caps, s + n, rest) == Misuse
        && forall m: nat :: m != n && (m > n) == max && AllIn(src, s, m, p, i, ep) ==> !Ends(src, p, ep + 1, caps, s + m)
    }

    /** max_expand */
    method MaxExpand(p: string, i: nat, ep: nat, s: nat) returns (r: Result, ghost n: nat, ghost rest: seq<nat>)
      requires Valid() && s <= |src| && CapsOk(Caps(), s) && i < ep < |p|
      modifies this`level, capture
      ensures Valid() && Expanded(p, i, ep, old(Caps()), s, r, n, rest, true)
      decreases |p| - i, 0, 0
    {
      hide Play, Best, Ends, Preferred, Goes, ClassHas, ItemAt, WellFormed;
      ghost var caps := Caps();
      var k: int := 0;
      while s + k < |src|
        invariant Valid() && Caps() == caps && k >= 0 && AllIn(src, s, k, p, i, ep)
      {
        var m := SingleMatch(src[s + k], p, i, ep);
        if !m {
          break;
        }
        k := k + 1;
      }
      forall m: nat | m > k ensures !AllIn(src, s, m, p, i, ep) { RunEnds(src, s, k, p, i, ep, m); }
      while k >= 0
        invariant Valid() && Caps() == caps && -1 <= k && (k >= 0 ==> AllIn(src, s, k, p, i, ep))
        invariant forall m: nat :: m > k && AllIn(src, s, m, p, i, ep) ==> !Ends(src, p, ep + 1, caps, s + m)
      {
        r, rest := DoMatch(p, ep + 1, s + k);
        n := k;
        if r != NotFound {
          return;
        }
        k := k - 1;
      }
      return NotFound, 0, [];
    }

    /** min_expand */
    method MinExpand(p: string, i: nat, ep: nat, s0: nat) returns (r: Result, ghost n: nat, ghost rest: seq<nat>)
      requires Valid() && s0 <= |src| && CapsOk(Caps(), s0) && i < ep < |p|
      modifies this`level, capture
      ensures Valid() && Expanded(p, i, ep, old(Caps()), s0, r, n, rest, false)
      decreases |p| - i, 0, 0
    {
      hide Play, Best, Ends, Preferred, Goes, ClassHas, ItemAt, WellFormed;
      ghost var caps := Caps();
      var s := s0;
      while true
        invariant Valid() && Caps() == caps && s0 <= s <= |src| && AllIn(src, s0, s - s0, p, i, ep)
        invariant forall m: nat :: m < s - s0 && AllIn(src, s0, m, p, i, ep) ==> !Ends(src, p, ep + 1, caps, s0 + m)
        decreases |src| - s
      {
        r, rest := DoMatch(p, ep + 1, s);
        n := s - s0;
        if r != NotFound {
          return;
        }
        var m := false;
        if s < |src| {
          m := SingleMatch(src[s], p, i, ep);
        }
        if m {
          s := s + 1;
        } else {
          forall m: nat | m > n ensures !AllIn(src, s0, m, p, i, ep) { RunEnds(src, s0, n, p, i, ep, m); }
          return NotFound, 0, [];
        }
      }
    }

    // -------------------------------------------------------------- pieces

    lemma ExpandRight(p: string, i: nat, ep: nat, caps: seq<Capture>, s: nat, r: Result, n: nat, rest: seq<nat>)
      requires Valid() && s <= |src| && Expanded(p, i, ep, caps, s, r, n, rest, true) && ItemAt(p, i) == Parsed(Piece(i, ep, Star), ep + 1)
      ensures Right(p, i, caps, s, r, [n] + rest)
    {
      hide Play, Best, Ends, Preferred, ClassHas, ItemAt, AllIn;
      match r {
        case NotFound => PieceNone(src, p, i, caps, s);
        case _ => PieceBest(src, p, i, caps, s, n, rest);
      }
    }

    lemma LazyRight(p: string, i: nat, ep: nat, caps: seq<Capture>, s: nat, r: Result, n: nat, rest: seq<nat>)
      requires Valid() && s <= |src| && Expanded(p, i, ep, caps, s, r, n, rest, false) && ItemAt(p, i) == Parsed(Piece(i, ep, Lazy), ep + 1)
      ensures Right(p, i, caps, s, r, [n] + rest)
    {
      hide Play, Best, Ends, Preferred, ClassHas, ItemAt, AllIn;
      match r {
        case NotFound => PieceNone(src, p, i, caps, s);
        case _ => PieceBest(src, p, i, caps, s, n, rest);
      }
    }

    lemma PlusRight(p: string, i: nat, ep: nat, caps: seq<Capture>, s: nat, r: Result, n: nat, rest: seq<nat>)
      requires Valid() && s < |src| && Expanded(p, i, ep, caps, s + 1, r, n, rest, true) && ItemAt(p, i) == Parsed(Piece(i, ep, Plus), ep + 1)
      requires ClassHas(p, i, ep, src[s])
      ensures Right(p, i, caps, s, r, [n + 1] + rest)
    {
      hide Play, Best, Ends, Preferred, ClassHas, ItemAt;
      forall m: nat ensures m > 0 ==> (AllIn(src, s, m, p, i, ep) <==> AllIn(src, s + 1, m - 1, p, i, ep)) { OneMore(src, s, m, p, i, ep); }
      hide AllIn;
      match r {
        case NotFound => PieceNone(src, p, i, caps, s);
        case _ => PieceBest(src, p, i, caps, s, n + 1, rest);
      }
    }

    lemma OneRight(p: string, i: nat, ep: nat, caps: seq<Capture>, s: nat, r: Result, rest: seq<nat>)
      requires Valid() && s < |src| && Right(p, ep, caps, s + 1, r, rest) && ItemAt(p, i) == Parsed(Piece(i, ep, One), ep)
      requires ClassHas(p, i, ep, src[s])
      ensures Right(p, i, caps, s, r, [1] + rest)
    {
      hide Play, Best, Ends, Preferred, ClassHas, ItemAt;
      match r {
        case NotFound => PieceNone(src, p, i, caps, s);
        case _ => PieceBest(src, p, i, caps, s, 1, rest);
      }
    }

    lemma OptionalTaken(p: string, i: nat, ep: nat, caps: seq<Capture>, s: nat, r: Result, rest: seq<nat>)
      requires Valid() && s < |src| && Right(p, ep + 1, caps, s + 1, r, rest) && ItemAt(p, i) == Parsed(Piece(i, ep, Optional), ep + 1)
      requires ClassHas(p, i, ep, src[s]) && r != NotFound
      ensures Right(p, i, caps, s, r, [1] + rest)
    {
      hide Play, Best, Ends, Preferred, ClassHas, ItemAt;
      PieceBest(src, p, i, caps, s, 1, rest);
    }

    lemma OptionalSkipped(p: string, i: nat, ep: nat, caps: seq<Capture>, s: nat, m: bool, r: Result, rest: seq<nat>)
      requires Valid() && s <= |src| && Right(p, ep + 1, caps, s, r, rest) && ItemAt(p, i) == Parsed(Piece(i, ep, Optional), ep + 1)
      requires m <==> s < |src| && ClassHas(p, i, ep, src[s])
      requires m ==> !Ends(src, p, ep + 1, caps, s + 1)
      ensures Right(p, i, caps, s, r, [0] + rest)
    {
      hide Play, Best, Ends, Preferred, ClassHas, ItemAt;
      match r {
        case NotFound => PieceNone(src, p, i, caps, s);
        case _ => PieceBest(src, p, i, caps, s, 0, rest);
      }
    }

    // -------------------------------------------------------------- find, match and gsub

    /** The loop of str_find_aux: the first position from `init` on where some way does not fail.
        There the pattern matches, or it is an error. */
    method Scan(p: string, i: nat, anchor: bool, init: nat) returns (r: Result, start: nat, ghost ns: seq<nat>)
      requires Valid() && init <= |src|
      modifies this`level, capture
      ensures Valid() && init <= start <= |src| && (anchor ==> start == init)
      ensures r.Found? ==> Best(src, p, i, [], start, ns) && Play(src, p, i, [], start, ns) == Match(r.end, Caps())
      ensures r == Error ==> Misused(src, p, i, [], start) && !WellFormed(p, i, [])
      ensures r == NotFound ==> start == if anchor then init else |src|
      ensures forall s :: init <= s < start || (s == start && r == NotFound) ==> !Ends(src, p, i, [], s)
    {
      hide Play, Best, Ends, Preferred, WellFormed;
      start := init;
      while true
        invariant Valid() && init <= start <= |src| && (anchor ==> start == init)
        invariant forall s :: init <= s < start ==> !Ends(src, p, i, [], s)
        decreases |src| - start
      {
        level := 0;
        assert Caps() == [];
        r, ns := DoMatch(p, i, start);
        if r != NotFound || start == |src| || anchor {
          if WellFormed(p, i, []) { WellFormedUsed(src, p, i, start); }
          return;
        }
        start := start + 1;
      }
    }

    /** One turn of the loop of str_gsub: try to match at `s`, and go on behind the match, or
        behind a character that is kept. At the end of the source there is no way on. */
    method SubstituteAt(p: string, i: nat, s: nat, repl: (nat, nat, seq<Capture>) -> string, b: string, ghost hits: seq<Hit>)
      returns (r: Result, b': string, s': nat, ghost hits': seq<Hit>, ghost seen: nat)
      requires Valid() && s <= |src| && Hits(src, p, i, repl, hits, s) && b == Output(src, hits, s) && (hits != [] ==> hits[|hits| - 1].e <= s)
      modifies this`level, capture
      ensures Valid() && (r == Error ==> Misused(src, p, i, [], s) && !WellFormed(p, i, []))
      ensures r != Error ==> s <= s' <= |src| && seen == (if s' > s then s' else s + 1) && (s' == s ==> s == |src|)
      ensures r != Error ==> Hits(src, p, i, repl, hits', seen) && b' == Output(src, hits', s') && (hits' != [] ==> hits'[|hits'| - 1].e <= s')
      ensures r != Error ==> (r.Found? <==> CanMatch(src, p, i, [], s))
      ensures if r.Found? then |hits'| == |hits| + 1 && hits'[..|hits|] == hits && hits'[|hits|].s == s else hits' == hits
    {
      hide Play, Best, Ends, Preferred, WellFormed, Hits, Output, CanMatch;
      b', s', hits', seen := b, s, hits, s;
      level := 0;
      assert Caps() == [];
      ghost var ns;
      r, ns := DoMatch(p, i, s);
      if r == Error {
        if WellFormed(p, i, []) { WellFormedUsed(src, p, i, s); }
        return;
      }
      if r.Found? {
        var text := repl(s, r.end, capture[..level]);
        OutputHit(src, hits, s, r.end, text);
        NextHit(src, p, i, repl, hits, s, r.end, Caps(), ns);
        MatchesHere(src, p, i, s, ns);
        b' := b + text;
        hits' := hits + [Hit(s, r.end, text)];
      } else {
        NextMiss(src, p, i, repl, hits, s);
        MatchesNot(src, p, i, s);
      }
      if r.Found? && r.end > s {
        s' := r.end;
      } else if s < |src| {
        OutputMore(src, hits', s, s + 1);
        assert src[s..s + 1] == [src[s]];
        b' := b' + [src[s]];
        s' := s + 1;
      }
      seen := if s' > s then s' else s + 1;
    }

    /** The loop of str_gsub. `repl` gives the replacement for a match, with its captures. */
    method Gsub(p: string, i: nat, anchor: bool, max: int, repl: (nat, nat, seq<Capture>) -> string)
      returns (ok: bool, b: string, n: nat, ghost hits: seq<Hit>, ghost seen: nat)
      requires Valid()
      modifies this`level, capture
      ensures Valid() && Hits(src, p, i, repl, hits, seen)
      ensures ok ==> b == Output(src, hits, |src|) && n == |hits| && (max >= 0 ==> n <= max)
      ensures ok && !anchor ==> n >= max || seen == |src| + 1
      ensures ok && anchor ==> (hits == [] || (|hits| == 1 && hits[0].s == 0)) && (hits != [] <==> max > 0 && CanMatch(src, p, i, [], 0))
      ensures !ok ==> |hits| < max && seen <= |src| && Misused(src, p, i, [], seen) && !WellFormed(p, i, []) && (anchor ==> seen == 0)
      ensures max <= 0 ==> ok && n == 0 && b == src
    {
      hide Play, Best, Ends, Preferred, WellFormed, Hits, Output, CanMatch;
      b, n, hits, seen := "", 0, [], 0;
      var s := 0;
      NoHits(src, p, i, repl);
      while n < max
        invariant Valid() && s <= |src| && n == |hits| && seen == s && (max >= 0 ==> n <= max)
        invariant Hits(src, p, i, repl, hits, seen) && b == Output(src, hits, s) && (hits != [] ==> hits[|hits| - 1].e <= s)
        invariant (anchor ==> s == 0 && hits == []) && (max <= 0 ==> s == 0 && n == 0 && b == "")
        decreases |src| - s
      {
        var before := s;
        var r, b', s';
        ghost var hits', seen';
        r, b', s', hits', seen' := SubstituteAt(p, i, s, repl, b, hits);
        if r == Error {
          return false, "", 0, hits, seen;
        }
        b, s, hits, seen := b', s', hits', seen';
        if r.Found? {
          n := n + 1;
        }
        if s == before || anchor {
          break;
        }
      }
      OutputMore(src, hits, s, |src|);
      assert src[s..|src|] == src[s..];
      b := b + src[s..];
      return true, b, n, hits, seen;
    }
  }
}
