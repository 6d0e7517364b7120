/** How the ways to match a pattern follow from those to match the rest of it. */
module PatternFacts {
  import opened Basics
  import opened Pattern

  /** Captures lie before `s`. */
  predicate CapsOk(caps: seq<Capture>, s: nat) {
    forall j :: 0 <= j < |caps| ==> caps[j].init <= s && (caps[j].len >= 0 ==> caps[j].init + caps[j].len <= s) && caps[j].len >= CAP_POSITION
  }

  /** An item without choice: the pattern from `i` on matches as the rest does from the new state. */
  ghost predicate Goes(src: string, p: string, i: nat, caps: seq<Capture>, s: nat, next: nat, caps': seq<Capture>, s': nat)
    requires s <= |src| && s' <= |src|
  {
    && (forall ns :: Play(src, p, i, caps, s, ns) == Play(src, p, next, caps', s', ns))
    && (forall ns, ms :: Preferred(p, i, ns, ms) == Preferred(p, next, ns, ms))
  }

  lemma GoesBest(src: string, p: string, i: nat, caps: seq<Capture>, s: nat, next: nat, caps': seq<Capture>, s': nat)
    requires s <= |src| && s' <= |src| && Goes(src, p, i, caps, s, next, caps', s')
    ensures Ends(src, p, i, caps, s) <==> Ends(src, p, next, caps', s')
    ensures forall ns :: Best(src, p, next, caps', s', ns) ==> Best(src, p, i, caps, s, ns)
  {
    hide Play, Preferred;
  }

  lemma OpenGoes(src: string, p: string, i: nat, caps: seq<Capture>, s: nat)
    requires s <= |src| && ItemAt(p, i).item.Open? && |caps| < LUA_MAXCAPTURES
    ensures var r := ItemAt(p, i);
      Goes(src, p, i, caps, s, r.next, caps + [Capture(s, if r.item.position then CAP_POSITION else CAP_UNFINISHED)], s)
  {
    hide ItemAt;
  }

  lemma ShutGoes(src: string, p: string, i: nat, caps: seq<Capture>, s: nat)
    requires s <= |src| && ItemAt(p, i).item == Shut && LastOpen(caps) >= 0
    ensures var l := LastOpen(caps); Goes(src, p, i, caps, s, ItemAt(p, i).next, caps[l := Capture(caps[l].init, s - caps[l].init)], s)
  {
    hide ItemAt;
  }

  lemma BalanceGoes(src: string, p: string, i: nat, caps: seq<Capture>, s: nat, t: nat)
    requires s <= |src| && ItemAt(p, i).item.Balance? && Balanced(src, s, t, ItemAt(p, i).item.x, ItemAt(p, i).item.y)
    ensures Goes(src, p, i, caps, s, ItemAt(p, i).next, caps, t)
  {
    hide ItemAt, Depth;
    var x, y := ItemAt(p, i).item.x, ItemAt(p, i).item.y;
    forall u | Balanced(src, s, u, x, y) ensures u == t { }
  }

  lemma FrontierGoes(src: string, p: string, i: nat, caps: seq<Capture>, s: nat)
    requires s <= |src| && ItemAt(p, i).item.Frontier?
    requires var Frontier(lo, hi) := ItemAt(p, i).item;
      hi > 0 && !BracketHas(p, lo, hi - 1, if s == 0 then '\0' else src[s - 1]) && BracketHas(p, lo, hi - 1, At(src, s))
    ensures Goes(src, p, i, caps, s, ItemAt(p, i).next, caps, s)
  {
    hide ItemAt, BracketHas;
  }

  lemma BackGoes(src: string, p: string, i: nat, caps: seq<Capture>, s: nat)
    requires s <= |src| && ItemAt(p, i).item.Back? && RefOk(caps, ItemAt(p, i).item.l)
    requires var c := caps[ItemAt(p, i).item.l as int - '1' as int];
      0 <= c.len <= |src| - s && c.init + c.len <= |src| && src[c.init..c.init + c.len] == src[s..s + c.len]
    ensures Goes(src, p, i, caps, s, ItemAt(p, i).next, caps, s + caps[ItemAt(p, i).item.l as int - '1' as int].len)
  {
    hide ItemAt;
  }

  /** `m` repetitions are possible. */
  predicate Possible(src: string, s: nat, m: nat, p: string, r: Item) {
    r.Piece? && Allowed(r.rep, m) && AllIn(src, s, m, p, r.lo, r.hi)
  }

  lemma PieceNone(src: string, p: string, i: nat, caps: seq<Capture>, s: nat)
    requires s <= |src| && ItemAt(p, i).item.Piece?
    requires forall m :: Possible(src, s, m, p, ItemAt(p, i).item) ==> !Ends(src, p, ItemAt(p, i).next, caps, s + m)
    ensures !Ends(src, p, i, caps, s)
  {
    hide ItemAt, ClassHas;
    var Parsed(item, next) := ItemAt(p, i);
    forall ns ensures Play(src, p, i, caps, s, ns) == Fail {
      if ns != [] && Possible(src, s, ns[0], p, item) {
        assert Play(src, p, next, caps, s + ns[0], ns[1..]) == Fail;
      }
    }
  }

  /** No number of repetitions preferred to `n` allows a match. */
  ghost predicate NoBetter(src: string, p: string, i: nat, caps: seq<Capture>, s: nat, n: nat)
    requires s <= |src| && ItemAt(p, i).item.Piece?
  {
    var Parsed(item, next) := ItemAt(p, i);
    forall m: nat :: m != n && (m > n) == (item.rep != Lazy) && Possible(src, s, m, p, item) ==> !Ends(src, p, next, caps, s + m)
  }

  /** The best way starts with `n` repetitions, if no preferred number allows a match. */
  lemma PieceBest(src: string, p: string, i: nat, caps: seq<Capture>, s: nat, n: nat, rest: seq<nat>)
    requires s <= |src| && ItemAt(p, i).item.Piece? && Possible(src, s, n, p, ItemAt(p, i).item)
    requires Best(src, p, ItemAt(p, i).next, caps, s + n, rest)
    requires NoBetter(src, p, i, caps, s, n)
    ensures Best(src, p, i, caps, s, [n] + rest)
    ensures Play(src, p, i, caps, s, [n] + rest) == Play(src, p, ItemAt(p, i).next, caps, s + n, rest)
  {
    hide ItemAt, ClassHas;
    var Parsed(item, next) := ItemAt(p, i);
    var ns := [n] + rest;
    assert ns[1..] == rest;
    forall ms | Play(src, p, i, caps, s, ms) != Fail ensures Preferred(p, i, ns, ms) {
      assert Possible(src, s, ms[0], p, item);
      assert Play(src, p, next, caps, s + ms[0], ms[1..]) != Fail;
      assert Ends(src, p, next, caps, s + ms[0]);
    }
  }

  /** An item that cannot go on from here: nothing matches. */
  lemma Stuck(src: string, p: string, i: nat, caps: seq<Capture>, s: nat)
    requires s <= |src|
    requires match ItemAt(p, i).item
      case Balance(x, y) => forall t :: !Balanced(src, s, t, x, y)
      case Frontier(lo, hi) => hi > 0 && (BracketHas(p, lo, hi - 1, if s == 0 then '\0' else src[s - 1]) || !BracketHas(p, lo, hi - 1, At(src, s)))
      case Back(l) =>
        RefOk(caps, l) && (var c := caps[l as int - '1' as int];
          !(0 <= c.len <= |src| - s && c.init + c.len <= |src| && src[c.init..c.init + c.len] == src[s..s + c.len]))
      case Last => s != |src|
      case _ => false
    ensures !Ends(src, p, i, caps, s)
  {
    hide ItemAt, BracketHas, Depth;
  }

  // ---------------------------------------------------------------- shapes

  lemma {:induction false} LastShapes(caps: seq<Capture>)
    ensures LastUnfinished(Shapes(caps)) == LastOpen(caps)
  {
    if caps != [] && caps[|caps| - 1].len != CAP_UNFINISHED {
      var n := |caps| - 1;
      assert Shapes(caps)[..n] == Shapes(caps[..n]);
      LastShapes(caps[..n]);
    }
  }

  lemma OpenShapes(caps: seq<Capture>, s: nat, position: bool)
    ensures Shapes(caps + [Capture(s, if position then CAP_POSITION else CAP_UNFINISHED)]) == Shapes(caps) + [if position then Position else Unfinished]
  {
  }

  lemma ShutShapes(caps: seq<Capture>, l: nat, init: nat, len: nat)
    requires l < |caps|
    ensures Shapes(caps[l := Capture(init, len)]) == Shapes(caps)[l := Finished]
  {
  }

  // ---------------------------------------------------------------- runs of characters

  /** As many characters as possible are in the class: no more repetitions are. */
  lemma RunEnds(src: string, s: nat, n: nat, p: string, lo: nat, hi: nat, m: nat)
    requires s + n <= |src| && (s + n == |src| || !ClassHas(p, lo, hi, src[s + n])) && m > n
    ensures !AllIn(src, s, m, p, lo, hi)
  {
    if s + m <= |src| { assert s <= s + n < s + m; }
  }

  // ---------------------------------------------------------------- ends and errors

  lemma GoesSame(src: string, p: string, i: nat, caps: seq<Capture>, s: nat, next: nat, caps': seq<Capture>, s': nat, ns: seq<nat>)
    requires s <= |src| && s' <= |src| && Goes(src, p, i, caps, s, next, caps', s')
    ensures Play(src, p, i, caps, s, ns) == Play(src, p, next, caps', s', ns)
  {
  }

  lemma StopHere(src: string, p: string, i: nat, caps: seq<Capture>, s: nat)
    requires s <= |src| && At(p, i) == '\0'
    ensures Best(src, p, i, caps, s, []) && Play(src, p, i, caps, s, []) == Match(s, caps)
  {
  }

  lemma LastHere(src: string, p: string, i: nat, caps: seq<Capture>, s: nat)
    requires s == |src| && At(p, i) == '$' && At(p, i + 1) == '\0'
    ensures Best(src, p, i, caps, s, []) && Play(src, p, i, caps, s, []) == Match(s, caps)
  {
  }

  lemma MisuseHere(src: string, p: string, i: nat, caps: seq<Capture>, s: nat)
    requires s <= |src| && Unusable(p, i, caps)
    ensures Best(src, p, i, caps, s, []) && Play(src, p, i, caps, s, []) == Misuse
  {
    hide ItemAt, LastOpen;
  }

  /** The items of a well-formed pattern can all be used. */
  lemma {:induction false} NeverMisused(src: string, p: string, i: nat, caps: seq<Capture>, s: nat, ns: seq<nat>)
    requires s <= |src| && CapsOk(caps, s) && WellFormed(p, i, Shapes(caps))
    ensures Play(src, p, i, caps, s, ns) != Misuse
    decreases |p| - i
  {
    hide ItemAt, BracketHas, ClassHas, LastOpen, LastUnfinished, Depth;
    var Parsed(item, next) := ItemAt(p, i);
    LastShapes(caps);
    match item {
      case Open(position) =>
        OpenShapes(caps, s, position);
        NeverMisused(src, p, next, caps + [Capture(s, if position then CAP_POSITION else CAP_UNFINISHED)], s, ns);
      case Shut =>
        var l := LastOpen(caps);
        ShutShapes(caps, l, caps[l].init, s - caps[l].init);
        NeverMisused(src, p, next, caps[l := Capture(caps[l].init, s - caps[l].init)], s, ns);
      case Balance(x, y) =>
        if exists t :: Balanced(src, s, t, x, y) {
          var t :| Balanced(src, s, t, x, y);
          BalanceGoes(src, p, i, caps, s, t);
          NeverMisused(src, p, next, caps, t, ns);
        }
      case Frontier(_, _) => NeverMisused(src, p, next, caps, s, ns);
      case Back(l) =>
        var c := caps[l as int - '1' as int];
        if 0 <= c.len <= |src| - s { NeverMisused(src, p, next, caps, s + c.len, ns); }
      case Piece(_, _, _) =>
        if ns != [] && s + ns[0] <= |src| { NeverMisused(src, p, next, caps, s + ns[0], ns[1..]); }
      case _ =>
    }
  }

  /** The order of ways is strict: there is at most one first way, and so one result. */
  lemma {:induction false} PreferredOnce(p: string, i: nat, ns: seq<nat>, ms: seq<nat>)
    requires Preferred(p, i, ns, ms) && Preferred(p, i, ms, ns)
    ensures ns == ms
    decreases |p| - i
  {
    hide ItemAt;
    var Parsed(item, next) := ItemAt(p, i);
    if ns != ms {
      if item.Piece? {
        assert ns == [ns[0]] + ns[1..] && ms == [ms[0]] + ms[1..];
        PreferredOnce(p, next, ns[1..], ms[1..]);
      } else {
        PreferredOnce(p, next, ns, ms);
      }
    }
  }

  /** Patterns that are an error wherever they are tried. */
  lemma AlwaysMisused(src: string, s: nat, p: string)
    requires s <= |src| && p in {"%", "[", "[a", "[]", "[^]", "[%", "%b", "%bx", "%f", "%fa", ")", "%1", "%0"}
    ensures Misused(src, p, 0, [], s)
  {
    hide Play, Best;
    assert Unusable(p, 0, []) by {
      assert SetEnd("[", 1) == SetEnd("[a", 1) == SetEnd("[]", 1) == SetEnd("[^]", 2) == SetEnd("[%", 1) == None;
    }
    MisuseHere(src, p, 0, [], s);
  }

  lemma WellFormedUsed(src: string, p: string, i: nat, s: nat)
    requires s <= |src| && WellFormed(p, i, [])
    ensures !Misused(src, p, i, [], s)
  {
    hide Play, Best, WellFormed;
    assert Shapes([]) == [];
    forall ns ensures Play(src, p, i, [], s, ns) != Misuse { NeverMisused(src, p, i, [], s, ns); }
  }

  lemma OneResult(src: string, p: string, i: nat, caps: seq<Capture>, s: nat, ns: seq<nat>, ms: seq<nat>)
    requires s <= |src| && Best(src, p, i, caps, s, ns) && Best(src, p, i, caps, s, ms)
    ensures ns == ms
  {
    hide Play, Preferred;
    PreferredOnce(p, i, ns, ms);
  }

  /** The class does not match here, and at least one repetition is needed. */
  lemma NoPiece(src: string, p: string, i: nat, caps: seq<Capture>, s: nat, lo: nat, hi: nat)
    requires s <= |src| && ItemAt(p, i).item.Piece? && ItemAt(p, i).item.lo == lo && ItemAt(p, i).item.hi == hi
    requires (ItemAt(p, i).item.rep == One || ItemAt(p, i).item.rep == Plus) && (s == |src| || !ClassHas(p, lo, hi, src[s]))
    ensures !Ends(src, p, i, caps, s)
  {
    hide ItemAt, ClassHas;
    forall m: nat | m > 0 ensures !AllIn(src, s, m, p, lo, hi) { RunEnds(src, s, 0, p, lo, hi, m); }
    PieceNone(src, p, i, caps, s);
  }

  lemma OneMore(src: string, s: nat, m: nat, p: string, lo: nat, hi: nat)
    requires s < |src| && ClassHas(p, lo, hi, src[s])
    ensures m > 0 ==> (AllIn(src, s, m, p, lo, hi) <==> AllIn(src, s + 1, m - 1, p, lo, hi))
  {
    hide ClassHas;
  }

  // ---------------------------------------------------------------- substitution

  /** A match that was replaced by `text`. */
  datatype Hit = Hit(s: nat, e: nat, text: string)

  /** The first match found at `h.s`, as it should be replaced. */
  ghost predicate HitOk(src: string, p: string, i: nat, repl: (nat, nat, seq<Capture>) -> string, h: Hit) {
    && h.s <= h.e <= |src|
    && exists ns, caps :: Best(src, p, i, [], h.s, ns) && Play(src, p, i, [], h.s, ns) == Match(h.e, caps) && h.text == repl(h.s, h.e, caps)
  }

  /** Position `q` lies in a match, or an empty match is there. */
  ghost predicate InHit(hits: seq<Hit>, q: nat) {
    exists k :: 0 <= k < |hits| && (hits[k].s == q || hits[k].s <= q < hits[k].e)
  }

  /** The matches below `seen`: from left to right, not overlapping, and leaving out no position
      where the pattern matches. */
  ghost predicate Hits(src: string, p: string, i: nat, repl: (nat, nat, seq<Capture>) -> string, hits: seq<Hit>, seen: nat) {
    && seen <= |src| + 1
    && (forall k :: 0 <= k < |hits| ==> HitOk(src, p, i, repl, hits[k]) && hits[k].s < seen && hits[k].e <= seen)
    && (forall j, k :: 0 <= j < k < |hits| ==> hits[j].e <= hits[k].s && hits[j].s < hits[k].s)
    && (forall q :: 0 <= q < seen && q <= |src| && Ends(src, p, i, [], q) ==> InHit(hits, q))
  }

  /** The text up to `pos` with the matches replaced. */
  ghost function Output(src: string, hits: seq<Hit>, pos: nat): string
    decreases |hits|
  {
    if hits == [] then (if pos <= |src| then src[..pos] else src)
    else
      var h := hits[|hits| - 1];
      Output(src, hits[..|hits| - 1], h.s) + h.text + (if h.e <= pos <= |src| then src[h.e..pos] else "")
  }

  lemma NoHits(src: string, p: string, i: nat, repl: (nat, nat, seq<Capture>) -> string)
    ensures Hits(src, p, i, repl, [], 0) && Output(src, [], 0) == ""
  {
  }

  lemma NextHit(src: string, p: string, i: nat, repl: (nat, nat, seq<Capture>) -> string, hits: seq<Hit>, s: nat, e: nat,
      caps: seq<Capture>, ns: seq<nat>)
    requires Hits(src, p, i, repl, hits, s) && s <= e <= |src|
    requires Best(src, p, i, [], s, ns) && Play(src, p, i, [], s, ns) == Match(e, caps)
    ensures Hits(src, p, i, repl, hits + [Hit(s, e, repl(s, e, caps))], if e > s then e else s + 1)
  {
    hide Best, Play, Ends, HitOk, InHit;
    var h := Hit(s, e, repl(s, e, caps));
    HitHere(src, p, i, repl, s, e, caps, ns);
    var seen := if e > s then e else s + 1;
    forall q | 0 <= q < seen && q <= |src| && Ends(src, p, i, [], q) ensures InHit(hits + [h], q) {
      InMoreHits(hits, h, q);
    }
  }

  lemma HitHere(src: string, p: string, i: nat, repl: (nat, nat, seq<Capture>) -> string, s: nat, e: nat, caps: seq<Capture>, ns: seq<nat>)
    requires s <= e <= |src| && Best(src, p, i, [], s, ns) && Play(src, p, i, [], s, ns) == Match(e, caps)
    ensures HitOk(src, p, i, repl, Hit(s, e, repl(s, e, caps)))
  {
    hide Best, Play;
  }

  lemma InMoreHits(hits: seq<Hit>, h: Hit, q: nat)
    requires InHit(hits, q) || h.s == q || h.s <= q < h.e
    ensures InHit(hits + [h], q)
  {
    var hits' := hits + [h];
    if InHit(hits, q) {
      var k :| 0 <= k < |hits| && (hits[k].s == q || hits[k].s <= q < hits[k].e);
      assert hits'[k] == hits[k];
    } else {
      assert hits'[|hits|] == h;
    }
  }

  lemma MatchesHere(src: string, p: string, i: nat, s: nat, ns: seq<nat>)
    requires s <= |src| && Play(src, p, i, [], s, ns).Match?
    ensures CanMatch(src, p, i, [], s)
  {
  }

  lemma MatchesNot(src: string, p: string, i: nat, s: nat)
    requires s <= |src| && !Ends(src, p, i, [], s)
    ensures !CanMatch(src, p, i, [], s)
  {
  }

  lemma NextMiss(src: string, p: string, i: nat, repl: (nat, nat, seq<Capture>) -> string, hits: seq<Hit>, s: nat)
    requires Hits(src, p, i, repl, hits, s) && s <= |src| && !Ends(src, p, i, [], s)
    ensures Hits(src, p, i, repl, hits, s + 1)
  {
    hide HitOk, Ends, InHit;
  }

  lemma OutputHit(src: string, hits: seq<Hit>, s: nat, e: nat, text: string)
    requires s <= e <= |src|
    ensures Output(src, hits + [Hit(s, e, text)], e) == Output(src, hits, s) + text
  {
    assert (hits + [Hit(s, e, text)])[..|hits|] == hits;
  }

  lemma OutputMore(src: string, hits: seq<Hit>, s: nat, t: nat)
    requires s <= t <= |src| && (hits != [] ==> hits[|hits| - 1].e <= s)
    ensures Output(src, hits, t) == Output(src, hits, s) + src[s..t]
  {
    if hits == [] {
      assert src[..t] == src[..s] + src[s..t];
    } else {
      var h := hits[|hits| - 1];
      SliceMore(Output(src, hits[..|hits| - 1], h.s) + h.text, src, h.e, s, t);
    }
  }

  lemma SliceMore(a: string, src: string, e: nat, s: nat, t: nat)
    requires e <= s <= t <= |src|
    ensures a + src[e..t] == a + src[e..s] + src[s..t]
  {
    assert src[e..t] == src[e..s] + src[s..t];
  }

  /** Replacing every match by itself changes nothing. */
  lemma {:induction false} OutputSame(src: string, hits: seq<Hit>, pos: nat)
    requires pos <= |src| && forall k :: 0 <= k < |hits| ==> hits[k].s <= hits[k].e <= pos && hits[k].text == src[hits[k].s..hits[k].e]
    requires forall j, k :: 0 <= j < k < |hits| ==> hits[j].e <= hits[k].s
    ensures Output(src, hits, pos) == src[..pos]
    decreases |hits|
  {
    if hits != [] {
      var n := |hits| - 1;
      var h := hits[n];
      OutputSame(src, hits[..n], h.s);
      assert src[..pos] == src[..h.s] + src[h.s..h.e] + src[h.e..pos];
    }
  }

  /** Whatever the pattern is, replacing its matches by themselves gives back the source. */
  lemma SelfReplacement(src: string, p: string, i: nat, repl: (nat, nat, seq<Capture>) -> string, hits: seq<Hit>, seen: nat)
    requires Hits(src, p, i, repl, hits, seen)
    requires forall s: nat, e: nat, caps :: s <= e <= |src| ==> repl(s, e, caps) == src[s..e]
    ensures Output(src, hits, |src|) == src
  {
    hide Best, Play, Ends;
    OutputSame(src, hits, |src|);
  }

  // ---------------------------------------------------------------- the manual's pattern items

  /** Section 5.4.1 of the Lua 5.1 Reference Manual: the letters of character classes, and their
      complements. */
  lemma Classes(c: char)
    ensures MatchClass(c, 'a') <==> 'a' <= c <= 'z' || 'A' <= c <= 'Z'
    ensures MatchClass(c, 'd') <==> '0' <= c <= '9'
    ensures MatchClass(c, 'l') <==> 'a' <= c <= 'z'
    ensures MatchClass(c, 'u') <==> 'A' <= c <= 'Z'
    ensures MatchClass(c, 'w') <==> MatchClass(c, 'a') || MatchClass(c, 'd')
    ensures MatchClass(c, 'x') <==> MatchClass(c, 'd') || 'a' <= c <= 'f' || 'A' <= c <= 'F'
    ensures MatchClass(c, 's') <==> c in " \t\n\r" || c == '\U{b}' || c == '\U{c}'
    ensures MatchClass(c, 'z') <==> c == '\0'
    ensures forall u, l :: (u, l) in {('A', 'a'), ('C', 'c'), ('D', 'd'), ('L', 'l'), ('P', 'p'), ('S', 's'), ('U', 'u'), ('W', 'w'), ('X', 'x'), ('Z', 'z')} ==>
      (MatchClass(c, u) <==> !MatchClass(c, l))
  {
    var spaces := " \t\n\r";
    assert spaces[0] == ' ' && spaces[1] == '\t' && spaces[2] == '\n' && spaces[3] == '\r';
  }

  /** A set with a range, and its complement. */
  lemma RangeSet(c: char)
    ensures ItemAt("[a-c]", 0) == Parsed(Piece(0, 5, One), 5) && (ClassHas("[a-c]", 0, 5, c) <==> 'a' <= c <= 'c')
    ensures ItemAt("[^a-c]", 0) == Parsed(Piece(0, 6, One), 6) && (ClassHas("[^a-c]", 0, 6, c) <==> c < 'a' || c > 'c')
  {
    var p, q := "[a-c]", "[^a-c]";
    assert !SetHas(p, 4, 4, c) && !SetHas(q, 5, 5, c);
    assert SetHas(p, 1, 4, c) <==> 'a' <= c <= 'c';
    assert SetHas(q, 2, 5, c) <==> 'a' <= c <= 'c';
    assert SetEnd(p, 3) == Some(5) && SetEnd(p, 2) == Some(5) && SetEnd(p, 1) == Some(5);
    assert SetEnd(q, 4) == Some(6) && SetEnd(q, 3) == Some(6) && SetEnd(q, 2) == Some(6);
  }

  /** How often `.` is repeated first: as often as possible, but for `-` not at all. */
  lemma Repetitions(src: string, s: nat)
    requires s <= |src|
    ensures Best(src, ".*", 0, [], s, [|src| - s]) && Best(src, ".-", 0, [], s, [0])
    ensures s < |src| ==> Best(src, ".+", 0, [], s, [|src| - s]) && Best(src, ".?", 0, [], s, [1])
    ensures s == |src| ==> !Ends(src, ".+", 0, [], s) && Best(src, ".?", 0, [], s, [0])
  {
    hide Play, Best, Ends, Preferred, DotItem;
    assert DotItem(".*", Star) && DotItem(".-", Lazy) && DotItem(".+", Plus) && DotItem(".?", Optional) by { DotItems(); }
    DotBest(src, ".*", Star, s, |src| - s);
    DotBest(src, ".-", Lazy, s, 0);
    if s < |src| {
      DotBest(src, ".+", Plus, s, |src| - s);
      DotBest(src, ".?", Optional, s, 1);
    } else {
      DotBest(src, ".?", Optional, s, 0);
      DotNone(src, ".+", s);
    }
  }

  /** The pattern is `.` with a sign for its repetition. */
  predicate DotItem(p: string, rep: Rep) {
    ItemAt(p, 0) == Parsed(Piece(0, 1, rep), 2) && At(p, 0) == '.' && At(p, 2) == '\0'
  }

  lemma DotItems()
    ensures DotItem(".*", Star) && DotItem(".-", Lazy) && DotItem(".+", Plus) && DotItem(".?", Optional)
  {
  }

  lemma DotPlay(src: string, p: string, rep: Rep, s: nat, ns: seq<nat>)
    requires s <= |src| && DotItem(p, rep)
    ensures Play(src, p, 0, [], s, ns) == if |ns| == 1 && Allowed(rep, ns[0]) && s + ns[0] <= |src| then Match(s + ns[0], []) else Fail
  {
    assert ItemAt(p, 2).item == Stop;
    hide ItemAt;
    if |ns| == 1 { assert ns[1..] == []; }
    if ns != [] && s + ns[0] <= |src| { assert AllIn(src, s, ns[0], p, 0, 1); }
  }

  lemma DotBest(src: string, p: string, rep: Rep, s: nat, n: nat)
    requires DotItem(p, rep) && s + n <= |src| && Allowed(rep, n)
    requires forall m: nat :: Allowed(rep, m) && s + m <= |src| && m != n ==> (n > m) == (rep != Lazy)
    ensures Best(src, p, 0, [], s, [n])
  {
    hide Play, ItemAt;
    DotPlay(src, p, rep, s, [n]);
    forall ms | Play(src, p, 0, [], s, ms) != Fail ensures Preferred(p, 0, [n], ms) {
      DotPlay(src, p, rep, s, ms);
      if ms[0] == n { assert ms == [n]; }
    }
  }

  lemma DotNone(src: string, p: string, s: nat)
    requires s == |src| && DotItem(p, Plus)
    ensures !Ends(src, p, 0, [], s)
  {
    hide Play, DotItem;
    forall ns ensures Play(src, p, 0, [], s, ns) == Fail { DotPlay(src, p, Plus, s, ns); }
  }

  // ---------------------------------------------------------------- plain text

  const SPECIALS := "^$*+?.([%-"

  predicate Occurs(src: string, t: string, s: nat) {
    s + |t| <= |src| && src[s..s + |t|] == t
  }

  /** The length of a C string: a pattern ends at its first zero. */
  function StrLen(p: string): (n: nat)
    ensures n <= |p| && At(p, n) == '\0' && forall k :: 0 <= k < n ==> p[k] != '\0'
  {
    if p == "" || p[0] == '\0' then 0 else 1 + StrLen(p[1..])
  }

  /** strpbrk finds no special character: `find` takes the pattern for plain text. */
  predicate Plain(p: string) {
    forall k :: 0 <= k < StrLen(p) ==> p[k] !in SPECIALS
  }

  /** Searching for the text gives what matching the pattern would give. */
  ghost predicate SearchAgrees(p: string) {
    forall src: string, s: nat :: s <= |src| ==> (CanMatch(src, p, 0, [], s) <==> Occurs(src, p, s))
  }

  /** A character that is neither special nor `)` is a class of its own. */
  lemma PlainItem(p: string, i: nat, c: char)
    requires Plain(p) && i < StrLen(p) && p[i] != ')'
    ensures ItemAt(p, i) == Parsed(Piece(i, i + 1, One), i + 1) && (ClassHas(p, i, i + 1, c) <==> c == p[i])
  {
    if i + 1 < StrLen(p) { assert p[i + 1] !in SPECIALS; }
  }

  lemma OccursStarts(src: string, t: string, s: nat)
    requires Occurs(src, t, s) && t != ""
    ensures s < |src| && src[s] == t[0]
  {
    assert src[s..s + |t|][0] == src[s];
  }

  lemma OccursNext(src: string, t: string, s: nat)
    requires t != "" && s < |src| && src[s] == t[0]
    ensures Occurs(src, t, s) <==> Occurs(src, t[1..], s + 1)
  {
    if s + |t| <= |src| {
      assert src[s..s + |t|] == [src[s]] + src[s + 1..s + |t|];
      assert t == [t[0]] + t[1..];
    }
  }

  function Ones(n: nat): seq<nat> { if n == 0 then [] else [1] + Ones(n - 1) }

  /** A plain character of the pattern matches itself, once. */
  lemma PlainStep(src: string, p: string, i: nat, caps: seq<Capture>, s: nat, ns: seq<nat>)
    requires Plain(p) && i < StrLen(p) && p[i] != ')' && s <= |src|
    ensures Play(src, p, i, caps, s, ns) ==
      if ns != [] && ns[0] == 1 && s < |src| && src[s] == p[i] then Play(src, p, i + 1, caps, s + 1, ns[1..]) else Fail
  {
    hide ItemAt, ClassHas, StrLen;
    PlainItem(p, i, At(src, s));
  }

  /** Without a `)` the pattern matches where its text up to the first zero occurs. */
  lemma {:induction false} PlainMatches(src: string, p: string, i: nat, caps: seq<Capture>, s: nat, ns: seq<nat>)
    requires Plain(p) && i <= StrLen(p) && s <= |src| && ')' !in p[..StrLen(p)]
    ensures Play(src, p, i, caps, s, ns) ==
      if Occurs(src, p[i..StrLen(p)], s) && ns == Ones(StrLen(p) - i) then Match(s + StrLen(p) - i, caps) else Fail
    decreases StrLen(p) - i
  {
    hide Play, StrLen, Occurs;
    var n := StrLen(p);
    if i == n {
      PlainEnd(src, p, caps, s, ns);
    } else {
      assert p[i] == p[..n][i];
      PlainStep(src, p, i, caps, s, ns);
      var t := p[i..n];
      assert t[1..] == p[i + 1..n];
      if ns != [] && ns[0] == 1 && s < |src| && src[s] == p[i] {
        PlainMatches(src, p, i + 1, caps, s + 1, ns[1..]);
        assert ns == [1] + ns[1..];
        OccursNext(src, t, s);
      } else if Occurs(src, t, s) {
        OccursStarts(src, t, s);
      }
    }
  }

  lemma PlainEnd(src: string, p: string, caps: seq<Capture>, s: nat, ns: seq<nat>)
    requires s <= |src|
    ensures Play(src, p, StrLen(p), caps, s, ns) == if ns == [] then Match(s, caps) else Fail
    ensures Occurs(src, p[StrLen(p)..StrLen(p)], s)
  {
    assert ItemAt(p, StrLen(p)).item == Stop && p[StrLen(p)..StrLen(p)] == "";
  }

  /** With a `)` it matches nowhere: no capture is open. */
  lemma {:induction false} ShutFails(src: string, p: string, i: nat, s: nat, ns: seq<nat>)
    requires Plain(p) && i <= StrLen(p) && s <= |src| && ')' in p[i..StrLen(p)]
    ensures !Play(src, p, i, [], s, ns).Match?
    decreases StrLen(p) - i
  {
    hide StrLen, ClassHas;
    var n := StrLen(p);
    if p[i] == ')' {
      assert ItemAt(p, i).item == Shut && LastOpen([]) == -1;
    } else {
      PlainItem(p, i, ' ');
      assert p[i..n] == [p[i]] + p[i + 1..n];
      if ns != [] && s + ns[0] <= |src| { ShutFails(src, p, i + 1, s + ns[0], ns[1..]); }
    }
  }

  /** The shortcut of `find` is right for a pattern, whatever it is searched in, exactly when the
      pattern has neither a `)` nor a zero. */
  lemma PlainSearchExact(p: string)
    requires Plain(p)
    ensures SearchAgrees(p) <==> ')' !in p && '\0' !in p
  {
    hide Play, StrLen, Occurs;
    if ')' !in p && '\0' !in p {
      forall src: string, s: nat | s <= |src| ensures CanMatch(src, p, 0, [], s) <==> Occurs(src, p, s) { PlainSearch(src, p, s); }
    } else {
      var src, s := PlainSearchWrong(p);
    }
  }

  lemma PlainSearch(src: string, p: string, s: nat)
    requires Plain(p) && s <= |src| && ')' !in p && '\0' !in p
    ensures CanMatch(src, p, 0, [], s) <==> Occurs(src, p, s)
  {
    hide Play;
    var n := StrLen(p);
    assert n == |p| && p[..n] == p[0..n] == p;
    PlainMatches(src, p, 0, [], s, Ones(n));
    forall ns | Play(src, p, 0, [], s, ns).Match? ensures Occurs(src, p, s) { PlainMatches(src, p, 0, [], s, ns); }
  }

  /** Where search and match differ: with a `)` the text is found, but not matched; with a zero,
      what comes before the zero is matched, but the whole text is not found. */
  lemma PlainSearchWrong(p: string) returns (src: string, s: nat)
    requires Plain(p) && (')' in p || '\0' in p)
    ensures s <= |src| && CanMatch(src, p, 0, [], s) != Occurs(src, p, s)
    ensures ')' in p[..StrLen(p)] ==> src == p && s == 0 && Occurs(src, p, s)
  {
    hide Play;
    var n := StrLen(p);
    s := 0;
    if ')' in p[..n] {
      src := p;
      assert p[0..n] == p[..n] && src[0..0 + |p|] == p;
      forall ns ensures !Play(src, p, 0, [], 0, ns).Match? { ShutFails(src, p, 0, 0, ns); }
    } else {
      src := p[..n];
      assert p[..|p|] == p && n < |p|;
      assert src[0..0 + n] == p[0..n];
      PlainMatches(src, p, 0, [], 0, Ones(n));
    }
  }

  /** The smallest such patterns. */
  lemma PlainSearchExamples()
    ensures Plain(")") && Occurs(")", ")", 0) && !CanMatch(")", ")", 0, [], 0)
    ensures Plain("a\0b") && CanMatch("a", "a\0b", 0, [], 0) && !Occurs("a", "a\0b", 0)
  {
    hide Play;
    assert StrLen(")") == 1 && ")"[..1] == ")" by { assert ")"[1..] == ""; }
    var src, s := PlainSearchWrong(")");
    var p := "a\0b";
    assert StrLen(p) == 1 by { assert p[1..][0] == '\0'; }
    assert p[..1] == "a" == p[0..1] && "a"[0..1] == "a";
    PlainMatches("a", p, 0, [], 0, Ones(1));
  }
}
