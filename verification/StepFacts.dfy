/** How the heap's structure survives the steps that change it. */
module StepFacts {
  import opened Basics
  import opened Objects
  import opened MarkFacts
  import opened HeapFacts

  /** Open upvalues are never black. */
  ghost predicate OpenGray(h: Heap, c: Marks) {
    forall u :: u in h && h[u].OpenUpval? && u in c ==> c[u] != Black
  }

  /** Only strings and the main thread have the fixed bit. */
  ghost predicate FixedOk(h: Heap, fixed: set<Id>, main: Id) {
    forall x :: x in fixed ==> x in h && (h[x].Str? || x == main)
  }

  /** The heap after open upvalue `u` left the list of its thread: it is gone or closed. */
  ghost predicate Unlinking(h: Heap, h': Heap, u: Id)
    requires u in h && h[u].OpenUpval? && h[u].th in h && h[h[u].th].Thread?
  {
    var th := h[u].th;
    && (h'.Keys == h.Keys || h'.Keys == h.Keys - {u})
    && (u in h' ==> h'[u].ClosedUpval?)
    && th in h' && h'[th] == h[th].(open := Without(h[th].open, u))
    && (forall x :: x in h' && x != u && x != th ==> h'[x] == h[x])
  }

  /** Open upvalues are sorted by level, the highest first. */
  ghost predicate Descending(h: Heap, l: seq<Id>)
    requires forall x :: x in l ==> x in h && h[x].OpenUpval?
  {
    forall i, j :: 0 <= i < j < |l| ==> h[l[i]].level > h[l[j]].level
  }

  lemma DescendingOnce(h: Heap, l: seq<Id>)
    requires forall x :: x in l ==> x in h && h[x].OpenUpval?
    requires Descending(h, l)
    ensures NoDup(l)
  {
  }

  lemma DescendingTail(h: Heap, l: seq<Id>)
    requires forall x :: x in l ==> x in h && h[x].OpenUpval?
    requires Descending(h, l) && l != []
    ensures Descending(h, l[1..]) && forall x :: x in l[1..] ==> h[l[0]].level > h[x].level
  {
  }

  lemma DescendingCons(h: Heap, y: Id, r: seq<Id>)
    requires forall x :: x in [y] + r ==> x in h && h[x].OpenUpval?
    requires (forall x :: x in r ==> x in [y] + r) && Descending(h, r) && forall x :: x in r ==> h[y].level > h[x].level
    ensures Descending(h, [y] + r)
  {
  }

  lemma {:induction false} DescendingWithout(h: Heap, l: seq<Id>, u: Id)
    requires forall x :: x in l ==> x in h && h[x].OpenUpval?
    requires Descending(h, l)
    ensures (forall x :: x in Without(l, u) ==> x in l && x != u) && Descending(h, Without(l, u))
  {
    hide Descending, NoDup;
    DescendingOnce(h, l);
    WithoutElems(l, u);
    if l != [] {
      DescendingTail(h, l);
      if l[0] != u {
        DescendingWithout(h, l[1..], u);
        DescendingCons(h, l[0], Without(l[1..], u));
      }
    }
  }

  lemma WithoutOrder(h: Heap, l: seq<Id>, u: Id)
    requires forall x :: x in l ==> x in h && h[x].OpenUpval?
    requires forall i, j :: 0 <= i < j < |l| ==> h[l[i]].level > h[l[j]].level
    ensures NoDup(l) && forall x :: x in Without(l, u) ==> x in l && x != u
    ensures forall i, j :: 0 <= i < j < |Without(l, u)| ==> h[Without(l, u)[i]].level > h[Without(l, u)[j]].level
  {
    hide Without;
    DescendingOnce(h, l);
    DescendingWithout(h, l, u);
  }

  lemma UnlinkedThread(h: Heap, h': Heap, u: Id, t: Id)
    requires t in h && h[t].Thread? && OpenOk(h, t)
    requires u in h && h[u].OpenUpval? && h[u].th in h && h[h[u].th].Thread? && Unlinking(h, h', u)
    ensures t in h' && h'[t].Thread? && h'[t].open == Without(h[t].open, u)
    ensures OpenOk(h', t) && forall x :: x in h'[t].open <==> x in h[t].open && x != u
  {
    hide Without;
    WithoutOrder(h, h[t].open, u);
    WithoutElems(h[t].open, u);
    if t != h[u].th { assert u !in h[t].open; }
    forall x | x in h'[t].open ensures x in h' && h'[x] == h[x] { assert x in h[t].open; }
  }

  lemma Unlinked(h: Heap, h': Heap, u: Id, uvhead: seq<Id>)
    requires UpvalsOk(h, uvhead) && u in h && h[u].OpenUpval? && Unlinking(h, h', u)
    ensures UpvalsOk(h', Without(uvhead, u))
  {
    hide OpenOk, Without;
    WithoutElems(uvhead, u);
    forall t | t in h' && h'[t].Thread? ensures OpenOk(h', t) {
      UnlinkedThread(h, h', u, t);
    }
    forall x | x in h' && h'[x].OpenUpval?
      ensures h'[x].th in h' && h'[h'[x].th].Thread? && x in h'[h'[x].th].open
    {
      assert h'[x] == h[x];
      UnlinkedThread(h, h', u, h[x].th);
    }
    forall x ensures x in Without(uvhead, u) <==> x in h' && h'[x].OpenUpval? {
      if x in h && h[x].OpenUpval? && x != u { assert x in h' && h'[x] == h[x]; }
    }
  }

  /** An upvalue keeps its reference when it is closed, and nothing else changes. */
  lemma UnlinkedRefs(h: Heap, h': Heap, u: Id, uvhead: seq<Id>)
    requires UpvalsOk(h, uvhead) && u in h && h[u].OpenUpval? && Unlinking(h, h', u)
    requires u in h' ==> h'[u] == ClosedUpval(h[h[u].th].stack[h[u].level])
    ensures SameRefs(h, h', u)
  {
    assert OpenOk(h, h[u].th);
    forall x | x in h && x in h' ensures RefsOf(h', x) == RefsOf(h, x) {
    }
  }

  /** Moving the value of an open upvalue from the stack into the upvalue itself. */
  function Moved(h: Heap, th: Id, u: Id): Heap
    requires th in h && h[th].Thread? && u in h && h[u].OpenUpval? && h[u].level < |h[th].stack|
  {
    h[th := h[th].(open := Without(h[th].open, u))][u := ClosedUpval(h[th].stack[h[u].level])]
  }

  /** Freeing an open upvalue. */
  function Cut(h: Heap, th: Id, u: Id): Heap
    requires th in h && h[th].Thread?
  {
    h[th := h[th].(open := Without(h[th].open, u))] - {u}
  }

  lemma CutUnlinking(h: Heap, th: Id, u: Id, uvhead: seq<Id>)
    requires UpvalsOk(h, uvhead) && th in h && h[th].Thread? && u in h && h[u].OpenUpval? && h[u].th == th
    ensures Cut(h, th, u).Keys == h.Keys - {u} && Unlinking(h, Cut(h, th, u), u) && SameRefs(h, Cut(h, th, u), u)
    ensures th in Cut(h, th, u) && Cut(h, th, u)[th] == h[th].(open := Without(h[th].open, u))
  {
    UnlinkedRefs(h, Cut(h, th, u), u, uvhead);
  }

  lemma CutGray(h: Heap, c: Marks, th: Id, u: Id)
    requires OpenGray(h, c) && th in h && h[th].Thread?
    ensures OpenGray(Cut(h, th, u), c - {u})
  {
  }

  lemma MovedUnlinking(h: Heap, th: Id, u: Id, uvhead: seq<Id>)
    requires UpvalsOk(h, uvhead) && th in h && h[th].Thread? && u in h && h[u].OpenUpval? && h[u].th == th && h[u].level < |h[th].stack|
    ensures Moved(h, th, u).Keys == h.Keys && Unlinking(h, Moved(h, th, u), u) && SameRefs(h, Moved(h, th, u), u)
    ensures Moved(h, th, u)[u].ClosedUpval? && Moved(h, th, u)[th] == h[th].(open := Without(h[th].open, u))
  {
    UnlinkedRefs(h, Moved(h, th, u), u, uvhead);
  }

  /** Objects were put at the head of the list `r`; a sweep that has begun stays where it was. */
  ghost predicate Shifted(r: seq<Id>, k: nat, r': seq<Id>, k': nat) {
    |r'| >= |r| && r'[|r'| - |r|..] == r && k' == (if k == 0 then 0 else k + |r'| - |r|)
  }

  lemma ShiftedSelf(r: seq<Id>, k: nat)
    ensures Shifted(r, k, r, k)
  {
  }

  /** The first open upvalue of a thread, and what is left without it. */
  lemma FirstOpen(h: Heap, uvhead: seq<Id>, th: Id)
    requires UpvalsOk(h, uvhead) && th in h && h[th].Thread? && h[th].open != []
    ensures var open := h[th].open; var u := open[0];
      && u in h && h[u].OpenUpval? && h[u].th == th && h[u].level < |h[th].stack|
      && Without(open, u) == open[1..] && |Without(uvhead, u)| == |uvhead| - 1
      && forall x :: x in open[1..] ==> x in open && x != u && x != th && x in h && h[x].OpenUpval?
  {
    var open := h[th].open;
    var u := open[0];
    assert OpenOk(h, th) && u in open && u in uvhead;
    WithoutElems(uvhead, u);
    WithoutOrder(h, open, u);
    assert Without(open, u) == open[1..];
  }

  lemma OpenThere(h: Heap, uvhead: seq<Id>, th: Id)
    requires UpvalsOk(h, uvhead) && th in h && h[th].Thread?
    ensures OpenOk(h, th) && forall x :: x in h[th].open ==> x in h && h[x].OpenUpval?
  {
  }

  lemma ShiftedOne(r0: seq<Id>, k0: nat, r: seq<Id>, k: nat, u: Id)
    requires Shifted(r0, k0, r, k)
    ensures Shifted(r0, k0, [u] + r, if k == 0 then 0 else k + 1)
  {
    var r' := [u] + r;
    assert r'[|r'| - |r0|..] == r[|r| - |r0|..];
  }

  lemma UnlinkedStrings(h: Heap, h': Heap, u: Id, strt: seq<seq<Id>>, hash: string -> nat)
    requires StringsOk(h, strt, hash) && u in h && h[u].OpenUpval? && h[u].th in h && h[h[u].th].Thread? && Unlinking(h, h', u)
    ensures StringsOk(h', strt, hash)
  {
  }

  lemma NotRooted(u: Id, h: Heap, rootgc: seq<Id>)
    requires LinksOk(h, rootgc) && u in h && !Rooted(h[u])
    ensures u !in rootgc
  {
  }

  lemma UnlinkedLinks(h: Heap, h': Heap, u: Id, rootgc: seq<Id>)
    requires LinksOk(h, rootgc) && u in h && h[u].OpenUpval? && h[u].th in h && h[h[u].th].Thread? && Unlinking(h, h', u)
    ensures LinksOk(h', if u in h' then [u] + rootgc else rootgc)
  {
    if u in h' {
      var r := [u] + rootgc;
      forall i, j | 0 <= i < j < |r| ensures r[i] != r[j] {
        if i == 0 { assert r[j] in rootgc; } else { assert rootgc[i - 1] != rootgc[j - 1]; }
      }
    }
  }

  // ---------------------------------------------------------------- phases

  datatype GcState = Pause | Propagate | SweepString | Sweep | Finalize

  /** What the sweep phases have done so far. */
  ghost predicate Settled(g: GcState, h: Heap, c: Marks, cw: bool, strt: seq<seq<Id>>, n: nat, rootgc: seq<Id>, k: nat) {
    match g
    case Pause => AllWhite(h, c, cw)
    case Finalize => AllWhite(h, c, cw)
    case Propagate => true
    case SweepString => k == 0 && n < |strt| && BucketsWhite(c, cw, strt, n)
    case Sweep => k <= |rootgc| && StringsWhite(h, c, cw) && SweptWhite(h, c, cw, rootgc[..k])
  }

  /** What is new, and what had the current white, has the current white. */
  ghost predicate Paler(c: Marks, c': Marks, cw: bool) {
    forall x :: x in c' ==> c'[x] == White(cw) || (x in c && c[x] != White(cw))
  }

  /** Strings found or added are white, unless they were there before. */
  ghost predicate SameBuckets(h: Heap, c': Marks, cw: bool, h': Heap, strt: seq<seq<Id>>, strt': seq<seq<Id>>) {
    && |strt'| == |strt|
    && (forall i, x :: 0 <= i < |strt| && x in strt'[i] ==> x in strt[i] || IsWhite(c', cw, x))
  }

  /** Whatever is new in the swept part of `rootgc` is white. */
  ghost predicate SameSwept(h': Heap, c': Marks, cw: bool, swept: seq<Id>, swept': seq<Id>) {
    forall x :: x in swept' ==> x in swept || (IsWhite(c', cw, x) && (x in h' && h'[x].Thread? ==> h'[x].open == []))
  }

  /** Threads gain no upvalues but white ones. */
  ghost predicate SameOpen(h: Heap, h': Heap, c': Marks, cw: bool) {
    forall t :: t in h' && h'[t].Thread? ==>
      if t in h && h[t].Thread? then forall u :: u in h'[t].open ==> u in h[t].open || IsWhite(c', cw, u) else h'[t].open == []
  }

  ghost predicate SameStrings(h: Heap, h': Heap, c': Marks, cw: bool) {
    forall x :: x in h' && h'[x].Str? ==> IsWhite(c', cw, x) || (x in h && h[x].Str?)
  }

  lemma SweptKept(h: Heap, c: Marks, cw: bool, swept: seq<Id>, h': Heap, c': Marks, swept': seq<Id>, x: Id)
    requires SweptWhite(h, c, cw, swept) && Paler(c, c', cw) && c'.Keys == h'.Keys
    requires x in swept' && x in h' && (h'[x].Thread? ==> forall u :: u in h'[x].open ==> u in h')
    requires SameSwept(h', c', cw, swept, swept') && SameOpen(h, h', c', cw)
    ensures IsWhite(c', cw, x) && (h'[x].Thread? ==> forall u :: u in h'[x].open ==> IsWhite(c', cw, u))
  {
  }

  lemma SettledKept(g: GcState, h: Heap, c: Marks, cw: bool, strt: seq<seq<Id>>, n: nat, rootgc: seq<Id>, k: nat,
      h': Heap, c': Marks, strt': seq<seq<Id>>, rootgc': seq<Id>, k': nat, uvhead': seq<Id>, hash: string -> nat)
    requires Settled(g, h, c, cw, strt, n, rootgc, k) && Paler(c, c', cw) && c'.Keys == h'.Keys
    requires StringsOk(h', strt', hash) && LinksOk(h', rootgc') && UpvalsOk(h', uvhead')
    requires g == SweepString ==> k' == 0 && SameBuckets(h, c', cw, h', strt, strt')
    requires g == Sweep ==> k' <= |rootgc'| && k <= |rootgc| && SameSwept(h', c', cw, rootgc[..k], rootgc'[..k'])
    requires SameOpen(h, h', c', cw) && SameStrings(h, h', c', cw)
    ensures Settled(g, h', c', cw, strt', n, rootgc', k')
  {
    hide StringsOk, LinksOk, UpvalsOk, SameOpen, SameSwept, SweptWhite, SameBuckets, SameStrings, StringsWhite, BucketsWhite, Paler, AllWhite;
    match g {
      case Sweep =>
        StringsKept(h, c, cw, h', c');
        SweptAll(h, c, cw, rootgc[..k], h', c', rootgc', k', uvhead');
      case SweepString =>
        BucketsKept(h, c, cw, strt, n, h', c', strt', hash);
      case _ =>
        if g != Propagate { WhitesKept(h, c, cw, h', c'); }
    }
  }

  lemma StringsKept(h: Heap, c: Marks, cw: bool, h': Heap, c': Marks)
    requires StringsWhite(h, c, cw) && Paler(c, c', cw) && c'.Keys == h'.Keys && SameStrings(h, h', c', cw)
    ensures StringsWhite(h', c', cw)
  {
  }

  lemma WhitesKept(h: Heap, c: Marks, cw: bool, h': Heap, c': Marks)
    requires AllWhite(h, c, cw) && Paler(c, c', cw) && c'.Keys == h'.Keys
    ensures AllWhite(h', c', cw)
  {
  }

  lemma BucketsKept(h: Heap, c: Marks, cw: bool, strt: seq<seq<Id>>, n: nat, h': Heap, c': Marks, strt': seq<seq<Id>>, hash: string -> nat)
    requires BucketsWhite(c, cw, strt, n) && Paler(c, c', cw) && c'.Keys == h'.Keys && n < |strt|
    requires StringsOk(h', strt', hash) && SameBuckets(h, c', cw, h', strt, strt')
    ensures n < |strt'| && BucketsWhite(c', cw, strt', n)
  {
    forall i, x | 0 <= i < n && i < |strt'| && x in strt'[i] ensures IsWhite(c', cw, x) {
      if x in strt[i] { assert IsWhite(c, cw, x) && x in h'; }
    }
  }

  lemma SweptAll(h: Heap, c: Marks, cw: bool, swept: seq<Id>, h': Heap, c': Marks, rootgc': seq<Id>, k': nat, uvhead': seq<Id>)
    requires SweptWhite(h, c, cw, swept) && Paler(c, c', cw) && c'.Keys == h'.Keys
    requires LinksOk(h', rootgc') && UpvalsOk(h', uvhead') && k' <= |rootgc'|
    requires SameSwept(h', c', cw, swept, rootgc'[..k']) && SameOpen(h, h', c', cw)
    ensures SweptWhite(h', c', cw, rootgc'[..k'])
  {
    forall x | x in rootgc'[..k']
      ensures IsWhite(c', cw, x) && (x in h' && h'[x].Thread? ==> forall u :: u in h'[x].open ==> IsWhite(c', cw, u))
    {
      hide SameSwept, SameOpen, SweptWhite, Paler;
      assert x in rootgc';
      assert h'[x].Thread? ==> OpenOk(h', x);
      SweptKept(h, c, cw, swept, h', c', rootgc'[..k'], x);
    }
  }

  /** The structure of the heap and of its lists. */
  ghost predicate Shape(h: Heap, c: Marks, rootgc: seq<Id>, uvhead: seq<Id>, strt: seq<seq<Id>>, hash: string -> nat,
      main: Id, run: Id, fixed: set<Id>)
  {
    && c.Keys == h.Keys
    && LinksOk(h, rootgc) && UpvalsOk(h, uvhead) && StringsOk(h, strt, hash)
    && main in h && h[main].Thread? && run in h && h[run].Thread?
    && FixedOk(h, fixed, main) && OpenGray(h, c)
  }

  lemma UnlinkedShape(h: Heap, c: Marks, rootgc: seq<Id>, uvhead: seq<Id>, strt: seq<seq<Id>>, hash: string -> nat,
      main: Id, run: Id, fixed: set<Id>, h': Heap, c': Marks, u: Id)
    requires Shape(h, c, rootgc, uvhead, strt, hash, main, run, fixed)
    requires u in h && h[u].OpenUpval? && h[u].th in h && h[h[u].th].Thread? && Unlinking(h, h', u)
    requires c'.Keys == h'.Keys && OpenGray(h', c')
    ensures Shape(h', c', if u in h' then [u] + rootgc else rootgc, Without(uvhead, u), strt, hash, main, run, fixed)
  {
    hide UpvalsOk, LinksOk, StringsOk, FixedOk, Unlinking, OpenGray, Without;
    UnlinkedRest(h, h', u, fixed, main, run);
    Unlinked(h, h', u, uvhead);
    UnlinkedLinks(h, h', u, rootgc);
    UnlinkedStrings(h, h', u, strt, hash);
  }

  lemma MovedStart(h: Heap, c: Marks, rootgc: seq<Id>, uvhead: seq<Id>, strt: seq<seq<Id>>, hash: string -> nat,
      main: Id, run: Id, fixed: set<Id>, th: Id, u: Id)
    requires Shape(h, c, rootgc, uvhead, strt, hash, main, run, fixed)
    requires th in h && h[th].Thread? && u in h && h[u].OpenUpval? && h[u].th == th && h[u].level < |h[th].stack|
    ensures c.Keys == h.Keys == Moved(h, th, u).Keys && u !in rootgc
    ensures Unlinking(h, Moved(h, th, u), u) && SameRefs(h, Moved(h, th, u), u) && Moved(h, th, u)[u].ClosedUpval?
  {
    hide UpvalsOk, LinksOk, StringsOk, FixedOk, OpenGray, Unlinking, SameRefs, Moved, Without;
    NotRooted(u, h, rootgc);
    MovedUnlinking(h, th, u, uvhead);
  }

  /** An upvalue that is not dead was closed: the lists again describe the heap. */
  lemma LiveClosed(g: GcState, h: Heap, c: Marks, cw: bool, strt: seq<seq<Id>>, n: nat, rootgc: seq<Id>, k: nat, uvhead: seq<Id>, hash: string -> nat,
      main: Id, run: Id, fixed: set<Id>, h': Heap, c': Marks, gray': seq<Id>, again': seq<Id>, k': nat, u: Id)
    requires Shape(h, c, rootgc, uvhead, strt, hash, main, run, fixed) && Settled(g, h, c, cw, strt, n, rootgc, k)
    requires u in h && h[u].OpenUpval? && h[u].th in h && h[h[u].th].Thread? && Unlinking(h, h', u) && !Dead(c, cw, u)
    requires c'.Keys == h'.Keys == h.Keys && k' == (if k == 0 then k else k + 1)
    requires if g == Propagate then Marking(h', c', cw, gray', again', {}) else c' == (if c[u] == Gray then c[u := White(cw)] else c)
    ensures Shape(h', c', [u] + rootgc, Without(uvhead, u), strt, hash, main, run, fixed)
    ensures Settled(g, h', c', cw, strt, n, [u] + rootgc, k')
  {
    hide UpvalsOk, LinksOk, StringsOk, FixedOk, OpenGray, Unlinking, Marking, Settled, Without, Dead;
    if g == Propagate {
      MarkingOpenGray(h', c', cw, gray', again');
      MarkingSettled(h', c', cw, strt, n, [u] + rootgc, k');
    } else {
      ClosedSettled(g, h, c, cw, strt, n, rootgc, k, h', c', k', uvhead, hash, u);
    }
    UnlinkedShape(h, c, rootgc, uvhead, strt, hash, main, run, fixed, h', c', u);
  }

  lemma UnlinkedRest(h: Heap, h': Heap, u: Id, fixed: set<Id>, main: Id, run: Id)
    requires u in h && h[u].OpenUpval? && h[u].th in h && h[h[u].th].Thread? && Unlinking(h, h', u)
    requires FixedOk(h, fixed, main) && main in h && h[main].Thread? && run in h && h[run].Thread?
    ensures FixedOk(h', fixed, main) && main in h' && h'[main].Thread? && run in h' && h'[run].Thread?
  {
  }

  lemma UnlinkedOpen(h: Heap, h': Heap, c': Marks, cw: bool, uvhead: seq<Id>, u: Id)
    requires UpvalsOk(h, uvhead) && u in h && h[u].OpenUpval? && Unlinking(h, h', u)
    ensures SameOpen(h, h', c', cw) && SameStrings(h, h', c', cw)
  {
    hide Without, OpenOk;
    UnlinkedThread(h, h', u, h[u].th);
  }

  lemma AddedSwept(h': Heap, c': Marks, cw: bool, rootgc: seq<Id>, k: nat, u: Id)
    requires k <= |rootgc| && IsWhite(c', cw, u) && (u in h' && h'[u].Thread? ==> h'[u].open == [])
    ensures SameSwept(h', c', cw, rootgc[..k], ([u] + rootgc)[..if k == 0 then 0 else k + 1])
  {
    if k != 0 { assert ([u] + rootgc)[..k + 1] == [u] + rootgc[..k]; }
  }

  /** Nothing that was unlinked undoes the sweep so far. */
  lemma UnlinkedSettled(g: GcState, h: Heap, c: Marks, cw: bool, strt: seq<seq<Id>>, n: nat, rootgc: seq<Id>, k: nat,
      h': Heap, c': Marks, k': nat, uvhead: seq<Id>, hash: string -> nat, u: Id)
    requires Settled(g, h, c, cw, strt, n, rootgc, k) && Paler(c, c', cw) && c'.Keys == h'.Keys
    requires UpvalsOk(h, uvhead) && u in h && h[u].OpenUpval? && Unlinking(h, h', u)
    requires StringsOk(h', strt, hash) && LinksOk(h', if u in h' then [u] + rootgc else rootgc) && UpvalsOk(h', Without(uvhead, u))
    requires u in h' && g == Sweep ==> IsWhite(c', cw, u)
    requires k' == (if k == 0 || u !in h' then k else k + 1)
    ensures Settled(g, h', c', cw, strt, n, if u in h' then [u] + rootgc else rootgc, k')
  {
    hide Without, OpenOk, LinksOk, StringsOk, StringsWhite, BucketsWhite, SweptWhite, AllWhite, SameOpen, SameSwept, SameStrings, Paler;
    var rootgc' := if u in h' then [u] + rootgc else rootgc;
    UnlinkedOpen(h, h', c', cw, uvhead, u);
    if g == Sweep {
      if u in h' {
        AddedSwept(h', c', cw, rootgc, k, u);
      } else {
        assert SameSwept(h', c', cw, rootgc[..k], rootgc'[..k']) by { SweptSame(h', c', cw, rootgc[..k]); }
      }
    }
    if g == SweepString { BucketsSame(h, c', cw, h', strt); }
    SettledKept(g, h, c, cw, strt, n, rootgc, k, h', c', strt, rootgc', k', Without(uvhead, u), hash);
  }

  lemma SweptSame(h': Heap, c': Marks, cw: bool, swept: seq<Id>)
    ensures SameSwept(h', c', cw, swept, swept)
  {
  }

  lemma BucketsSame(h: Heap, c': Marks, cw: bool, h': Heap, strt: seq<seq<Id>>)
    ensures SameBuckets(h, c', cw, h', strt, strt)
  {
  }

  lemma ClosedPaler(h: Heap, c: Marks, cw: bool, h': Heap, c': Marks, u: Id)
    requires u in h && u in c && h[u].OpenUpval? && h[u].th in h && h[h[u].th].Thread? && Unlinking(h, h', u) && OpenGray(h, c) && !Dead(c, cw, u)
    requires c.Keys == h.Keys && c' == (if c[u] == Gray then c[u := White(cw)] else c)
    ensures Paler(c, c', cw) && IsWhite(c', cw, u) && OpenGray(h', c')
  {
  }

  lemma UpvalOwner(h: Heap, uvhead: seq<Id>, u: Id)
    requires UpvalsOk(h, uvhead) && u in h && h[u].OpenUpval?
    ensures h[u].th in h && h[h[u].th].Thread? && u in h[h[u].th].open && h[u].level < |h[h[u].th].stack|
  {
    assert OpenOk(h, h[u].th);
  }

  /** Outside the mark phase the only colour that changes when `u` is closed is its own. */
  lemma ClosedSettled(g: GcState, h: Heap, c: Marks, cw: bool, strt: seq<seq<Id>>, n: nat, rootgc: seq<Id>, k: nat,
      h': Heap, c': Marks, k': nat, uvhead: seq<Id>, hash: string -> nat, u: Id)
    requires Settled(g, h, c, cw, strt, n, rootgc, k) && c.Keys == h.Keys && c'.Keys == h'.Keys && h.Keys == h'.Keys
    requires UpvalsOk(h, uvhead) && u in h && h[u].OpenUpval? && Unlinking(h, h', u)
    requires StringsOk(h, strt, hash) && LinksOk(h, rootgc)
    requires OpenGray(h, c) && !Dead(c, cw, u)
    requires g != Propagate && c' == (if c[u] == Gray then c[u := White(cw)] else c)
    requires k' == (if k == 0 then k else k + 1)
    ensures Settled(g, h', c', cw, strt, n, [u] + rootgc, k')
    ensures OpenGray(h', c')
  {
    hide UpvalsOk, LinksOk, StringsOk, Without, Settled, Paler, IsWhite, OpenGray, Dead, Unlinking;
    UpvalOwner(h, uvhead, u);
    ClosedPaler(h, c, cw, h', c', u);
    UnlinkedStrings(h, h', u, strt, hash);
    UnlinkedLinks(h, h', u, rootgc);
    Unlinked(h, h', u, uvhead);
    UnlinkedSettled(g, h, c, cw, strt, n, rootgc, k, h', c', k', uvhead, hash, u);
  }

  lemma MarkingOpenGray(h: Heap, c: Marks, cw: bool, gray: seq<Id>, again: seq<Id>)
    requires Marking(h, c, cw, gray, again, {})
    ensures OpenGray(h, c)
  {
    forall u | u in h && h[u].OpenUpval? ensures c[u] != Black { assert ColorOk(h, c, cw, gray, again, u); }
  }

  lemma MarkingSettled(h: Heap, c: Marks, cw: bool, strt: seq<seq<Id>>, n: nat, rootgc: seq<Id>, k: nat)
    ensures Settled(Propagate, h, c, cw, strt, n, rootgc, k)
  {
  }

  /** `rest` is what is left of `open` after some upvalues at `level` or above. */
  ghost predicate Cleared(h: Heap, open: seq<Id>, level: nat, rest: seq<Id>) {
    && |rest| <= |open| && rest == open[|open| - |rest|..]
    && forall i :: 0 <= i < |open| - |rest| && open[i] in h && h[open[i]].OpenUpval? ==> h[open[i]].level >= level
  }

  lemma NothingCleared(h: Heap, open: seq<Id>, level: nat)
    ensures Cleared(h, open, level, open)
  {
  }

  lemma ClearedNext(h: Heap, open: seq<Id>, level: nat, rest: seq<Id>)
    requires Cleared(h, open, level, rest) && rest != []
    requires rest[0] in h && h[rest[0]].OpenUpval? ==> h[rest[0]].level >= level
    ensures Cleared(h, open, level, rest[1..])
  {
    var n := |open| - |rest|;
    assert rest[0] == open[n];
    assert rest[1..] == open[n + 1..];
  }

  /** The members of `open` under `level`. */
  ghost predicate OpenBelow(h: Heap, open: seq<Id>, level: nat, below: seq<Id>) {
    forall u :: u in below <==> u in open && u in h && h[u].OpenUpval? && h[u].level < level
  }

  /** Open upvalues are sorted: below the first one under `level` all are. */
  lemma RestBelow(h: Heap, th: Id, open: seq<Id>, level: nat, rest: seq<Id>)
    requires th in h && h[th].Thread? && h[th].open == open && OpenOk(h, th) && Cleared(h, open, level, rest)
    requires rest != [] && rest[0] in h && h[rest[0]].OpenUpval? ==> h[rest[0]].level < level
    ensures OpenBelow(h, open, level, rest)
  {
    var n := |open| - |rest|;
    forall u | u in open && u in h && h[u].OpenUpval? && h[u].level < level ensures u in rest {
      var i :| 0 <= i < |open| && open[i] == u;
      assert rest[i - n] == u;
    }
    forall u | u in rest ensures u in open && u in h && h[u].OpenUpval? && h[u].level < level {
      var i :| 0 <= i < |rest| && rest[i] == u;
      assert open[n + i] == u && rest[0] == open[n];
    }
  }

  lemma SameOpenSelf(h: Heap, c': Marks, cw: bool)
    ensures SameOpen(h, h, c', cw) && SameStrings(h, h, c', cw)
  {
  }

  /** Turning an object white never undoes a sweep. */
  lemma WhiteSettled(g: GcState, h: Heap, c: Marks, cw: bool, strt: seq<seq<Id>>, n: nat, rootgc: seq<Id>, k: nat,
      uvhead: seq<Id>, hash: string -> nat, x: Id)
    requires Settled(g, h, c, cw, strt, n, rootgc, k) && x in h && c.Keys == h.Keys
    requires StringsOk(h, strt, hash) && LinksOk(h, rootgc) && UpvalsOk(h, uvhead)
    ensures Settled(g, h, c[x := White(cw)], cw, strt, n, rootgc, k)
  {
    hide StringsOk, LinksOk, UpvalsOk, SameOpen, SameStrings, SameSwept, SameBuckets, SweptWhite, StringsWhite, BucketsWhite;
    var c' := c[x := White(cw)];
    assert Paler(c, c', cw);
    SameOpenSelf(h, c', cw);
    BucketsSame(h, c', cw, h, strt);
    if g == Sweep { SweptSame(h, c', cw, rootgc[..k]); }
    SettledKept(g, h, c, cw, strt, n, rootgc, k, h, c', strt, rootgc, k, uvhead, hash);
  }

  // ---------------------------------------------------------------- freeing an object of `rootgc`

  lemma DroppedLinks(h: Heap, rootgc: seq<Id>, i: nat)
    requires LinksOk(h, rootgc) && i < |rootgc|
    ensures LinksOk(h - {rootgc[i]}, rootgc[..i] + rootgc[i + 1..])
  {
    WithoutAt(rootgc, i);
    WithoutElems(rootgc, rootgc[i]);
  }

  lemma DroppedUpvals(h: Heap, uvhead: seq<Id>, x: Id)
    requires UpvalsOk(h, uvhead) && x in h && Rooted(h[x]) && (h[x].Thread? ==> h[x].open == [])
    ensures UpvalsOk(h - {x}, uvhead) && SameRefs(h, h - {x}, x)
  {
    forall t | t in h && h[t].Thread? && t != x ensures OpenOk(h - {x}, t) {
      assert OpenOk(h, t);
    }
    forall u | u in h && h[u].OpenUpval? ensures h[u].th != x { }
  }

  lemma DroppedShape(h: Heap, c: Marks, rootgc: seq<Id>, uvhead: seq<Id>, strt: seq<seq<Id>>, hash: string -> nat,
      main: Id, run: Id, fixed: set<Id>, i: nat)
    requires Shape(h, c, rootgc, uvhead, strt, hash, main, run, fixed) && i < |rootgc|
    requires rootgc[i] in h && (h[rootgc[i]].Thread? ==> h[rootgc[i]].open == []) && rootgc[i] != main && rootgc[i] != run
    ensures Shape(h - {rootgc[i]}, c - {rootgc[i]}, rootgc[..i] + rootgc[i + 1..], uvhead, strt, hash, main, run, fixed)
    ensures SameRefs(h, h - {rootgc[i]}, rootgc[i])
  {
    hide UpvalsOk, LinksOk, StringsOk, FixedOk, OpenGray, SameRefs;
    RootedAt(h, rootgc, i);
    DroppedRest(h, c, main, fixed, rootgc[i]);
    DroppedUpvals(h, uvhead, rootgc[i]);
    DroppedLinks(h, rootgc, i);
    DroppedStrings(h, strt, hash, rootgc[i]);
  }

  lemma DroppedRest(h: Heap, c: Marks, main: Id, fixed: set<Id>, x: Id)
    requires FixedOk(h, fixed, main) && OpenGray(h, c) && x in h && Rooted(h[x]) && x != main
    ensures FixedOk(h - {x}, fixed, main) && OpenGray(h - {x}, c - {x})
  {
  }

  lemma RootedAt(h: Heap, rootgc: seq<Id>, i: nat)
    requires LinksOk(h, rootgc) && i < |rootgc|
    ensures rootgc[i] in h && Rooted(h[rootgc[i]])
  {
    assert rootgc[i] in rootgc;
  }

  lemma DroppedStrings(h: Heap, strt: seq<seq<Id>>, hash: string -> nat, x: Id)
    requires StringsOk(h, strt, hash) && x in h && Rooted(h[x])
    ensures StringsOk(h - {x}, strt, hash)
  {
  }

  lemma DroppedSettled(g: GcState, h: Heap, c: Marks, cw: bool, strt: seq<seq<Id>>, n: nat, rootgc: seq<Id>, k: nat,
      uvhead: seq<Id>, hash: string -> nat, i: nat)
    requires g == Sweep && Settled(g, h, c, cw, strt, n, rootgc, k) && k <= i < |rootgc| && c.Keys == h.Keys
    requires LinksOk(h, rootgc) && UpvalsOk(h, uvhead)
    requires LinksOk(h - {rootgc[i]}, rootgc[..i] + rootgc[i + 1..])
    requires UpvalsOk(h - {rootgc[i]}, uvhead) && StringsOk(h - {rootgc[i]}, strt, hash)
    ensures Settled(g, h - {rootgc[i]}, c - {rootgc[i]}, cw, strt, n, rootgc[..i] + rootgc[i + 1..], k)
  {
    hide StringsOk, LinksOk, UpvalsOk, SameSwept, SameBuckets, SweptWhite, StringsWhite, BucketsWhite;
    var x := rootgc[i];
    var h', c', r := h - {x}, c - {x}, rootgc[..i] + rootgc[i + 1..];
    assert r[..k] == rootgc[..k];
    SweptSame(h', c', cw, rootgc[..k]);
    assert SameOpen(h, h', c', cw) && SameStrings(h, h', c', cw) && Paler(c, c', cw);
    hide SameOpen, SameStrings, Paler, Settled;
    SettledKept(g, h, c, cw, strt, n, rootgc, k, h', c', strt, r, k, uvhead, hash);
  }

  lemma NoneBelow(open: seq<Id>, h: Heap, open': seq<Id>)
    requires OpenBelow(h, open', 0, open)
    ensures open == []
  {
    forall u ensures multiset(open)[u] == 0 { assert u !in open; }
    assert multiset(open) == multiset{} && |multiset(open)| == |open|;
  }

  // ---------------------------------------------------------------- freeing a string

  lemma StringDropped(h: Heap, strt: seq<seq<Id>>, hash: string -> nat, i: nat, j: nat)
    requires StringsOk(h, strt, hash) && i < |strt| && j < |strt[i]|
    ensures StringsOk(h - {strt[i][j]}, strt[i := strt[i][..j] + strt[i][j + 1..]], hash)
    ensures strt[i][j] in h && h[strt[i][j]].Str?
  {
    var b, x := strt[i], strt[i][j];
    assert x in b;
    WithoutAt(b, j);
    WithoutElems(b, x);
    var strt' := strt[i := Without(b, x)];
    hide Without;
    forall y | y in h && h[y].Str? && y != x ensures y in strt'[hash(h[y].s) % |strt'|] { }
    forall m, y | 0 <= m < |strt'| && y in strt'[m] ensures y in h && y != x && h[y].Str? && hash(h[y].s) % |strt'| == m {
      assert y in strt[m];
    }
  }

  lemma StringDroppedUpvals(h: Heap, rootgc: seq<Id>, uvhead: seq<Id>, x: Id)
    requires UpvalsOk(h, uvhead) && LinksOk(h, rootgc) && x in h && h[x].Str?
    ensures UpvalsOk(h - {x}, uvhead) && LinksOk(h - {x}, rootgc) && SameRefs(h, h - {x}, x)
  {
    forall t | t in h && h[t].Thread? ensures OpenOk(h - {x}, t) {
      assert OpenOk(h, t);
    }
  }

  lemma StringDroppedShape(h: Heap, c: Marks, rootgc: seq<Id>, uvhead: seq<Id>, strt: seq<seq<Id>>, hash: string -> nat,
      main: Id, run: Id, fixed: set<Id>, i: nat, j: nat)
    requires Shape(h, c, rootgc, uvhead, strt, hash, main, run, fixed) && i < |strt| && j < |strt[i]| && strt[i][j] !in fixed
    ensures Shape(h - {strt[i][j]}, c - {strt[i][j]}, rootgc, uvhead, strt[i := strt[i][..j] + strt[i][j + 1..]], hash, main, run, fixed)
    ensures strt[i][j] in h && h[strt[i][j]].Str? && SameRefs(h, h - {strt[i][j]}, strt[i][j])
  {
    hide UpvalsOk, LinksOk, StringsOk;
    StringDropped(h, strt, hash, i, j);
    StringDroppedUpvals(h, rootgc, uvhead, strt[i][j]);
  }

  lemma StringDroppedSettled(g: GcState, h: Heap, c: Marks, cw: bool, strt: seq<seq<Id>>, n: nat, rootgc: seq<Id>, k: nat,
      uvhead: seq<Id>, hash: string -> nat, i: nat, j: nat)
    requires g == SweepString && Settled(g, h, c, cw, strt, n, rootgc, k) && i < |strt| && j < |strt[i]|
    requires StringsOk(h - {strt[i][j]}, strt[i := strt[i][..j] + strt[i][j + 1..]], hash) && c.Keys == h.Keys
    requires LinksOk(h - {strt[i][j]}, rootgc) && UpvalsOk(h - {strt[i][j]}, uvhead)
    requires strt[i][j] in h && h[strt[i][j]].Str?
    ensures Settled(g, h - {strt[i][j]}, c - {strt[i][j]}, cw, strt[i := strt[i][..j] + strt[i][j + 1..]], n, rootgc, k)
  {
    hide StringsOk, LinksOk, UpvalsOk, SweptWhite, StringsWhite, BucketsWhite;
    var x := strt[i][j];
    var h', c', strt' := h - {x}, c - {x}, strt[i := strt[i][..j] + strt[i][j + 1..]];
    assert SameOpen(h, h', c', cw) && SameStrings(h, h', c', cw) && Paler(c, c', cw);
    assert SameBuckets(h, c', cw, h', strt, strt');
    hide SameOpen, SameStrings, Paler, Settled, SameBuckets;
    SettledKept(g, h, c, cw, strt, n, rootgc, k, h', c', strt', rootgc, k, uvhead, hash);
  }

  /** All buckets are swept: the sweep of `rootgc` begins. */
  lemma BucketsDone(h: Heap, c: Marks, cw: bool, strt: seq<seq<Id>>, hash: string -> nat)
    requires StringsOk(h, strt, hash) && BucketsWhite(c, cw, strt, |strt|)
    ensures StringsWhite(h, c, cw)
  {
    forall x | x in h && h[x].Str? ensures IsWhite(c, cw, x) {
      assert x in strt[hash(h[x].s) % |strt|];
    }
  }

  lemma BucketDone(c: Marks, cw: bool, strt: seq<seq<Id>>, n: nat)
    requires BucketsWhite(c, cw, strt, n) && n < |strt| && forall j :: 0 <= j < |strt[n]| ==> IsWhite(c, cw, strt[n][j])
    ensures BucketsWhite(c, cw, strt, n + 1)
  {
  }

  /** The sweep has been through everything: open upvalues are swept with their threads. */
  lemma SweepDone(h: Heap, c: Marks, cw: bool, rootgc: seq<Id>, uvhead: seq<Id>)
    requires c.Keys == h.Keys && LinksOk(h, rootgc) && UpvalsOk(h, uvhead)
    requires StringsWhite(h, c, cw) && SweptWhite(h, c, cw, rootgc)
    ensures AllWhite(h, c, cw)
  {
    forall x | x in h ensures IsWhite(c, cw, x) {
      if h[x].OpenUpval? {
        assert h[x].th in rootgc;
      } else if !h[x].Str? {
        assert x in rootgc;
      }
    }
    assert forall x :: x in c ==> IsWhite(c, cw, x);
  }

  // ---------------------------------------------------------------- resizing the string table

  /** `x` was met before string `j` of bucket `i`. */
  ghost predicate Seen(h: Heap, strt: seq<seq<Id>>, hash: string -> nat, i: nat, j: nat, x: Id)
    requires |strt| > 0
  {
    && x in h && h[x].Str?
    && var b := hash(h[x].s) % |strt|; b < i || (b == i && i < |strt| && j <= |strt[i]| && x in strt[i][..j])
  }

  ghost predicate Rehashed(h: Heap, strt: seq<seq<Id>>, newhash: seq<seq<Id>>, hash: string -> nat, i: nat, j: nat) {
    && |strt| > 0 && |newhash| > 0 && (forall k :: 0 <= k < |newhash| ==> NoDup(newhash[k]))
    && (forall k, x :: 0 <= k < |newhash| && x in newhash[k] ==> Seen(h, strt, hash, i, j, x) && hash(h[x].s) % |newhash| == k)
    && (forall x :: Seen(h, strt, hash, i, j, x) ==> x in newhash[hash(h[x].s) % |newhash|])
  }

  lemma NothingSeen(h: Heap, strt: seq<seq<Id>>, newhash: seq<seq<Id>>, hash: string -> nat)
    requires |strt| > 0 && |newhash| > 0 && forall k :: 0 <= k < |newhash| ==> newhash[k] == []
    ensures Rehashed(h, strt, newhash, hash, 0, 0)
  {
  }

  lemma SeenNext(h: Heap, strt: seq<seq<Id>>, hash: string -> nat, i: nat, j: nat, x: Id)
    requires StringsOk(h, strt, hash) && i < |strt| && j < |strt[i]|
    ensures Seen(h, strt, hash, i, j + 1, x) <==> Seen(h, strt, hash, i, j, x) || x == strt[i][j]
    ensures !Seen(h, strt, hash, i, j, strt[i][j])
  {
    assert strt[i][..j + 1] == strt[i][..j] + [strt[i][j]];
    assert strt[i][j] in strt[i];
  }

  /** A string moves to the head of its bucket in the new table. */
  lemma RehashStep(h: Heap, strt: seq<seq<Id>>, newhash: seq<seq<Id>>, hash: string -> nat, i: nat, j: nat)
    requires StringsOk(h, strt, hash) && Rehashed(h, strt, newhash, hash, i, j) && i < |strt| && j < |strt[i]|
    ensures strt[i][j] in h && h[strt[i][j]].Str?
    ensures var p := strt[i][j]; var h1 := hash(h[p].s) % |newhash|;
      Rehashed(h, strt, newhash[h1 := [p] + newhash[h1]], hash, i, j + 1)
  {
    var p := strt[i][j];
    assert p in strt[i];
    var h1 := hash(h[p].s) % |newhash|;
    forall x ensures Seen(h, strt, hash, i, j + 1, x) <==> Seen(h, strt, hash, i, j, x) || x == p { SeenNext(h, strt, hash, i, j, x); }
    SeenNext(h, strt, hash, i, j, p);
    hide StringsOk, Seen;
    var b := newhash[h1];
    assert p !in b;
    forall m, n | 0 <= m < n < |[p] + b| ensures ([p] + b)[m] != ([p] + b)[n] {
      if m == 0 { assert ([p] + b)[n] in b; } else { assert b[m - 1] != b[n - 1]; }
    }
  }

  lemma RehashSame(h: Heap, strt: seq<seq<Id>>, newhash: seq<seq<Id>>, hash: string -> nat, i: nat, j: nat, i': nat, j': nat)
    requires Rehashed(h, strt, newhash, hash, i, j)
    requires forall x :: Seen(h, strt, hash, i, j, x) <==> Seen(h, strt, hash, i', j', x)
    ensures Rehashed(h, strt, newhash, hash, i', j')
  {
    hide Seen;
  }

  lemma RehashBucket(h: Heap, strt: seq<seq<Id>>, newhash: seq<seq<Id>>, hash: string -> nat, i: nat)
    requires StringsOk(h, strt, hash) && i < |strt| && Rehashed(h, strt, newhash, hash, i, |strt[i]|)
    ensures Rehashed(h, strt, newhash, hash, i + 1, 0)
  {
    assert strt[i][..|strt[i]|] == strt[i];
    forall x ensures Seen(h, strt, hash, i, |strt[i]|, x) <==> Seen(h, strt, hash, i + 1, 0, x) {
      if x in h && h[x].Str? { assert x in strt[hash(h[x].s) % |strt|]; }
    }
    RehashSame(h, strt, newhash, hash, i, |strt[i]|, i + 1, 0);
  }

  lemma RehashDone(h: Heap, strt: seq<seq<Id>>, newhash: seq<seq<Id>>, hash: string -> nat)
    requires StringsOk(h, strt, hash) && Rehashed(h, strt, newhash, hash, |strt|, 0)
    ensures StringsOk(h, newhash, hash)
  {
    forall x | x in h && h[x].Str? ensures x in newhash[hash(h[x].s) % |newhash|] {
      assert Seen(h, strt, hash, |strt|, 0, x);
    }
  }

  // ---------------------------------------------------------------- nothing useless is kept

  /** Everything live is reachable, or fixed. */
  ghost predicate AllNeeded(h: Heap, c: Marks, cw: bool, roots: set<Id>, fixed: set<Id>) {
    forall x :: Live(h, c, cw, x) ==> Reachable(h, roots, x) || x in fixed
  }

  lemma ReachableNeeded(h: Heap, c: Marks, cw: bool, roots: set<Id>, fixed: set<Id>)
    requires OnlyReachable(h, c, cw, roots)
    ensures AllNeeded(h, c, cw, roots, fixed)
  {
  }

  /** What is reachable is live. */
  lemma ReachableLive(h: Heap, c: Marks, cw: bool, roots: set<Id>, x: Id)
    requires Closed(h, c, cw) && AllLive(h, c, cw, roots) && Reachable(h, roots, x)
    ensures Live(h, c, cw, x)
  {
    var s := iset y: Id | Live(h, c, cw, y);
    ReachableInside(h, roots, s, x);
  }

  lemma {:induction false} PathLive(h: Heap, c: Marks, cw: bool, h': Heap, p: seq<Id>)
    requires Closed(h, c, cw) && Preserved(h, c, cw, h') && Path(h, p) && Live(h, c, cw, p[0])
    ensures Path(h', p)
    decreases |p|
  {
    if |p| > 1 {
      var q := p[1..];
      assert Points(h, p[0], p[1]);
      forall i | 0 <= i < |q| - 1 ensures Points(h, q[i], q[i + 1]) { assert Points(h, p[i + 1], p[i + 2]); }
      PathLive(h, c, cw, h', q);
      forall i | 0 <= i < |p| - 1 ensures Points(h', p[i], p[i + 1]) {
        if i == 0 { assert SameContents(h, h', p[0]); } else { assert Points(h', q[i - 1], q[i]); }
      }
    }
  }

  /** What was reachable still is. */
  lemma ReachableKept(h: Heap, c: Marks, cw: bool, h': Heap, roots: set<Id>, x: Id)
    requires Closed(h, c, cw) && AllLive(h, c, cw, roots) && Preserved(h, c, cw, h') && Reachable(h, roots, x)
    ensures Reachable(h', roots, x)
  {
    var r :| r in roots && ReachesTo(h, r, x);
    var p :| Path(h, p) && p[0] == r && p[|p| - 1] == x;
    PathLive(h, c, cw, h', p);
    assert ReachesTo(h', r, x);
  }

  lemma NeededKept(h: Heap, c: Marks, cw: bool, h': Heap, c': Marks, roots: set<Id>, fixed: set<Id>)
    requires Closed(h, c, cw) && AllLive(h, c, cw, roots) && KeepsLive(h, c, cw, h', c', fixed)
    requires AllNeeded(h, c, cw, roots, fixed)
    ensures AllNeeded(h', c', cw, roots, fixed)
  {
    forall x | Live(h', c', cw, x) ensures Reachable(h', roots, x) || x in fixed {
      if x !in fixed {
        assert Live(h, c, cw, x);
        ReachableKept(h, c, cw, h', roots, x);
      }
    }
  }

  /** Everything reachable survived, and is what it was. */
  ghost predicate ReachableSurvives(h: Heap, roots: set<Id>, h': Heap) {
    forall x :: Reachable(h, roots, x) ==> x in h && x in h' && SameContents(h, h', x)
  }

  lemma StillThere(h: Heap, roots: set<Id>, h': Heap)
    requires ReachableSurvives(h, roots, h')
    ensures forall x :: Reachable(h, roots, x) ==> x in h'
  {
  }

  lemma Survival(h: Heap, c: Marks, cw: bool, h': Heap, roots: set<Id>)
    requires Closed(h, c, cw) && AllLive(h, c, cw, roots) && Preserved(h, c, cw, h')
    ensures ReachableSurvives(h, roots, h')
  {
    forall x | Reachable(h, roots, x) ensures x in h && x in h' && SameContents(h, h', x) {
      ReachableLive(h, c, cw, roots, x);
    }
  }

  /** Between two collections nothing is dead. */
  lemma WhiteNoDangling(h: Heap, c: Marks, cw: bool, roots: set<Id>)
    requires AllWhite(h, c, cw) && Closed(h, c, cw) && AllLive(h, c, cw, roots)
    ensures NoDangling(h) && roots <= h.Keys
  {
    forall x, y | Points(h, x, y) ensures y in h { assert Live(h, c, cw, x); }
  }

  lemma OpenListed(h: Heap, uvhead: seq<Id>)
    requires UpvalsOk(h, uvhead)
    ensures forall u :: u in uvhead <==> u in h && h[u].OpenUpval?
  {
  }

  lemma NoBuckets(h: Heap, c: Marks, cw: bool, strt: seq<seq<Id>>, rootgc: seq<Id>, hash: string -> nat)
    requires StringsOk(h, strt, hash)
    ensures Settled(SweepString, h, c, cw, strt, 0, rootgc, 0)
  {
  }

  lemma RootReachable(h: Heap, roots: set<Id>)
    ensures forall r :: r in roots ==> Reachable(h, roots, r)
  {
    forall r | r in roots ensures Reachable(h, roots, r) { ReachSelf(h, r); }
  }

  lemma ReachableOn(h: Heap, h': Heap, roots: set<Id>, x: Id)
    requires ReachableSurvives(h, roots, h') && Reachable(h, roots, x)
    ensures Reachable(h', roots, x)
  {
    hide Reachable;
    var s := iset y: Id | Reachable(h, roots, y) && Reachable(h', roots, y);
    RootReachable(h, roots);
    RootReachable(h', roots);
    forall y, z | y in s && Points(h, y, z) ensures z in s {
      assert Points(h', y, z) by { assert SameContents(h, h', y); }
      ReachableStep(h, roots, y, z);
      ReachableStep(h', roots, y, z);
    }
    ReachableInside(h, roots, s, x);
  }

  lemma ReachableBack(h: Heap, h': Heap, roots: set<Id>, x: Id)
    requires ReachableSurvives(h, roots, h') && Reachable(h', roots, x)
    ensures Reachable(h, roots, x)
  {
    hide Reachable;
    var s := iset y: Id | Reachable(h, roots, y);
    RootReachable(h, roots);
    forall y, z | y in s && Points(h', y, z) ensures z in s {
      assert Points(h, y, z) by { assert SameContents(h, h', y); }
      ReachableStep(h, roots, y, z);
    }
    ReachableInside(h', roots, s, x);
  }

  lemma SurvivalTrans(h: Heap, h1: Heap, h2: Heap, roots: set<Id>)
    requires ReachableSurvives(h, roots, h1) && ReachableSurvives(h1, roots, h2)
    ensures ReachableSurvives(h, roots, h2)
  {
    forall x | Reachable(h, roots, x) ensures x in h && x in h2 && SameContents(h, h2, x) {
      ReachableOn(h, h1, roots, x);
      assert SameContents(h, h1, x) && SameContents(h1, h2, x);
    }
  }
}
