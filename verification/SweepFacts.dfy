/** What the collector does to the heap beyond the marks: objects go, and nothing else changes but
    what has to with them. */
module SweepFacts {
  import opened Basics
  import opened Objects
  import opened HeapFacts
  import opened StepFacts

  // ---------------------------------------------------------------- lists of open upvalues

  /** The elements of `l` that are in `s`, in their order. */
  ghost function Only(l: seq<Id>, s: set<Id>): seq<Id> {
    if l == [] then [] else (if l[0] in s then [l[0]] else []) + Only(l[1..], s)
  }

  lemma {:induction false} OnlyAll(l: seq<Id>, s: set<Id>)
    requires forall x :: x in l ==> x in s
    ensures Only(l, s) == l
  {
    if l != [] { OnlyAll(l[1..], s); }
  }

  lemma {:induction false} OnlyElems(l: seq<Id>, s: set<Id>)
    ensures forall x :: x in Only(l, s) <==> x in l && x in s
  {
    if l != [] {
      OnlyElems(l[1..], s);
      assert l == [l[0]] + l[1..];
    }
  }

  lemma {:induction false} OnlyTrans(l: seq<Id>, s: set<Id>, t: set<Id>)
    requires t <= s
    ensures Only(Only(l, s), t) == Only(l, t)
  {
    if l != [] {
      OnlyTrans(l[1..], s, t);
      var rest := Only(l[1..], s);
      if l[0] in s { assert ([l[0]] + rest)[1..] == rest; } else { assert [] + rest == rest; }
    }
  }

  lemma {:induction false} OnlyWithout(l: seq<Id>, u: Id, s: set<Id>)
    requires NoDup(l) && forall x :: x in l ==> (x in s <==> x != u)
    ensures Only(l, s) == Without(l, u)
  {
    if l != [] {
      var t := l[1..];
      assert forall i :: 0 <= i < |t| ==> t[i] == l[i + 1];
      assert l[0] !in t;
      if l[0] == u { OnlyAll(t, s); } else { OnlyWithout(t, u, s); }
    }
  }

  // ---------------------------------------------------------------- what a collection leaves

  /** What became of an object that remains: a thread has lost the open upvalues that went, in
      the order of the others; an open upvalue is closed only if its thread went. */
  ghost predicate Remains(h: Heap, h': Heap, x: Id)
    requires x in h && x in h'
  {
    match h[x]
    case Thread(gt, stack, open) => h'[x] == Thread(gt, stack, Only(open, h'.Keys))
    case OpenUpval(th, _) => if th in h' then h'[x] == h[x] else h'[x].ClosedUpval?
    case _ => h'[x] == h[x]
  }

  /** Objects went, and no other change was made. */
  ghost predicate Reduced(h: Heap, h': Heap) {
    forall x :: x in h' ==> x in h && Remains(h, h', x)
  }

  lemma ReducedSelf(h: Heap, uvhead: seq<Id>)
    requires UpvalsOk(h, uvhead)
    ensures Reduced(h, h)
  {
    forall x | x in h ensures Remains(h, h, x) {
      if h[x].Thread? {
        OpenThere(h, uvhead, x);
        OnlyAll(h[x].open, h.Keys);
      }
    }
  }

  lemma ReducedTrans(h: Heap, h1: Heap, h2: Heap)
    requires Reduced(h, h1) && Reduced(h1, h2)
    ensures Reduced(h, h2)
  {
    hide Only;
    forall x | x in h2 ensures x in h && Remains(h, h2, x) {
      assert Remains(h1, h2, x) && Remains(h, h1, x);
      if h[x].Thread? { OnlyTrans(h[x].open, h1.Keys, h2.Keys); }
      if h[x].OpenUpval? && h[x].th in h2 { assert h[x].th in h1; }
    }
  }

  /** An object that is in no list of open upvalues goes, and is not missed by any upvalue. */
  lemma ReducedDrop(h: Heap, uvhead: seq<Id>, x: Id)
    requires UpvalsOk(h, uvhead) && x in h && !h[x].OpenUpval? && (h[x].Thread? ==> h[x].open == [])
    ensures Reduced(h, h - {x})
  {
    var h' := h - {x};
    forall y | y in h' ensures Remains(h, h', y) {
      if h[y].Thread? {
        OpenThere(h, uvhead, y);
        OnlyAll(h[y].open, h'.Keys);
      }
      if h[y].OpenUpval? { assert y in h[h[y].th].open; }
    }
  }

  lemma UpvalListed(h: Heap, uvhead: seq<Id>, th: Id, i: nat)
    requires UpvalsOk(h, uvhead) && th in h && h[th].Thread? && i < |h[th].open|
    ensures var u := h[th].open[i];
      && u in h && h[u].OpenUpval? && h[u].th == th && u != th && NoDup(h[th].open) && |Without(uvhead, u)| <= |uvhead|
      && Without(h[th].open, u) == h[th].open[..i] + h[th].open[i + 1..]
  {
    var u := h[th].open[i];
    assert OpenOk(h, th) && u in h[th].open;
    WithoutOrder(h, h[th].open, u);
    WithoutAt(h[th].open, i);
    WithoutElems(uvhead, u);
  }

  lemma StringThere(h: Heap, strt: seq<seq<Id>>, hash: string -> nat, i: nat, j: nat)
    requires StringsOk(h, strt, hash) && i < |strt| && j < |strt[i]|
    ensures strt[i][j] in h && h[strt[i][j]].Str?
  {
    assert strt[i][j] in strt[i];
  }

  /** A dead open upvalue goes. */
  lemma ReducedCut(h: Heap, uvhead: seq<Id>, th: Id, u: Id)
    requires UpvalsOk(h, uvhead) && th in h && h[th].Thread? && u in h && h[u].OpenUpval? && h[u].th == th
    ensures Reduced(h, Cut(h, th, u))
  {
    hide Without, Only;
    var h' := Cut(h, th, u);
    forall y | y in h' ensures y in h && Remains(h, h', y) {
      if h[y].Thread? { CutOpen(h, uvhead, th, u, y); }
    }
  }

  lemma CutOpen(h: Heap, uvhead: seq<Id>, th: Id, u: Id, y: Id)
    requires UpvalsOk(h, uvhead) && th in h && h[th].Thread? && u in h && h[u].OpenUpval? && h[u].th == th
    requires y in h && h[y].Thread?
    ensures Only(h[y].open, Cut(h, th, u).Keys) == if y == th then Without(h[th].open, u) else h[y].open
  {
    hide Only, Without;
    var keys := Cut(h, th, u).Keys;
    OpenThere(h, uvhead, y);
    if y == th {
      WithoutOrder(h, h[y].open, u);
      OnlyWithout(h[y].open, u, keys);
    } else {
      OnlyAll(h[y].open, keys);
    }
  }

  /** What a collection means for a program: a thread it can reach keeps its open upvalues, in
      their order, but for some that cannot be reached; these upvalues stay open; only those of a
      thread that goes are closed. */
  lemma ThreadsKept(h: Heap, roots: set<Id>, h': Heap)
    requires ReachableSurvives(h, roots, h') && Reduced(h, h')
    ensures forall t :: Reachable(h, roots, t) && h[t].Thread? ==>
      t in h' && h'[t] == Thread(h[t].gt, h[t].stack, Only(h[t].open, h'.Keys)) &&
      forall u :: u in h[t].open && Reachable(h, roots, u) ==> u in h' && u in h'[t].open
    ensures forall u :: Reachable(h, roots, u) && h[u].OpenUpval? ==>
      u in h' && if h[u].th in h' then h'[u] == h[u] else h'[u].ClosedUpval? && RefsOf(h', u) == RefsOf(h, u) && !Reachable(h, roots, h[u].th)
  {
    hide Reachable, Only;
    forall t | Reachable(h, roots, t) && h[t].Thread?
      ensures t in h' && h'[t] == Thread(h[t].gt, h[t].stack, Only(h[t].open, h'.Keys))
      ensures forall u :: u in h[t].open && Reachable(h, roots, u) ==> u in h' && u in h'[t].open
    {
      assert Remains(h, h', t);
      OnlyElems(h[t].open, h'.Keys);
    }
    forall u | Reachable(h, roots, u) && h[u].OpenUpval?
      ensures u in h' && if h[u].th in h' then h'[u] == h[u] else h'[u].ClosedUpval? && RefsOf(h', u) == RefsOf(h, u) && !Reachable(h, roots, h[u].th)
    {
      assert Remains(h, h', u);
    }
  }

  // ---------------------------------------------------------------- closing upvalues

  /** One upvalue was closed, or freed if it was dead. */
  ghost predicate ClosedOne(h: Heap, dead: bool, th: Id, h': Heap) {
    && th in h && h[th].Thread? && h[th].open != []
    && var u := h[th].open[0];
       u in h && h[u].OpenUpval? && h[u].th == th && h[u].level < |h[th].stack| && h' == if dead then Cut(h, th, u) else Moved(h, th, u)
  }

  /** The open upvalues of `th` but those in `rest` were closed, each with the value of its stack
      slot, or freed if they were dead; nothing else changed. */
  ghost predicate ClosedBut(h: Heap, c: Marks, cw: bool, th: Id, rest: seq<Id>, h': Heap)
    requires th in h && h[th].Thread?
  {
    && th in h' && h'[th] == h[th].(open := rest)
    && (forall x :: x in h' ==> x in h && (x != th ==> h'[x] == AfterClose(h, th, rest, x)))
    && (forall x :: x in h && x !in h' ==> x in h[th].open && x !in rest && Dead(c, cw, x))
    && (forall x :: x in h' && x in h[th].open && x !in rest ==> !Dead(c, cw, x))
  }

  ghost function AfterClose(h: Heap, th: Id, rest: seq<Id>, x: Id): Body
    requires x in h && th in h && h[th].Thread?
  {
    if x in h[th].open && x !in rest && h[x].OpenUpval? && h[x].level < |h[th].stack| then ClosedUpval(h[th].stack[h[x].level]) else h[x]
  }

  lemma ClosedNone(h: Heap, c: Marks, cw: bool, th: Id)
    requires th in h && h[th].Thread?
    ensures ClosedBut(h, c, cw, th, h[th].open, h)
  {
  }

  lemma ClosedNext(h: Heap, c: Marks, cw: bool, th: Id, open: seq<Id>, h1: Heap, dead: bool, h2: Heap)
    requires th in h && h[th].Thread? && ClosedBut(h, c, cw, th, open, h1) && ClosedOne(h1, dead, th, h2)
    requires open != [] && open[0] in h[th].open && open[0] !in open[1..] && open[0] != th && (dead <==> Dead(c, cw, open[0]))
    requires forall x :: x in open ==> x in h && h1[open[0]] == h[open[0]]
    ensures ClosedBut(h, c, cw, th, open[1..], h2)
  {
    var u := open[0];
    assert h1[th].open == open && h1[th].stack == h[th].stack;
    assert Without(open, u) == open[1..];
    assert forall x :: x in open <==> x == u || x in open[1..];
  }

  lemma SameDeath(h: Heap, c: Marks, cw: bool, h1: Heap, c1: Marks, fixed: set<Id>, main: Id, u: Id)
    requires KeepsLive(h, c, cw, h1, c1, fixed) && FixedOk(h1, fixed, main) && main in h1 && h1[main].Thread?
    requires u in h && u in c && u in h1 && u in c1 && h1[u].OpenUpval?
    ensures Dead(c1, cw, u) <==> Dead(c, cw, u)
  {
    hide Preserved;
  }

  /** A thread goes, after its upvalues were closed. */
  lemma ReducedFree(h: Heap, c: Marks, cw: bool, uvhead: seq<Id>, x: Id, h1: Heap)
    requires UpvalsOk(h, uvhead) && x in h && h[x].Thread? && ClosedBut(h, c, cw, x, [], h1)
    ensures Reduced(h, h1 - {x})
  {
    var h' := h1 - {x};
    OpenThere(h, uvhead, x);
    forall y | y in h' ensures y in h && Remains(h, h', y) {
      if h[y].Thread? {
        OpenThere(h, uvhead, y);
        OnlyAll(h[y].open, h'.Keys);
      } else if h[y].OpenUpval? {
        OpenThere(h, uvhead, h[y].th);
      }
    }
  }

  /** What the loop of luaF_close has done, from `h0` to `h`. */
  ghost predicate CloseState(h0: Heap, c0: Marks, cw: bool, th: Id, level: nat, h: Heap, c: Marks, fixed: set<Id>) {
    && th in h0 && h0[th].Thread? && th in h && h[th].Thread? && h[th] == h0[th].(open := h[th].open)
    && (forall x :: x in h[th].open ==> x in h0[th].open && x in h0 && x in c0 && x in h && h[x] == h0[x] && h[x].OpenUpval?)
    && ClosedBut(h0, c0, cw, th, h[th].open, h) && Cleared(h0, h0[th].open, level, h[th].open)
    && KeepsLive(h0, c0, cw, h, c, fixed)
  }

  lemma CloseStart(h: Heap, c: Marks, cw: bool, th: Id, level: nat, fixed: set<Id>, uvhead: seq<Id>)
    requires UpvalsOk(h, uvhead) && th in h && h[th].Thread? && c.Keys == h.Keys
    ensures CloseState(h, c, cw, th, level, h, c, fixed)
  {
    hide KeepsLive;
    OpenThere(h, uvhead, th);
    NothingCleared(h, h[th].open, level);
    ClosedNone(h, c, cw, th);
    KeepsLiveSelf(h, c, cw, fixed);
  }

  lemma CloseHead(h0: Heap, c0: Marks, cw: bool, th: Id, level: nat, h: Heap, c: Marks, fixed: set<Id>)
    requires CloseState(h0, c0, cw, th, level, h, c, fixed)
    ensures th in h && h[th].Thread? && h[th] == h0[th].(open := h[th].open) && ClosedBut(h0, c0, cw, th, h[th].open, h) && KeepsLive(h0, c0, cw, h, c, fixed)
    ensures forall x :: x in h[th].open ==> x in h && h[x].OpenUpval?
  {
  }

  lemma CloseStep(h0: Heap, c0: Marks, cw: bool, th: Id, level: nat, h: Heap, c: Marks, fixed: set<Id>, main: Id, uvhead: seq<Id>, h1: Heap, c1: Marks)
    requires CloseState(h0, c0, cw, th, level, h, c, fixed) && UpvalsOk(h, uvhead) && c.Keys == h.Keys
    requires h[th].open != [] && h[th].open[0] in h && h[h[th].open[0]].OpenUpval? && h[h[th].open[0]].level >= level
    requires FixedOk(h, fixed, main) && main in h && h[main].Thread?
    requires ClosedOne(h, Dead(c, cw, h[th].open[0]), th, h1) && KeepsLive(h, c, cw, h1, c1, fixed)
    requires th in h1 && h1[th] == h[th].(open := h[th].open[1..])
    requires forall x :: x in h1[th].open ==> x in h[th].open && x in h && x in h1 && h1[x] == h[x]
    ensures CloseState(h0, c0, cw, th, level, h1, c1, fixed)
  {
    hide KeepsLive, Cleared, ClosedBut, ClosedOne, FixedOk;
    var open := h[th].open;
    assert open[0] in open;
    FirstOpen(h, uvhead, th);
    ClearedNext(h0, h0[th].open, level, open);
    SameDeath(h0, c0, cw, h, c, fixed, main, open[0]);
    ClosedNext(h0, c0, cw, th, open, h, Dead(c, cw, open[0]), h1);
    KeepsLiveTrans(h0, c0, cw, h, c, h1, c1, fixed);
  }

  lemma CloseDone(h0: Heap, c0: Marks, cw: bool, th: Id, level: nat, h: Heap, c: Marks, fixed: set<Id>, uvhead: seq<Id>)
    requires CloseState(h0, c0, cw, th, level, h, c, fixed) && UpvalsOk(h0, uvhead)
    requires h[th].open != [] && h[th].open[0] in h && h[h[th].open[0]].OpenUpval? ==> h[h[th].open[0]].level < level
    ensures OpenBelow(h0, h0[th].open, level, h[th].open)
  {
    hide KeepsLive, Cleared, ClosedBut;
    OpenThere(h0, uvhead, th);
    if h[th].open != [] { assert h[th].open[0] in h[th].open; }
    RestBelow(h0, th, h0[th].open, level, h[th].open);
  }
}
