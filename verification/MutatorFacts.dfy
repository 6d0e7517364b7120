/** What the program does to the heap between two steps of the collector. */
module MutatorFacts {
  import opened Basics
  import opened Objects
  import opened MarkFacts
  import opened HeapFacts
  import opened StepFacts

  function InsertAt(l: seq<Id>, k: nat, x: Id): seq<Id>
    requires k <= |l|
  {
    l[..k] + [x] + l[k..]
  }

  lemma Inserted(l: seq<Id>, k: nat, x: Id)
    requires k <= |l| && NoDup(l) && x !in l
    ensures NoDup(InsertAt(l, k, x)) && forall y :: y in InsertAt(l, k, x) <==> y in l || y == x
  {
    var r := InsertAt(l, k, x);
    forall i | 0 <= i < |r| ensures r[i] == (if i < k then l[i] else if i == k then x else l[i - 1]) { }
    forall y | y in l ensures y in r {
      var i :| 0 <= i < |l| && l[i] == y;
      assert r[if i < k then i else i + 1] == y;
    }
    assert r[k] == x;
  }

  /** The references of a new object are live. */
  ghost predicate NewRefs(h: Heap, c: Marks, cw: bool, h': Heap, id: Id) {
    id in h' && forall y :: To(y) in RefsOf(h', id) ==> Live(h, c, cw, y)
  }

  lemma NewSafe(g: GcState, h: Heap, c: Marks, cw: bool, gray: seq<Id>, again: seq<Id>, h': Heap, id: Id, roots: set<Id>)
    requires c.Keys == h.Keys && id !in h && h'.Keys == h.Keys + {id} && SameRefs(h, h', id)
    requires Closed(h, c, cw) && AllLive(h, c, cw, roots) && NewRefs(h, c, cw, h', id)
    requires g == Propagate ==> Marking(h, c, cw, gray, again, {})
    ensures Closed(h', c[id := White(cw)], cw) && AllLive(h', c[id := White(cw)], cw, roots)
    ensures ReachableSurvives(h, roots, h')
    ensures g == Propagate ==> Marking(h', c[id := White(cw)], cw, gray, again, {})
  {
    hide Closed, AllLive, Marking, ReachableSurvives, SameRefs;
    Allocated(h, c, cw, h', id, roots);
    Survival(h, c, cw, h', roots);
    if g == Propagate { AllocatedMarking(h, c, cw, gray, again, h', id); }
  }

  /** `id` joins `rootgc`. */
  lemma LinkedShape(h: Heap, c: Marks, rootgc: seq<Id>, uvhead: seq<Id>, strt: seq<seq<Id>>, hash: string -> nat,
      main: Id, run: Id, fixed: set<Id>, id: Id, b: Body, k: nat, cw: bool)
    requires Shape(h, c, rootgc, uvhead, strt, hash, main, run, fixed)
    requires id !in h && Rooted(b) && (b.Thread? ==> b.open == []) && k <= |rootgc|
    ensures Shape(h[id := b], c[id := White(cw)], InsertAt(rootgc, k, id), uvhead, strt, hash, main, run, fixed)
    ensures SameRefs(h, h[id := b], id) && id !in rootgc
  {
    hide InsertAt, UpvalsOk, StringsOk, LinksOk, FixedOk, OpenGray, SameRefs;
    LinkedList(h, c, rootgc, main, fixed, id, b, k, cw);
    LinkedUpvals(h, uvhead, id, b);
    LinkedStrings(h, strt, hash, id, b);
  }

  lemma LinkedList(h: Heap, c: Marks, rootgc: seq<Id>, main: Id, fixed: set<Id>, id: Id, b: Body, k: nat, cw: bool)
    requires LinksOk(h, rootgc) && FixedOk(h, fixed, main) && OpenGray(h, c) && id !in h && Rooted(b) && k <= |rootgc|
    ensures LinksOk(h[id := b], InsertAt(rootgc, k, id)) && id !in rootgc
    ensures FixedOk(h[id := b], fixed, main) && OpenGray(h[id := b], c[id := White(cw)])
  {
    hide InsertAt, NoDup;
    assert id !in rootgc;
    Inserted(rootgc, k, id);
  }

  lemma LinkedUpvals(h: Heap, uvhead: seq<Id>, id: Id, b: Body)
    requires UpvalsOk(h, uvhead) && id !in h && Rooted(b) && (b.Thread? ==> b.open == [])
    ensures UpvalsOk(h[id := b], uvhead) && SameRefs(h, h[id := b], id)
  {
    var h' := h[id := b];
    forall t | t in h' && h'[t].Thread? ensures OpenOk(h', t) {
      if t != id { assert OpenOk(h, t); }
    }
  }

  lemma LinkedStrings(h: Heap, strt: seq<seq<Id>>, hash: string -> nat, id: Id, b: Body)
    requires StringsOk(h, strt, hash) && id !in h && Rooted(b)
    ensures StringsOk(h[id := b], strt, hash)
  {
  }

  lemma LinkedSwept(h': Heap, c': Marks, cw: bool, rootgc: seq<Id>, k: nat, id: Id, at: nat)
    requires k <= |rootgc| && at <= |rootgc| && IsWhite(c', cw, id) && (id in h' && h'[id].Thread? ==> h'[id].open == [])
    ensures SameSwept(h', c', cw, rootgc[..k], InsertAt(rootgc, at, id)[..if k > at then k + 1 else k])
  {
    var r := InsertAt(rootgc, at, id);
    if k > at {
      assert r[..k + 1] == rootgc[..at] + [id] + rootgc[at..k] && rootgc[..k] == rootgc[..at] + rootgc[at..k];
    } else {
      assert r[..k] == rootgc[..k];
    }
  }

  lemma LinkedOpen(h: Heap, c: Marks, cw: bool, id: Id, b: Body)
    requires id !in h && c.Keys == h.Keys && Rooted(b) && (b.Thread? ==> b.open == [])
    ensures var c' := c[id := White(cw)];
      SameOpen(h, h[id := b], c', cw) && SameStrings(h, h[id := b], c', cw) && Paler(c, c', cw)
  {
  }

  lemma LinkedSettled(g: GcState, h: Heap, c: Marks, cw: bool, strt: seq<seq<Id>>, n: nat, rootgc: seq<Id>, k: nat,
      uvhead: seq<Id>, hash: string -> nat, id: Id, b: Body, at: nat)
    requires Settled(g, h, c, cw, strt, n, rootgc, k) && id !in h && c.Keys == h.Keys && at <= |rootgc| && Rooted(b)
    requires b.Thread? ==> b.open == []
    requires StringsOk(h[id := b], strt, hash) && LinksOk(h[id := b], InsertAt(rootgc, at, id)) && UpvalsOk(h[id := b], uvhead)
    ensures Settled(g, h[id := b], c[id := White(cw)], cw, strt, n, InsertAt(rootgc, at, id), if k > at then k + 1 else k)
  {
    hide StringsOk, LinksOk, UpvalsOk, SameOpen, SameStrings, SameSwept, SameBuckets, SweptWhite, StringsWhite, BucketsWhite;
    var h', c', r := h[id := b], c[id := White(cw)], InsertAt(rootgc, at, id);
    LinkedOpen(h, c, cw, id, b);
    BucketsSame(h, c', cw, h', strt);
    if g == Sweep { LinkedSwept(h', c', cw, rootgc, k, id, at); }
    hide Paler, InsertAt;
    SettledKept(g, h, c, cw, strt, n, rootgc, k, h', c', strt, r, if k > at then k + 1 else k, uvhead, hash);
  }

  // ---------------------------------------------------------------- stores

  /** The references of a field list after a store, at a new position or an old one. */
  function SetAt(l: seq<Ref>, i: nat, v: Ref): seq<Ref>
    requires i <= |l|
  {
    if i < |l| then l[i := v] else l + [v]
  }

  lemma SetAtRefs(l: seq<Ref>, i: nat, v: Ref)
    requires i <= |l|
    ensures forall r :: r in SetAt(l, i, v) ==> r in l || r == v
  {
  }

  /** `o` has a new body, all of whose references it had before, except for `v`. */
  ghost predicate Stores(h: Heap, h': Heap, o: Id, v: Ref) {
    && o in h && h'.Keys == h.Keys && (forall x :: x in h && x != o ==> h'[x] == h[x])
    && SameKind(h[o], h'[o])
    && (h[o].Thread? ==> h'[o].open == h[o].open && forall u :: u in h[o].open && u in h && h[u].OpenUpval? ==> h[u].level < |h'[o].stack|)
    && (forall x, y {:trigger Points(h', x, y)} :: Points(h', x, y) ==> Points(h, x, y) || v == To(y))
  }

  ghost predicate LiveRef(h: Heap, c: Marks, cw: bool, v: Ref) { v.To? ==> Live(h, c, cw, v.id) }

  /** A store into an object that open upvalues do not read. */
  lemma BodyStores(h: Heap, o: Id, b: Body, v: Ref)
    requires o in h && SameKind(h[o], b) && !b.Thread? && !b.OpenUpval?
    requires forall y :: To(y) in RefsOf(h[o := b], o) ==> To(y) in RefsOf(h, o) || To(y) == v
    ensures Stores(h, h[o := b], o, v)
  {
    var h' := h[o := b];
    forall x, y | Points(h', x, y) ensures Points(h, x, y) || v == To(y) {
      if x != o { assert RefsOf(h', x) == RefsOf(h, x); }
    }
  }

  /** A change of a thread: its open upvalues read its stack. */
  lemma ThreadStores(h: Heap, th: Id, gt: Ref, stack: seq<Ref>, v: Ref)
    requires th in h && h[th].Thread?
    requires forall u :: u in h[th].open && u in h && h[u].OpenUpval? ==> h[u].level < |stack|
    requires forall l :: 0 <= l < |stack| ==> stack[l] == v || (l < |h[th].stack| && stack[l] == h[th].stack[l])
    requires gt == v || gt == h[th].gt
    ensures Stores(h, h[th := Thread(gt, stack, h[th].open)], th, v)
  {
    var h' := h[th := Thread(gt, stack, h[th].open)];
    forall x, y | Points(h', x, y) ensures Points(h, x, y) || v == To(y) {
      if x == th {
        if To(y) != gt {
          var l :| 0 <= l < |stack| && stack[l] == To(y);
        }
      } else if h[x].OpenUpval? && h[x].th == th {
        assert h'[x] == h[x];
      } else {
        assert RefsOf(h', x) == RefsOf(h, x);
      }
    }
  }

  lemma StoredShape(h: Heap, c: Marks, rootgc: seq<Id>, uvhead: seq<Id>, strt: seq<seq<Id>>, hash: string -> nat,
      main: Id, run: Id, fixed: set<Id>, h': Heap, o: Id, v: Ref)
    requires Shape(h, c, rootgc, uvhead, strt, hash, main, run, fixed) && Stores(h, h', o, v)
    ensures Shape(h', c, rootgc, uvhead, strt, hash, main, run, fixed)
  {
    hide UpvalsOk, LinksOk, StringsOk, FixedOk, OpenGray, Stores;
    StoresKinds(h, h', o, v);
    StoredUpvals(h, uvhead, h', o, v);
    StoredLists(h, c, rootgc, strt, hash, main, fixed, h', o, v);
  }

  lemma StoresKinds(h: Heap, h': Heap, o: Id, v: Ref)
    requires Stores(h, h', o, v)
    ensures o in h && h'.Keys == h.Keys && forall x :: x in h && h[x].Thread? ==> h'[x].Thread?
  {
  }

  lemma StoredLists(h: Heap, c: Marks, rootgc: seq<Id>, strt: seq<seq<Id>>, hash: string -> nat, main: Id, fixed: set<Id>, h': Heap, o: Id, v: Ref)
    requires LinksOk(h, rootgc) && StringsOk(h, strt, hash) && FixedOk(h, fixed, main) && OpenGray(h, c) && Stores(h, h', o, v)
    ensures LinksOk(h', rootgc) && StringsOk(h', strt, hash) && FixedOk(h', fixed, main) && OpenGray(h', c)
  {
    var b := h'[o];
    assert h' == h[o := b];
    hide Stores;
    assert LinksOk(h', rootgc) by { hide StringsOk, FixedOk, OpenGray; }
    assert FixedOk(h', fixed, main) && OpenGray(h', c) by { hide StringsOk, LinksOk; }
    StoredStrings(h, strt, hash, o, b);
  }

  lemma StoredStrings(h: Heap, strt: seq<seq<Id>>, hash: string -> nat, o: Id, b: Body)
    requires StringsOk(h, strt, hash) && o in h && SameKind(h[o], b)
    ensures StringsOk(h[o := b], strt, hash)
  {
    var h' := h[o := b];
    assert forall x :: x in h ==> (h'[x].Str? <==> h[x].Str?) && (h[x].Str? ==> h'[x] == h[x]);
  }

  lemma StoredThread(h: Heap, h': Heap, o: Id, v: Ref, t: Id)
    requires Stores(h, h', o, v) && t in h && h[t].Thread? && OpenOk(h, t)
    ensures h'[t].Thread? && h'[t].open == h[t].open && OpenOk(h', t)
  {
    forall u | u in h[t].open ensures u in h' && h'[u] == h[u] { assert SameKind(h[o], h'[o]); }
  }

  lemma StoredUpvals(h: Heap, uvhead: seq<Id>, h': Heap, o: Id, v: Ref)
    requires UpvalsOk(h, uvhead) && Stores(h, h', o, v)
    ensures UpvalsOk(h', uvhead)
  {
    hide OpenOk;
    assert SameKind(h[o], h'[o]);
    forall t | t in h' && h'[t].Thread? ensures h[t].Thread? && h'[t].open == h[t].open && OpenOk(h', t) { StoredThread(h, h', o, v, t); }
    assert forall u :: u in h' && h'[u].OpenUpval? ==> h'[u] == h[u];
  }

  /** A live reference stored anywhere leaves live objects referring to live objects. */
  lemma StoredSafe(h: Heap, c: Marks, cw: bool, roots: set<Id>, h': Heap, o: Id, v: Ref)
    requires Closed(h, c, cw) && AllLive(h, c, cw, roots) && Stores(h, h', o, v) && LiveRef(h, c, cw, v)
    ensures Closed(h', c, cw) && AllLive(h', c, cw, roots)
  {
    forall x, y | Live(h', c, cw, x) && Points(h', x, y) ensures Live(h', c, cw, y) {
      if Points(h, x, y) { assert Live(h, c, cw, y); } else { assert v == To(y); }
    }
  }

  lemma StoredSettled(g: GcState, h: Heap, c: Marks, cw: bool, strt: seq<seq<Id>>, n: nat, rootgc: seq<Id>, k: nat, h': Heap, o: Id, v: Ref)
    requires Settled(g, h, c, cw, strt, n, rootgc, k) && Stores(h, h', o, v)
    ensures Settled(g, h', c, cw, strt, n, rootgc, k)
  {
  }

  /** The store may break the invariant only in `o`, and only if `o` is black and `v` white. */
  lemma StoredMarking(h: Heap, c: Marks, cw: bool, gray: seq<Id>, again: seq<Id>, h': Heap, o: Id, v: Ref)
    requires Marking(h, c, cw, gray, again, {}) && Stores(h, h', o, v) && (v.To? ==> v.id in h)
    ensures c[o] == Black && v.To? && c[v.id].White? ==> Marking(h', c, cw, gray, again, {o}) && o !in gray && o !in again
    ensures !(c[o] == Black && v.To? && c[v.id].White?) ==> Marking(h', c, cw, gray, again, {})
    ensures c[o] == Black ==> forall y :: Points(h', o, y) ==> Marked(c, y) || v == To(y)
  {
    assert ColorOk(h, c, cw, gray, again, o);
    forall x | x in h' && x != o ensures ColorOk(h', c, cw, gray, again, x) {
      assert ColorOk(h, c, cw, gray, again, x);
      if c[x] == Black {
        assert h'[x] == h[x] && RefsOf(h', x) == RefsOf(h, x);
        assert forall y :: Points(h', x, y) ==> Points(h, x, y);
      }
    }
    forall x, y | Points(h', x, y) ensures y in h' { assert Points(h, x, y) || v == To(y); }
    if !(c[o] == Black && v.To? && c[v.id].White?) {
      assert ColorOk(h', c, cw, gray, again, o) by {
        if c[o] == Black {
          forall y | Points(h', o, y) ensures Marked(c, y) { assert Points(h, o, y) || v == To(y); }
        }
      }
    }
  }

  /** Backward barrier: the table is gray again. */
  lemma BackMarking(h: Heap, c: Marks, cw: bool, gray: seq<Id>, again: seq<Id>, o: Id)
    requires Marking(h, c, cw, gray, again, {o}) && o in h && h[o].Table? && o !in gray && o !in again
    ensures Marking(h, c[o := Gray], cw, gray, [o] + again, {})
  {
    var c' := c[o := Gray];
    forall x | x in h ensures ColorOk(h, c', cw, gray, [o] + again, x) {
      if x != o { assert ColorOk(h, c, cw, gray, again, x); }
    }
    var l, l' := gray + again, gray + ([o] + again);
    assert l' == l[..|gray|] + [o] + l[|gray|..];
    Inserted(l, |gray|, o);
  }

  /** A black object that turns gray was not white before. */
  lemma GraySettled(g: GcState, h: Heap, c: Marks, cw: bool, strt: seq<seq<Id>>, n: nat, rootgc: seq<Id>, k: nat, o: Id)
    requires Settled(g, h, c, cw, strt, n, rootgc, k) && o in c && !c[o].White?
    ensures Settled(g, h, c[o := Gray], cw, strt, n, rootgc, k)
  {
    var c' := c[o := Gray];
    assert forall x :: IsWhite(c, cw, x) ==> IsWhite(c', cw, x);
  }

  lemma GraySafe(h: Heap, c: Marks, cw: bool, roots: set<Id>, o: Id)
    requires Closed(h, c, cw) && AllLive(h, c, cw, roots) && o in c && !c[o].White?
    ensures Closed(h, c[o := Gray], cw) && AllLive(h, c[o := Gray], cw, roots)
  {
    forall x ensures Live(h, c[o := Gray], cw, x) <==> Live(h, c, cw, x) { }
  }

  lemma NotBlack(h: Heap, c: Marks, cw: bool, gray: seq<Id>, again: seq<Id>, h': Heap, o: Id, v: Ref)
    requires Marking(h, c, cw, gray, again, {}) && Stores(h, h', o, v) && c[o] == Black
    ensures !h'[o].Str? && !h'[o].Thread? && !h'[o].OpenUpval?
  {
    assert ColorOk(h, c, cw, gray, again, o);
  }

  lemma ThreadGray(h: Heap, c: Marks, cw: bool, gray: seq<Id>, again: seq<Id>, th: Id)
    requires Marking(h, c, cw, gray, again, {}) && th in h && h[th].Thread?
    ensures c[th] != Black
  {
    assert ColorOk(h, c, cw, gray, again, th);
  }

  /** Forward barrier: what the black object refers to is marked. */
  lemma ForwardMarking(h: Heap, c0: Marks, c: Marks, cw: bool, gray: seq<Id>, again: seq<Id>, o: Id, v: Ref)
    requires Marking(h, c, cw, gray, again, {o}) && o in h && c[o] == Black && !h[o].Str? && !h[o].Thread? && !h[o].OpenUpval?
    requires Grows(c0, c) && (v.To? ==> Marked(c, v.id)) && forall y :: Points(h, o, y) ==> Marked(c0, y) || v == To(y)
    ensures Marking(h, c, cw, gray, again, {})
  {
    forall x | x in h ensures ColorOk(h, c, cw, gray, again, x) { }
  }

  // ---------------------------------------------------------------- a new open upvalue

  function Opened(h: Heap, th: Id, i: nat, id: Id, level: nat): Heap
    requires th in h && h[th].Thread? && i <= |h[th].open|
  {
    h[th := h[th].(open := InsertAt(h[th].open, i, id))][id := OpenUpval(th, level)]
  }

  /** `level` belongs at position `i` among the sorted open upvalues. */
  ghost predicate Belongs(h: Heap, open: seq<Id>, i: nat, level: nat) {
    && i <= |open|
    && (forall j :: 0 <= j < i && open[j] in h && h[open[j]].OpenUpval? ==> h[open[j]].level > level)
    && (forall j :: i <= j < |open| && open[j] in h && h[open[j]].OpenUpval? ==> h[open[j]].level < level)
  }

  lemma BelongsThere(h: Heap, open: seq<Id>, i: nat, level: nat)
    requires Belongs(h, open, i, level)
    ensures i <= |open|
  {
  }

  lemma OpenedElems(h: Heap, th: Id, i: nat, id: Id, level: nat)
    requires th in h && h[th].Thread? && OpenOk(h, th) && i <= |h[th].open| && id !in h && level < |h[th].stack|
    ensures forall x :: x in Opened(h, th, i, id, level)[th].open <==> x in h[th].open || x == id
    ensures forall x :: x in h[th].open ==> Opened(h, th, i, id, level)[x] == h[x]
  {
    var l := h[th].open;
    assert forall x :: x in l ==> x != id && x != th;
    WithoutOrder(h, l, id);
    Inserted(l, i, id);
  }

  lemma OpenedThread(h: Heap, th: Id, i: nat, id: Id, level: nat)
    requires th in h && h[th].Thread? && OpenOk(h, th) && Belongs(h, h[th].open, i, level) && id !in h && level < |h[th].stack|
    ensures OpenOk(Opened(h, th, i, id, level), th)
    ensures forall x :: x in Opened(h, th, i, id, level)[th].open <==> x in h[th].open || x == id
  {
    var h', l := Opened(h, th, i, id, level), h[th].open;
    var r := InsertAt(l, i, id);
    OpenedElems(h, th, i, id, level);
    forall a, b | 0 <= a < b < |r| ensures h'[r[a]].level > h'[r[b]].level {
      OpenedOrder(h, l, i, id, level, h', a, b);
    }
  }

  lemma OpenedOrder(h: Heap, l: seq<Id>, i: nat, id: Id, level: nat, h': Heap, a: nat, b: nat)
    requires i <= |l| && a < b < |InsertAt(l, i, id)| && Belongs(h, l, i, level)
    requires forall x :: x in l ==> x in h && h[x].OpenUpval? && x in h' && h'[x] == h[x]
    requires forall m, n :: 0 <= m < n < |l| ==> h[l[m]].level > h[l[n]].level
    requires id in h' && h'[id].OpenUpval? && h'[id].level == level
    ensures var r := InsertAt(l, i, id);
      r[a] in h' && r[b] in h' && h'[r[a]].OpenUpval? && h'[r[b]].OpenUpval? && h'[r[a]].level > h'[r[b]].level
  {
    var r := InsertAt(l, i, id);
    var x := if a < i then l[a] else if a == i then id else l[a - 1];
    var y := if b < i then l[b] else if b == i then id else l[b - 1];
    assert r[a] == x && r[b] == y;
    assert a != i ==> x in l;
    assert b != i ==> y in l;
  }

  lemma OpenedHead(h: Heap, uvhead: seq<Id>, id: Id)
    requires UpvalsOk(h, uvhead) && id !in h
    ensures NoDup([id] + uvhead) && forall y :: y in [id] + uvhead <==> y in uvhead || y == id
  {
    hide OpenOk;
    assert id !in uvhead;
    Inserted(uvhead, 0, id);
    assert InsertAt(uvhead, 0, id) == [id] + uvhead;
  }

  lemma OpenedOther(h: Heap, th: Id, i: nat, id: Id, level: nat, t: Id)
    requires th in h && h[th].Thread? && i <= |h[th].open| && id !in h && t in h && t != th && h[t].Thread? && OpenOk(h, t)
    ensures var h' := Opened(h, th, i, id, level); h'[t] == h[t] && OpenOk(h', t)
  {
    var h' := Opened(h, th, i, id, level);
    assert forall x :: x in h[t].open ==> x != id && x != th && h'[x] == h[x];
  }

  lemma OpenedRefs(h: Heap, th: Id, i: nat, id: Id, level: nat)
    requires th in h && h[th].Thread? && i <= |h[th].open| && id !in h
    ensures var h' := Opened(h, th, i, id, level);
      && SameRefs(h, h', id) && h'.Keys == h.Keys + {id} && h'[id] == OpenUpval(th, level) && h'[th].Thread?
      && forall x :: x in h && x != th ==> h'[x] == h[x]
  {
  }

  lemma OpenedUpvals(h: Heap, uvhead: seq<Id>, th: Id, i: nat, id: Id, level: nat)
    requires UpvalsOk(h, uvhead) && th in h && h[th].Thread? && Belongs(h, h[th].open, i, level) && id !in h && level < |h[th].stack|
    ensures UpvalsOk(Opened(h, th, i, id, level), [id] + uvhead)
    ensures SameRefs(h, Opened(h, th, i, id, level), id)
  {
    hide OpenOk, Belongs, Opened, SameRefs, NoDup;
    BelongsThere(h, h[th].open, i, level);
    var h' := Opened(h, th, i, id, level);
    OpenedThread(h, th, i, id, level);
    OpenedRefs(h, th, i, id, level);
    OpenedHead(h, uvhead, id);
    forall t | t in h' && h'[t].Thread? ensures OpenOk(h', t) {
      if t != th { OpenedOther(h, th, i, id, level, t); }
    }
  }

  lemma OpenedShape(h: Heap, c: Marks, rootgc: seq<Id>, uvhead: seq<Id>, strt: seq<seq<Id>>, hash: string -> nat,
      main: Id, run: Id, fixed: set<Id>, th: Id, i: nat, id: Id, level: nat, cw: bool)
    requires Shape(h, c, rootgc, uvhead, strt, hash, main, run, fixed)
    requires th in h && h[th].Thread? && Belongs(h, h[th].open, i, level) && id !in h && level < |h[th].stack|
    ensures Shape(Opened(h, th, i, id, level), c[id := White(cw)], rootgc, [id] + uvhead, strt, hash, main, run, fixed)
    ensures SameRefs(h, Opened(h, th, i, id, level), id)
  {
    hide LinksOk, StringsOk, UpvalsOk, FixedOk, OpenGray, Belongs, InsertAt, SameRefs;
    BelongsThere(h, h[th].open, i, level);
    OpenedRest(h, c, rootgc, strt, hash, main, fixed, th, i, id, level, cw);
    OpenedUpvals(h, uvhead, th, i, id, level);
  }

  lemma OpenedRest(h: Heap, c: Marks, rootgc: seq<Id>, strt: seq<seq<Id>>, hash: string -> nat, main: Id, fixed: set<Id>,
      th: Id, i: nat, id: Id, level: nat, cw: bool)
    requires LinksOk(h, rootgc) && StringsOk(h, strt, hash) && FixedOk(h, fixed, main) && OpenGray(h, c)
    requires th in h && h[th].Thread? && i <= |h[th].open| && id !in h
    ensures var h' := Opened(h, th, i, id, level);
      LinksOk(h', rootgc) && StringsOk(h', strt, hash) && FixedOk(h', fixed, main) && OpenGray(h', c[id := White(cw)])
  {
  }

  lemma OpenedSettled(g: GcState, h: Heap, c: Marks, cw: bool, strt: seq<seq<Id>>, n: nat, rootgc: seq<Id>, k: nat,
      uvhead: seq<Id>, hash: string -> nat, th: Id, i: nat, id: Id, level: nat)
    requires Settled(g, h, c, cw, strt, n, rootgc, k) && c.Keys == h.Keys && id !in h
    requires th in h && h[th].Thread? && i <= |h[th].open|
    requires StringsOk(Opened(h, th, i, id, level), strt, hash) && LinksOk(Opened(h, th, i, id, level), rootgc)
    requires UpvalsOk(Opened(h, th, i, id, level), uvhead)
    ensures Settled(g, Opened(h, th, i, id, level), c[id := White(cw)], cw, strt, n, rootgc, k)
  {
    hide StringsOk, LinksOk, UpvalsOk, SameSwept, SameBuckets, SweptWhite, StringsWhite, BucketsWhite;
    var h', c' := Opened(h, th, i, id, level), c[id := White(cw)];
    assert SameOpen(h, h', c', cw) && SameStrings(h, h', c', cw) && Paler(c, c', cw);
    BucketsSame(h, c', cw, h', strt);
    if g == Sweep { SweptSame(h', c', cw, rootgc[..k]); }
    hide Opened, SameOpen, SameStrings, Paler;
    SettledKept(g, h, c, cw, strt, n, rootgc, k, h', c', strt, rootgc, k, uvhead, hash);
  }

  lemma OpenedAll(g: GcState, h: Heap, c: Marks, cw: bool, gray: seq<Id>, again: seq<Id>, strt: seq<seq<Id>>, n: nat,
      rootgc: seq<Id>, k: nat, uvhead: seq<Id>, hash: string -> nat, main: Id, run: Id, fixed: set<Id>, roots: set<Id>,
      th: Id, i: nat, id: Id, level: nat)
    requires Shape(h, c, rootgc, uvhead, strt, hash, main, run, fixed)
    requires Closed(h, c, cw) && AllLive(h, c, cw, roots) && Settled(g, h, c, cw, strt, n, rootgc, k)
    requires g == Propagate ==> Marking(h, c, cw, gray, again, {})
    requires th in h && h[th].Thread? && Belongs(h, h[th].open, i, level) && id !in h && level < |h[th].stack|
    requires NewRefs(h, c, cw, Opened(h, th, i, id, level), id)
    ensures var h', c' := Opened(h, th, i, id, level), c[id := White(cw)];
      && Shape(h', c', rootgc, [id] + uvhead, strt, hash, main, run, fixed)
      && Closed(h', c', cw) && AllLive(h', c', cw, roots) && Settled(g, h', c', cw, strt, n, rootgc, k)
      && (g == Propagate ==> Marking(h', c', cw, gray, again, {})) && ReachableSurvives(h, roots, h')
      && (forall x :: Marked(c, x) ==> Marked(c', x))
  {
    hide UpvalsOk, LinksOk, StringsOk, Closed, AllLive, Marking, FixedOk, OpenGray, Settled, ReachableSurvives, SameRefs, NewRefs, InsertAt, Opened;
    OpenedKeys(h, th, i, id, level);
    OpenedShape(h, c, rootgc, uvhead, strt, hash, main, run, fixed, th, i, id, level, cw);
    NewSafe(g, h, c, cw, gray, again, Opened(h, th, i, id, level), id, roots);
    OpenedSettled(g, h, c, cw, strt, n, rootgc, k, [id] + uvhead, hash, th, i, id, level);
  }

  // ---------------------------------------------------------------- a new string

  lemma NewStrBuckets(h: Heap, strt: seq<seq<Id>>, hash: string -> nat, id: Id, s: string)
    requires StringsOk(h, strt, hash) && id !in h && forall x :: x in h && h[x].Str? ==> h[x].s != s
    ensures var b := hash(s) % |strt|; StringsOk(h[id := Str(s)], strt[b := [id] + strt[b]], hash)
  {
    var b := hash(s) % |strt|;
    assert id !in strt[b];
    Inserted(strt[b], 0, id);
    assert InsertAt(strt[b], 0, id) == [id] + strt[b];
    hide InsertAt;
  }

  lemma NewStrUpvals(h: Heap, rootgc: seq<Id>, uvhead: seq<Id>, id: Id, s: string)
    requires UpvalsOk(h, uvhead) && LinksOk(h, rootgc) && id !in h
    ensures UpvalsOk(h[id := Str(s)], uvhead) && LinksOk(h[id := Str(s)], rootgc) && SameRefs(h, h[id := Str(s)], id)
  {
    forall t | t in h && h[t].Thread? ensures OpenOk(h[id := Str(s)], t) { assert OpenOk(h, t); }
  }

  lemma NewStrRest(h: Heap, c: Marks, strt: seq<seq<Id>>, hash: string -> nat, main: Id, fixed: set<Id>, id: Id, s: string, cw: bool)
    requires FixedOk(h, fixed, main) && OpenGray(h, c) && StringsOk(h, strt, hash) && id !in h
    ensures |strt| > 0 && FixedOk(h[id := Str(s)], fixed, main) && OpenGray(h[id := Str(s)], c[id := White(cw)])
  {
  }

  lemma NewStrShape(h: Heap, c: Marks, rootgc: seq<Id>, uvhead: seq<Id>, strt: seq<seq<Id>>, hash: string -> nat,
      main: Id, run: Id, fixed: set<Id>, id: Id, s: string, cw: bool)
    requires Shape(h, c, rootgc, uvhead, strt, hash, main, run, fixed)
    requires id !in h && forall x :: x in h && h[x].Str? ==> h[x].s != s
    ensures |strt| > 0 && var b := hash(s) % |strt|;
      Shape(h[id := Str(s)], c[id := White(cw)], rootgc, uvhead, strt[b := [id] + strt[b]], hash, main, run, fixed)
    ensures SameRefs(h, h[id := Str(s)], id)
  {
    hide LinksOk, StringsOk, UpvalsOk, FixedOk, OpenGray, SameRefs;
    NewStrRest(h, c, strt, hash, main, fixed, id, s, cw);
    NewStrBuckets(h, strt, hash, id, s);
    NewStrUpvals(h, rootgc, uvhead, id, s);
  }

  lemma NewStrSettled(g: GcState, h: Heap, c: Marks, cw: bool, strt: seq<seq<Id>>, n: nat, rootgc: seq<Id>, k: nat,
      uvhead: seq<Id>, hash: string -> nat, id: Id, s: string)
    requires Settled(g, h, c, cw, strt, n, rootgc, k) && c.Keys == h.Keys && id !in h && |strt| > 0
    requires var b := hash(s) % |strt|; StringsOk(h[id := Str(s)], strt[b := [id] + strt[b]], hash)
    requires LinksOk(h[id := Str(s)], rootgc) && UpvalsOk(h[id := Str(s)], uvhead)
    ensures var b := hash(s) % |strt|; Settled(g, h[id := Str(s)], c[id := White(cw)], cw, strt[b := [id] + strt[b]], n, rootgc, k)
  {
    hide StringsOk, LinksOk, UpvalsOk, SameSwept, SweptWhite, StringsWhite, BucketsWhite;
    var b := hash(s) % |strt|;
    var h', c', strt' := h[id := Str(s)], c[id := White(cw)], strt[b := [id] + strt[b]];
    assert SameOpen(h, h', c', cw) && SameStrings(h, h', c', cw) && Paler(c, c', cw);
    assert SameBuckets(h, c', cw, h', strt, strt');
    if g == Sweep { SweptSame(h', c', cw, rootgc[..k]); }
    hide SameOpen, SameStrings, SameBuckets, Paler;
    SettledKept(g, h, c, cw, strt, n, rootgc, k, h', c', strt', rootgc, k, uvhead, hash);
  }

  lemma NewStrAll(g: GcState, h: Heap, c: Marks, cw: bool, gray: seq<Id>, again: seq<Id>, strt: seq<seq<Id>>, n: nat,
      rootgc: seq<Id>, k: nat, uvhead: seq<Id>, hash: string -> nat, main: Id, run: Id, fixed: set<Id>, roots: set<Id>,
      id: Id, s: string, b: nat)
    requires Shape(h, c, rootgc, uvhead, strt, hash, main, run, fixed)
    requires Closed(h, c, cw) && AllLive(h, c, cw, roots) && Settled(g, h, c, cw, strt, n, rootgc, k)
    requires g == Propagate ==> Marking(h, c, cw, gray, again, {})
    requires id !in h && (forall x :: x in h && h[x].Str? ==> h[x].s != s) && |strt| > 0 && b == hash(s) % |strt|
    ensures var h', c' := h[id := Str(s)], c[id := White(cw)];
      && Shape(h', c', rootgc, uvhead, strt[b := [id] + strt[b]], hash, main, run, fixed)
      && Closed(h', c', cw) && AllLive(h', c', cw, roots) && Settled(g, h', c', cw, strt[b := [id] + strt[b]], n, rootgc, k)
      && (g == Propagate ==> Marking(h', c', cw, gray, again, {})) && ReachableSurvives(h, roots, h')
      && (forall x :: Marked(c, x) ==> Marked(c', x))
  {
    assert RefsOf(h[id := Str(s)], id) == [];
    assert NewRefs(h, c, cw, h[id := Str(s)], id);
    hide UpvalsOk, LinksOk, StringsOk, Closed, AllLive, Marking, FixedOk, OpenGray, Settled, ReachableSurvives, SameRefs, NewRefs;
    NewStrShape(h, c, rootgc, uvhead, strt, hash, main, run, fixed, id, s, cw);
    NewSafe(g, h, c, cw, gray, again, h[id := Str(s)], id, roots);
    NewStrSettled(g, h, c, cw, strt, n, rootgc, k, uvhead, hash, id, s);
  }

  // ---------------------------------------------------------------- looking things up

  /** A stack slot has at most one open upvalue. */
  lemma OneUpval(h: Heap, uvhead: seq<Id>, u: Id)
    requires UpvalsOk(h, uvhead) && u in h && h[u].OpenUpval?
    ensures forall x :: x in h && h[x] == h[u] ==> x == u
  {
    forall x | x in h && h[x] == h[u] ensures x == u {
      var l := h[h[u].th].open;
      assert OpenOk(h, h[u].th);
      var i :| 0 <= i < |l| && l[i] == u;
      var j :| 0 <= j < |l| && l[j] == x;
      assert !(i < j) && !(j < i);
    }
  }

  /** Where the search for a slot's upvalue stopped, a new one belongs. */
  lemma LevelFree(h: Heap, uvhead: seq<Id>, th: Id, i: nat, level: nat)
    requires UpvalsOk(h, uvhead) && th in h && h[th].Thread? && i <= |h[th].open|
    requires forall x :: x in h[th].open ==> x in h && h[x].OpenUpval?
    requires forall j :: 0 <= j < i ==> h[h[th].open[j]].level > level
    requires i < |h[th].open| ==> h[h[th].open[i]].level < level
    ensures Belongs(h, h[th].open, i, level)
    ensures forall u :: u in h ==> h[u] != OpenUpval(th, level)
  {
    assert OpenOk(h, th);
    var l := h[th].open;
    forall u | u in h && h[u].OpenUpval? && h[u].th == th ensures h[u].level != level {
      var j :| 0 <= j < |l| && l[j] == u;
    }
  }

  lemma OpenedKeys(h: Heap, th: Id, i: nat, id: Id, level: nat)
    requires th in h && h[th].Thread? && i <= |h[th].open| && id !in h
    ensures Opened(h, th, i, id, level).Keys == h.Keys + {id}
  {
  }

  lemma SomeBucket(h: Heap, strt: seq<seq<Id>>, hash: string -> nat)
    requires StringsOk(h, strt, hash)
    ensures |strt| > 0
  {
  }

  lemma InBucket(h: Heap, strt: seq<seq<Id>>, hash: string -> nat, b: nat, i: nat)
    requires StringsOk(h, strt, hash) && b < |strt| && i < |strt[b]|
    ensures strt[b][i] in h && h[strt[b][i]].Str?
  {
    assert strt[b][i] in strt[b];
  }

  lemma OneString(h: Heap, strt: seq<seq<Id>>, hash: string -> nat, r: Id)
    requires StringsOk(h, strt, hash) && r in h && h[r].Str?
    ensures forall x :: x in h && h[x] == h[r] ==> x == r
  {
  }

  lemma StringAbsent(h: Heap, strt: seq<seq<Id>>, hash: string -> nat, s: string)
    requires StringsOk(h, strt, hash) && |strt| > 0
    requires var l := strt[hash(s) % |strt|]; forall j :: 0 <= j < |l| ==> l[j] in h && h[l[j]] != Str(s)
    ensures forall x :: x in h && h[x].Str? ==> h[x].s != s
  {
    forall x | x in h && h[x].Str? ensures h[x].s != s {
      assert x in strt[hash(h[x].s) % |strt|];
    }
  }

  // ---------------------------------------------------------------- a fresh state

  function FirstHeap(): Heap { map[0 := Thread(To(1), [], []), 1 := Table([]), 2 := Table([])] }

  function FirstMarks(): Marks { map[0 := White(false), 1 := White(false), 2 := White(false)] }

  lemma FirstShape(strt: seq<seq<Id>>, hash: string -> nat)
    requires |strt| > 0 && forall i :: 0 <= i < |strt| ==> strt[i] == []
    ensures Shape(FirstHeap(), FirstMarks(), [2, 1, 0], [], strt, hash, 0, 0, {0})
  {
    FirstLists(strt, hash);
  }

  lemma FirstLists(strt: seq<seq<Id>>, hash: string -> nat)
    requires |strt| > 0 && forall i :: 0 <= i < |strt| ==> strt[i] == []
    ensures LinksOk(FirstHeap(), [2, 1, 0]) && UpvalsOk(FirstHeap(), []) && StringsOk(FirstHeap(), strt, hash)
  {
  }
}
