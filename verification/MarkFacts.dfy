/** What marking does to the colours of objects. */
module MarkFacts {
  import opened Objects

  // ---------------------------------------------------------------- marking lemmas

  lemma WhitesLess(c: Marks, id: Id, k: Color)
    requires id in c && c[id].White? && !k.White?
    ensures Whites(c[id := k]) == Whites(c) - {id} && id in Whites(c)
    ensures |Whites(c[id := k])| == |Whites(c)| - 1
  {
    assert Whites(c[id := k]) == Whites(c) - {id};
  }

  /** One white object gets a colour; a traversable one goes to the gray list. */
  lemma Recolored(h: Heap, c: Marks, cw: bool, gray: seq<Id>, again: seq<Id>, exc: set<Id>, id: Id, k: Color, gray': seq<Id>)
    requires Marking(h, c, cw, gray, again, exc) && id in h && c[id].White?
    requires k == Gray || k == Black
    requires gray' == if Traversable(h[id]) then [id] + gray else gray
    requires Traversable(h[id]) ==> k == Gray
    ensures Grows(c, c[id := k]) && Marking(h, c[id := k], cw, gray', again, exc + {id})
    ensures h[id].Str? || Traversable(h[id]) ==>
              (k == Gray ==> Marking(h, c[id := k], cw, gray', again, exc)) && UpvalsSeen(h, c, c[id := k], exc) && MarkedFrom(h, c, c[id := k], id)
  {
    var c' := c[id := k];
    forall x | x in h && x !in exc && x != id ensures ColorOk(h, c', cw, gray', again, x) {
      assert ColorOk(h, c, cw, gray, again, x);
    }
    ReachSelf(h, id);
    if Traversable(h[id]) {
      forall i, j | 0 <= i < j < |gray' + again| ensures (gray' + again)[i] != (gray' + again)[j] {
        var l := gray + again;
        assert gray' + again == [id] + l;
        if i == 0 {
          assert l[j - 1] in gray || l[j - 1] in again;
        } else { assert l[i - 1] != l[j - 1]; }
      }
    }
  }

  /** All references of `id` are marked: it needs no exemption any more. */
  lemma Finished(h: Heap, c0: Marks, c: Marks, cw: bool, gray: seq<Id>, again: seq<Id>, exc: set<Id>, id: Id)
    requires Marking(h, c, cw, gray, again, exc + {id}) && id in h && id !in exc
    requires id in c0 && c0[id].White? && c0.Keys == h.Keys
    requires h[id].Udata? || h[id].OpenUpval?
    requires var k := if h[id].Udata? then Black else Gray;
             var c1 := c0[id := k];
             c[id] == k && Grows(c1, c) && UpvalsSeen(h, c1, c, exc + {id}) && MarkedFrom(h, c1, c, id)
    requires forall y :: To(y) in RefsOf(h, id) ==> Marked(c, y)
    ensures Marking(h, c, cw, gray, again, exc) && Marked(c, id)
    ensures Grows(c0, c) && UpvalsSeen(h, c0, c, exc) && MarkedFrom(h, c0, c, id)
  {
    ReachSelf(h, id);
    assert RefsMarked(h, c, id);
    forall x | x in exc ensures Marked(c, x) { assert x in exc + {id}; }
    forall x | x in h && x !in exc ensures ColorOk(h, c, cw, gray, again, x) { }
  }

  lemma Blackened(h: Heap, c: Marks, cw: bool, gray: seq<Id>, again: seq<Id>, exc: set<Id>, id: Id)
    requires Marking(h, c, cw, gray, again, exc) && id in h && id in exc && h[id].ClosedUpval? && Marked(c, id)
    ensures Marking(h, c[id := Black], cw, gray, again, exc)
    ensures Whites(c[id := Black]) == Whites(c)
  {
    var c' := c[id := Black];
    assert Whites(c') == Whites(c);
    forall x | x in h && x !in exc ensures ColorOk(h, c', cw, gray, again, x) {
      assert ColorOk(h, c, cw, gray, again, x);
    }
  }

  lemma FinishedBlack(h: Heap, c0: Marks, c1: Marks, c: Marks, cw: bool, gray: seq<Id>, again: seq<Id>, exc: set<Id>, id: Id)
    requires Marking(h, c, cw, gray, again, exc + {id}) && id in h && id !in exc && h[id].ClosedUpval?
    requires id in c0 && c0[id].White? && c0.Keys == h.Keys && id in c1 && c == c1[id := Black]
    requires Grows(c0[id := Gray], c1) && UpvalsSeen(h, c0[id := Gray], c1, exc + {id}) && MarkedFrom(h, c0[id := Gray], c1, id)
    requires forall y :: To(y) in RefsOf(h, id) ==> Marked(c1, y)
    ensures Marking(h, c, cw, gray, again, exc) && Marked(c, id)
    ensures Grows(c0, c) && UpvalsSeen(h, c0, c, exc) && MarkedFrom(h, c0, c, id)
  {
    ReachSelf(h, id);
    assert RefsMarked(h, c, id);
    forall x | x in exc ensures Marked(c, x) { assert x in exc + {id}; }
    forall x | x in h && x !in exc ensures ColorOk(h, c, cw, gray, again, x) { }
    forall u | u in h && h[u].OpenUpval? && u !in exc && u in c0 && c0[u].White? && Marked(c, u) ensures RefsMarked(h, c, u) {
      assert RefsMarked(h, c1, u);
    }
  }

  lemma MoreMarked(h: Heap, c0: Marks, c1: Marks, c2: Marks, exc: set<Id>, owner: Id, id: Id)
    requires c0.Keys == h.Keys && Grows(c0, c1) && Grows(c1, c2) && Points(h, owner, id)
    requires UpvalsSeen(h, c0, c1, exc) && UpvalsSeen(h, c1, c2, exc)
    requires MarkedFrom(h, c0, c1, owner) && MarkedFrom(h, c1, c2, id)
    ensures Grows(c0, c2) && UpvalsSeen(h, c0, c2, exc) && MarkedFrom(h, c0, c2, owner)
  {
    forall u | u in h && h[u].OpenUpval? && u !in exc && u in c0 && c0[u].White? && Marked(c2, u) ensures RefsMarked(h, c2, u) {
      if !c1[u].White? { assert RefsMarked(h, c1, u); }
    }
    forall y | y in c0 && c0[y].White? && Marked(c2, y) ensures ReachesTo(h, owner, y) {
      if c1[y].White? { ReachFirst(h, owner, id, y); }
    }
  }

  lemma ReachFirst(h: Heap, x: Id, y: Id, z: Id)
    requires Points(h, x, y) && ReachesTo(h, y, z)
    ensures ReachesTo(h, x, z)
  {
    var p :| Path(h, p) && p[0] == y && p[|p| - 1] == z;
    var q := [x] + p;
    forall i | 0 <= i < |q| - 1 ensures Points(h, q[i], q[i + 1]) {
      if i > 0 { assert Points(h, p[i - 1], p[i]); }
    }
    assert Path(h, q);
  }

  // ---------------------------------------------------------------- mark phase

  /** Marked objects stay marked. */
  ghost predicate Keeps(c: Marks, c': Marks) {
    c.Keys == c'.Keys && forall x :: Marked(c, x) ==> Marked(c', x)
  }

  ghost predicate AllWhite(h: Heap, c: Marks, cw: bool) {
    c.Keys == h.Keys && forall x :: x in c ==> c[x] == White(cw)
  }

  ghost predicate NoDangling(h: Heap) {
    forall x, y {:trigger Points(h, x, y)} :: Points(h, x, y) ==> y in h
  }

  /** Marked open upvalues have marked values. */
  ghost predicate OpenDone(h: Heap, c: Marks) {
    forall u :: u in h && h[u].OpenUpval? && Marked(c, u) ==> RefsMarked(h, c, u)
  }

  ghost predicate UpvalsDone(h: Heap, c: Marks, l: seq<Id>) {
    forall u :: u in l && Marked(c, u) ==> RefsMarked(h, c, u)
  }

  /** When everything is white no list holds anything. */
  lemma NothingMarked(h: Heap, c: Marks, cw: bool, roots: set<Id>)
    requires AllWhite(h, c, cw) && NoDangling(h)
    ensures Marking(h, c, cw, [], [], {}) && Precise(h, c, roots)
  {
  }

  ghost predicate AllLive(h: Heap, c: Marks, cw: bool, roots: set<Id>) {
    forall r :: r in roots ==> Live(h, c, cw, r)
  }

  ghost predicate OnlyReachable(h: Heap, c: Marks, cw: bool, roots: set<Id>) {
    forall x :: Live(h, c, cw, x) ==> Reachable(h, roots, x)
  }

  lemma AtomicDone(h: Heap, c0: Marks, c5: Marks, c: Marks, cw: bool, again: seq<Id>, roots: set<Id>)
    requires Marking(h, c, cw, [], again, {}) && OpenDone(h, c5) && Closer(h, c0, c, roots) && Closer(h, c5, c, roots)
    requires forall x :: x in again ==> RefsMarked(h, c, x)
    requires forall r :: r in roots ==> Marked(c5, r)
    ensures Closed(h, c, !cw) && c.Keys == h.Keys && AllLive(h, c, !cw, roots)
    ensures Precise(h, c0, roots) ==> OnlyReachable(h, c, !cw, roots)
  {
    hide Marking, Precise, RefsMarked;
    AllDone(h, c, cw, again);
    if Precise(h, c0, roots) { PreciseMeans(h, c, roots); }
  }

  lemma PreciseMeans(h: Heap, c: Marks, roots: set<Id>)
    requires Precise(h, c, roots)
    ensures forall x :: Marked(c, x) ==> Reachable(h, roots, x)
  {
  }

  /** Only reachable objects are marked. */
  ghost predicate Precise(h: Heap, c: Marks, roots: set<Id>) {
    forall x :: Marked(c, x) ==> Reachable(h, roots, x)
  }

  /** Marking goes on: nothing unreachable gets marked, and the values of marked open
      upvalues stay marked. */
  ghost predicate Closer(h: Heap, c: Marks, c': Marks, roots: set<Id>) {
    Keeps(c, c') && (OpenDone(h, c) ==> OpenDone(h, c')) && (Precise(h, c, roots) ==> Precise(h, c', roots))
  }

  lemma RefsMarkedKeep(h: Heap, c: Marks, c': Marks, x: Id)
    requires RefsMarked(h, c, x) && Keeps(c, c')
    ensures RefsMarked(h, c', x)
  {
  }

  lemma KeepsSelf(h: Heap, c: Marks, roots: set<Id>)
    ensures Closer(h, c, c, roots)
  {
  }

  lemma CloserTrans(h: Heap, c0: Marks, c1: Marks, c2: Marks, roots: set<Id>)
    requires Closer(h, c0, c1, roots) && Closer(h, c1, c2, roots)
    ensures Closer(h, c0, c2, roots)
  {
  }

  lemma SeenKeeps(h: Heap, c: Marks, c': Marks)
    requires c.Keys == h.Keys && Grows(c, c') && UpvalsSeen(h, c, c', {})
    ensures Keeps(c, c')
    ensures forall u :: u in h && h[u].OpenUpval? && Marked(c', u) && (Marked(c, u) ==> RefsMarked(h, c, u)) ==> RefsMarked(h, c', u)
  {
    forall u | u in h && h[u].OpenUpval? && Marked(c', u) && (Marked(c, u) ==> RefsMarked(h, c, u)) ensures RefsMarked(h, c', u) {
      if Marked(c, u) { RefsMarkedGrow(h, c, c', u); }
    }
  }

  /** Marking everything `o` refers to, `o` being marked already (`c1` differs from `c0`
      only in the colour of `o`). */
  lemma Closing(h: Heap, c0: Marks, c1: Marks, c: Marks, roots: set<Id>, o: Id)
    requires c0.Keys == h.Keys && o in h && Marked(c0, o) && Marked(c1, o) && (c1 == c0 || c1 == c0[o := c1[o]])
    requires Grows(c1, c) && MarkedFrom(h, c1, c, o)
    requires UpvalsSeen(h, c1, c, {}) || (UpvalsSeen(h, c1, c, {o}) && !h[o].OpenUpval?)
    ensures Closer(h, c0, c, roots)
  {
    if OpenDone(h, c0) {
      forall u | u in h && h[u].OpenUpval? && Marked(c, u) ensures RefsMarked(h, c, u) {
        if Marked(c0, u) { RefsMarkedKeep(h, c0, c, u); }
      }
    }
    if Precise(h, c0, roots) {
      var r :| r in roots && ReachesTo(h, r, o);
      forall x | Marked(c, x) ensures Reachable(h, roots, x) {
        if !Marked(c0, x) { ReachBoth(h, r, o, x); }
      }
    }
  }

  lemma ReachBoth(h: Heap, x: Id, y: Id, z: Id)
    requires ReachesTo(h, x, y) && ReachesTo(h, y, z)
    ensures ReachesTo(h, x, z)
  {
    var p :| Path(h, p) && p[0] == x && p[|p| - 1] == y;
    var q :| Path(h, q) && q[0] == y && q[|q| - 1] == z;
    var s := p + q[1..];
    forall i | 0 <= i < |s| - 1 ensures Points(h, s[i], s[i + 1]) {
      if i < |p| - 1 { assert Points(h, p[i], p[i + 1]); }
      else { assert Points(h, q[i - |p| + 1], q[i - |p| + 2]); }
    }
    assert Path(h, s);
  }

  lemma RootMarked(h: Heap, c0: Marks, c: Marks, roots: set<Id>, r: Id)
    requires c0.Keys == h.Keys && r in roots && Grows(c0, c) && UpvalsSeen(h, c0, c, {}) && MarkedFrom(h, c0, c, r)
    ensures Closer(h, c0, c, roots)
  {
    SeenKeeps(h, c0, c);
  }

  lemma ReachGlobals(h: Heap, main: Id, roots: set<Id>)
    requires main in roots
    ensures Reachable(h, roots, main)
  {
    ReachSelf(h, main);
  }

  /** A thread taken from the gray list goes to the list to be traversed again. */
  lemma Requeued(h: Heap, c: Marks, cw: bool, o: Id, g: seq<Id>, again: seq<Id>)
    requires Marking(h, c, cw, [o] + g, again, {})
    ensures Marking(h, c, cw, g, [o] + again, {}) && c[o] == Gray
  {
    var l, l' := [o] + g + again, g + ([o] + again);
    assert o in [o] + g;
    forall x | x in h ensures ColorOk(h, c, cw, g, [o] + again, x) {
      assert ColorOk(h, c, cw, [o] + g, again, x);
    }
    forall x | x in g ensures x in [o] + g { }
    forall i, j | 0 <= i < j < |l'| ensures l'[i] != l'[j] {
      var i' := if i < |g| then i + 1 else if i == |g| then 0 else i;
      var j' := if j < |g| then j + 1 else if j == |g| then 0 else j;
      assert l'[i] == l[i'] && l'[j] == l[j'];
    }
  }

  lemma Popped(h: Heap, c: Marks, cw: bool, o: Id, g: seq<Id>, again: seq<Id>)
    requires Marking(h, c, cw, [o] + g, again, {})
    ensures Marking(h, c[o := Black], cw, g, again, {o}) && Whites(c[o := Black]) == Whites(c)
  {
    var l := [o] + g + again;
    assert o in [o] + g;
    var c' := c[o := Black];
    assert Whites(c') == Whites(c);
    forall x | x in h && x != o ensures ColorOk(h, c', cw, g, again, x) {
      assert ColorOk(h, c, cw, [o] + g, again, x);
    }
    forall x | x in g ensures x in [o] + g && x != o {
      var i :| 0 <= i < |g| && g[i] == x;
      assert l[0] != l[i + 1];
    }
    forall x | x in again ensures x != o {
      var i :| 0 <= i < |again| && again[i] == x;
      assert l[0] != l[i + 1 + |g|];
    }
    forall i, j | 0 <= i < j < |g + again| ensures (g + again)[i] != (g + again)[j] {
      assert l[i + 1] != l[j + 1];
    }
  }

  lemma Traversed(h: Heap, c: Marks, cw: bool, gray: seq<Id>, again: seq<Id>, o: Id)
    requires Marking(h, c, cw, gray, again, {o}) && o in h && c[o] == Black && Traversable(h[o]) && !h[o].Thread? && RefsMarked(h, c, o)
    ensures Marking(h, c, cw, gray, again, {})
  {
    forall x | x in h ensures ColorOk(h, c, cw, gray, again, x) { }
  }

  lemma SwappedLists(h: Heap, c: Marks, cw: bool, again: seq<Id>)
    requires Marking(h, c, cw, [], again, {})
    ensures Marking(h, c, cw, again, [], {})
  {
    assert [] + again == again == again + [];
    forall x | x in h ensures ColorOk(h, c, cw, again, [], x) { assert ColorOk(h, c, cw, [], again, x); }
  }

  /** At the end of the mark phase marked objects refer to marked objects only. */
  lemma AllDone(h: Heap, c: Marks, cw: bool, again: seq<Id>)
    requires Marking(h, c, cw, [], again, {}) && OpenDone(h, c)
    requires forall x :: x in again ==> RefsMarked(h, c, x)
    ensures forall x :: x in h && Marked(c, x) ==> RefsMarked(h, c, x)
    ensures Closed(h, c, !cw) && c.Keys == h.Keys && forall x :: Live(h, c, !cw, x) <==> Marked(c, x)
  {
    forall x ensures Live(h, c, !cw, x) <==> Marked(c, x) {
      if x in h { assert ColorOk(h, c, cw, [], again, x); }
    }
    forall x | x in h && Marked(c, x) ensures RefsMarked(h, c, x) {
      assert ColorOk(h, c, cw, [], again, x);
      if h[x].Str? { assert RefsOf(h, x) == []; }
    }
  }
}
