/** The structure of the heap: its lists, its strings and its open upvalues. */
module HeapFacts {
  import opened Basics
  import opened Objects
  import opened MarkFacts

  ghost predicate LinksOk(h: Heap, rootgc: seq<Id>) {
    NoDup(rootgc) && forall x :: x in rootgc <==> x in h && Rooted(h[x])
  }

  /** The open upvalues of a thread, ordered by decreasing stack level. */
  ghost predicate OpenOk(h: Heap, th: Id)
    requires th in h && h[th].Thread?
  {
    var open := h[th].open;
    && (forall u :: u in open ==> u in h && h[u].OpenUpval? && h[u].th == th && h[u].level < |h[th].stack|)
    && (forall i, j :: 0 <= i < j < |open| ==> h[open[i]].level > h[open[j]].level)
  }

  ghost predicate UpvalsOk(h: Heap, uvhead: seq<Id>) {
    && (forall u :: u in uvhead <==> u in h && h[u].OpenUpval?)
    && NoDup(uvhead)
    && (forall u :: u in h && h[u].OpenUpval? ==> h[u].th in h && h[h[u].th].Thread? && u in h[h[u].th].open)
    && (forall th :: th in h && h[th].Thread? ==> OpenOk(h, th))
  }

  /** Every string is in the bucket of its hash, and no two strings are equal. */
  ghost predicate StringsOk(h: Heap, strt: seq<seq<Id>>, hash: string -> nat) {
    && |strt| > 0 && (forall i :: 0 <= i < |strt| ==> NoDup(strt[i]))
    && (forall i, x :: 0 <= i < |strt| && x in strt[i] ==> x in h && h[x].Str? && hash(h[x].s) % |strt| == i)
    && (forall x :: x in h && h[x].Str? ==> x in strt[hash(h[x].s) % |strt|])
    && (forall x, y :: x in h && y in h && h[x].Str? && h[y].Str? && h[x].s == h[y].s ==> x == y)
  }

  function Without(l: seq<Id>, x: Id): (r: seq<Id>)
    ensures x !in l ==> r == l
  {
    if l == [] then [] else if l[0] == x then l[1..] else [l[0]] + Without(l[1..], x)
  }

  lemma {:induction false} WithoutElems(l: seq<Id>, x: Id)
    requires NoDup(l)
    ensures NoDup(Without(l, x)) && forall y :: y in Without(l, x) <==> y in l && y != x
    ensures x in l ==> |Without(l, x)| == |l| - 1
  {
    if l != [] {
      var t := l[1..];
      assert forall i :: 0 <= i < |t| ==> t[i] == l[i + 1];
      assert l[0] !in t;
      assert l == [l[0]] + t;
      if l[0] != x {
        WithoutElems(t, x);
        var r := [l[0]] + Without(t, x);
        forall i, j | 0 <= i < j < |r| ensures r[i] != r[j] {
          if i == 0 { assert r[j] in Without(t, x); } else { assert Without(t, x)[i - 1] != Without(t, x)[j - 1]; }
        }
      }
    }
  }

  /** Removing the element at index `i`. */
  lemma {:induction false} WithoutAt(l: seq<Id>, i: nat)
    requires NoDup(l) && i < |l|
    ensures Without(l, l[i]) == l[..i] + l[i + 1..]
  {
    if i > 0 {
      assert l[0] != l[i];
      var t := l[1..];
      assert forall k :: 0 <= k < |t| ==> t[k] == l[k + 1];
      WithoutAt(t, i - 1);
      assert l[..i] == [l[0]] + t[..i - 1] && l[i + 1..] == t[i..];
    }
  }

  /** `x` holds the same references and the same content; an open upvalue may be closed. */
  ghost predicate SameContents(h: Heap, h': Heap, x: Id)
    requires x in h && x in h'
  {
    && RefsOf(h', x) == RefsOf(h, x)
    && match h[x]
       case Thread(_, _, _) => h'[x].Thread?
       case OpenUpval(_, _) => h'[x] == h[x] || h'[x].ClosedUpval?
       case _ => h'[x] == h[x]
  }

  /** Live objects stay live. */
  ghost predicate StayLive(h: Heap, c: Marks, cw: bool, h': Heap, c': Marks) {
    forall x :: Live(h, c, cw, x) ==> Live(h', c', cw, x)
  }

  /** What is live was live before, or is fixed. */
  ghost predicate NoneRevived(h: Heap, c: Marks, cw: bool, h': Heap, c': Marks, fixed: set<Id>) {
    forall x :: Live(h', c', cw, x) ==> Live(h, c, cw, x) || x in fixed
  }

  /** Nothing live is lost or altered. */
  ghost predicate Preserved(h: Heap, c: Marks, cw: bool, h': Heap) {
    forall x :: Live(h, c, cw, x) ==> x in h' && SameContents(h, h', x)
  }

  /** Nothing live is lost or altered, and nothing dead comes back but what is fixed. */
  ghost predicate KeepsLive(h: Heap, c: Marks, cw: bool, h': Heap, c': Marks, fixed: set<Id>) {
    Preserved(h, c, cw, h') && StayLive(h, c, cw, h', c') && NoneRevived(h, c, cw, h', c', fixed)
  }

  lemma KeepsLiveSelf(h: Heap, c: Marks, cw: bool, fixed: set<Id>)
    ensures KeepsLive(h, c, cw, h, c, fixed)
  {
  }

  lemma PreservedSelf(h: Heap, c: Marks, cw: bool)
    ensures Preserved(h, c, cw, h)
  {
  }

  lemma KeepsLiveTrans(h: Heap, c: Marks, cw: bool, h1: Heap, c1: Marks, h2: Heap, c2: Marks, fixed: set<Id>)
    requires KeepsLive(h, c, cw, h1, c1, fixed) && KeepsLive(h1, c1, cw, h2, c2, fixed)
    ensures KeepsLive(h, c, cw, h2, c2, fixed)
  {
    forall x | Live(h, c, cw, x) ensures x in h2 && SameContents(h, h2, x) {
      assert Live(h1, c1, cw, x);
      assert SameContents(h, h1, x) && SameContents(h1, h2, x);
    }
  }

  // ---------------------------------------------------------------- phases of a collection

  ghost predicate IsWhite(c: Marks, cw: bool, x: Id) { x in c && c[x] == White(cw) }

  ghost predicate StringsWhite(h: Heap, c: Marks, cw: bool) {
    forall x :: x in h && h[x].Str? ==> IsWhite(c, cw, x)
  }

  ghost predicate BucketsWhite(c: Marks, cw: bool, strt: seq<seq<Id>>, n: nat) {
    forall i, x :: 0 <= i < n && i < |strt| && x in strt[i] ==> IsWhite(c, cw, x)
  }

  /** The swept part of `rootgc`, with the open upvalues of its threads. */
  ghost predicate SweptWhite(h: Heap, c: Marks, cw: bool, swept: seq<Id>) {
    forall x :: x in swept ==> IsWhite(c, cw, x) && (x in h && h[x].Thread? ==> forall u :: u in h[x].open ==> IsWhite(c, cw, u))
  }

  // ---------------------------------------------------------------- changes to the heap

  predicate SameKind(a: Body, b: Body) {
    match a
    case Str(_) => a == b
    case Udata(_) => b.Udata?
    case Table(_) => b.Table?
    case Function(_) => b.Function?
    case Proto(_) => b.Proto?
    case Thread(_, _, _) => b.Thread?
    case OpenUpval(_, _) => a == b
    case ClosedUpval(_) => b.ClosedUpval?
  }

  /** Objects keep their references and kinds, except that open upvalue `u` may be closed. */
  ghost predicate SameRefs(h: Heap, h': Heap, u: Id) {
    forall x :: x in h && x in h' ==> RefsOf(h', x) == RefsOf(h, x) && (SameKind(h[x], h'[x]) || (x == u && h[x].OpenUpval? && h'[x].ClosedUpval?))
  }

  /** A new object, white, whose references are live. */
  lemma Allocated(h: Heap, c: Marks, cw: bool, h': Heap, id: Id, roots: set<Id>)
    requires c.Keys == h.Keys && id !in h && h'.Keys == h.Keys + {id} && SameRefs(h, h', id)
    requires Closed(h, c, cw) && AllLive(h, c, cw, roots)
    requires forall y :: To(y) in RefsOf(h', id) ==> Live(h, c, cw, y)
    ensures Closed(h', c[id := White(cw)], cw) && AllLive(h', c[id := White(cw)], cw, roots)
    ensures AllWhite(h, c, cw) ==> AllWhite(h', c[id := White(cw)], cw)
    ensures Preserved(h, c, cw, h') && StayLive(h, c, cw, h', c[id := White(cw)])
  {
    var c' := c[id := White(cw)];
    forall x, y | Live(h', c', cw, x) && Points(h', x, y) ensures Live(h', c', cw, y) {
      if x != id { assert Points(h, x, y) && Live(h, c, cw, x); }
    }
  }

  lemma AllocatedMarking(h: Heap, c: Marks, cw: bool, gray: seq<Id>, again: seq<Id>, h': Heap, id: Id)
    requires Marking(h, c, cw, gray, again, {})
    requires id !in h && h'.Keys == h.Keys + {id} && SameRefs(h, h', id)
    requires forall y :: To(y) in RefsOf(h', id) ==> y in h
    ensures Marking(h', c[id := White(cw)], cw, gray, again, {})
  {
    var c' := c[id := White(cw)];
    forall x | x in h' ensures ColorOk(h', c', cw, gray, again, x) {
      if x != id {
        assert ColorOk(h, c, cw, gray, again, x);
        assert forall y :: Points(h', x, y) ==> Points(h, x, y);
      }
    }
    forall x, y | Points(h', x, y) ensures y in h' {
      if x != id { assert Points(h, x, y); }
    }
  }

  /** Freeing a dead object. */
  lemma Freed(h: Heap, c: Marks, cw: bool, h': Heap, x: Id, roots: set<Id>, fixed: set<Id>)
    requires c.Keys == h.Keys && Dead(c, cw, x) && h'.Keys == h.Keys - {x} && SameRefs(h, h', x)
    requires Closed(h, c, cw) && AllLive(h, c, cw, roots)
    ensures Closed(h', c - {x}, cw) && AllLive(h', c - {x}, cw, roots)
    ensures KeepsLive(h, c, cw, h', c - {x}, fixed)
  {
    var c' := c - {x};
    forall y, z | Live(h', c', cw, y) && Points(h', y, z) ensures Live(h', c', cw, z) {
      assert Points(h, y, z) && Live(h, c, cw, y);
    }
  }

  /** Same objects, same references; live objects stay live. */
  lemma Rearranged(h: Heap, c: Marks, cw: bool, h': Heap, c': Marks, u: Id, roots: set<Id>, fixed: set<Id>)
    requires c.Keys == h.Keys == h'.Keys == c'.Keys && SameRefs(h, h', u)
    requires Closed(h, c, cw) && AllLive(h, c, cw, roots)
    requires forall x :: x in c && x != u ==> (Live(h, c, cw, x) <==> Live(h', c', cw, x))
    requires Live(h, c, cw, u) ==> Live(h', c', cw, u)
    requires Live(h', c', cw, u) && !Live(h, c, cw, u) ==> forall y :: To(y) in RefsOf(h, u) ==> Live(h, c, cw, y)
    ensures Closed(h', c', cw) && AllLive(h', c', cw, roots)
    ensures Preserved(h, c, cw, h') && StayLive(h, c, cw, h', c')
    ensures Live(h, c, cw, u) || !Live(h', c', cw, u) || u in fixed ==> KeepsLive(h, c, cw, h', c', fixed)
  {
    forall y, z | Live(h', c', cw, y) && Points(h', y, z) ensures Live(h', c', cw, z) {
      assert Points(h, y, z);
      if y != u { assert Live(h, c, cw, y); }
      assert Live(h, c, cw, z);
    }
  }

  lemma RearrangedMarking(h: Heap, c: Marks, cw: bool, gray: seq<Id>, again: seq<Id>, h': Heap, u: Id)
    requires Marking(h, c, cw, gray, again, {}) && h.Keys == h'.Keys && SameRefs(h, h', u)
    requires u in h && h[u] != h'[u] && h'[u].ClosedUpval? ==> c[u].White?
    ensures Marking(h', c, cw, gray, again, {})
  {
    forall x | x in h' ensures ColorOk(h', c, cw, gray, again, x) {
      assert ColorOk(h, c, cw, gray, again, x);
      assert forall y :: Points(h', x, y) ==> Points(h, x, y);
    }
    forall x, y | Points(h', x, y) ensures y in h' { assert Points(h, x, y); }
  }

  /** A marked open upvalue is closed: it turns black, and its value is to be marked. */
  lemma ClosedMarking(h: Heap, c: Marks, cw: bool, gray: seq<Id>, again: seq<Id>, h': Heap, u: Id)
    requires Marking(h, c, cw, gray, again, {}) && h.Keys == h'.Keys && SameRefs(h, h', u)
    requires u in h && h[u].OpenUpval? && h'[u].ClosedUpval? && c[u] == Gray
    ensures Marking(h', c[u := Black], cw, gray, again, {u})
  {
    var c' := c[u := Black];
    forall x | x in h' && x != u ensures ColorOk(h', c', cw, gray, again, x) {
      assert ColorOk(h, c, cw, gray, again, x);
      assert forall y :: Points(h', x, y) ==> Points(h, x, y);
    }
    forall x, y | Points(h', x, y) ensures y in h' { assert Points(h, x, y); }
  }

  lemma ExemptDone(h: Heap, c: Marks, cw: bool, gray: seq<Id>, again: seq<Id>, u: Id)
    requires Marking(h, c, cw, gray, again, {u}) && u in h && h[u].ClosedUpval? && c[u] == Black && RefsMarked(h, c, u)
    ensures Marking(h, c, cw, gray, again, {})
  {
    forall x | x in h ensures ColorOk(h, c, cw, gray, again, x) { }
  }

  /** While marking nothing is dead. */
  lemma MarkedLive(h: Heap, c: Marks, cw: bool, gray: seq<Id>, again: seq<Id>, roots: set<Id>)
    requires Marking(h, c, cw, gray, again, {}) && roots <= h.Keys
    ensures Closed(h, c, cw) && AllLive(h, c, cw, roots) && forall x :: x in h ==> Live(h, c, cw, x)
  {
    forall x | x in h ensures Live(h, c, cw, x) { assert ColorOk(h, c, cw, gray, again, x); }
  }

  lemma ValueThere(h: Heap, c: Marks, cw: bool, gray: seq<Id>, again: seq<Id>, h': Heap, u: Id)
    requires Marking(h, c, cw, gray, again, {}) && SameRefs(h, h', u)
    requires u in h && u in h' && h[u].OpenUpval? && h'[u].ClosedUpval?
    ensures h'[u].v.To? ==> h'[u].v.id in h
  {
    if h'[u].v.To? { assert To(h'[u].v.id) in RefsOf(h', u); assert Points(h, u, h'[u].v.id); }
  }

  /** A marked open upvalue is closed and turns black: nothing live is lost. */
  lemma BlackStart(h: Heap, c: Marks, cw: bool, gray: seq<Id>, again: seq<Id>, h': Heap, u: Id, roots: set<Id>, fixed: set<Id>)
    requires Marking(h, c, cw, gray, again, {}) && c.Keys == h.Keys == h'.Keys && SameRefs(h, h', u)
    requires u in h && h[u].OpenUpval? && h'[u].ClosedUpval? && c[u] == Gray
    requires Closed(h, c, cw) && AllLive(h, c, cw, roots)
    ensures Marking(h', c[u := Black], cw, gray, again, {u}) && KeepsLive(h, c, cw, h', c[u := Black], fixed)
    ensures (h'[u].v.To? ==> h'[u].v.id in h') && forall x :: x in h' ==> Live(h', c[u := Black], cw, x)
  {
    hide Marking, Closed, AllLive, Preserved;
    MarkedLive(h, c, cw, gray, again, {});
    ValueThere(h, c, cw, gray, again, h', u);
    ClosedMarking(h, c, cw, gray, again, h', u);
    Rearranged(h, c, cw, h', c[u := Black], u, roots, fixed);
  }

  /** When its value is marked too, the upvalue needs no exemption. */
  lemma BlackEnd(h: Heap, c: Marks, cw: bool, h': Heap, c1: Marks, c2: Marks, gray: seq<Id>, again: seq<Id>, u: Id, roots: set<Id>, fixed: set<Id>)
    requires c1.Keys == h'.Keys && roots <= h'.Keys && u in h' && h'[u].ClosedUpval? && c1[u] == Black
    requires KeepsLive(h, c, cw, h', c1, fixed) && Grows(c1, c2) && (forall x :: x in h' ==> Live(h', c1, cw, x))
    requires Marking(h', c2, cw, gray, again, {u}) && (h'[u].v.To? ==> Marked(c2, h'[u].v.id))
    ensures Marking(h', c2, cw, gray, again, {}) && Closed(h', c2, cw) && AllLive(h', c2, cw, roots) && KeepsLive(h, c, cw, h', c2, fixed)
  {
    hide Marking, Closed, AllLive, Preserved;
    ExemptDone(h', c2, cw, gray, again, u);
    MarkedLive(h', c2, cw, gray, again, roots);
  }
}
