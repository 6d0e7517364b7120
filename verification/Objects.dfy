/** Collectable objects, their references, and what a collector may rely on. */
module Objects {
  import opened Basics

  type Id = nat

  /** A value as the collector sees it: a reference to a collectable object, or not one. */
  datatype Ref = NoRef | To(id: Id)

  /** The contents of an object.  `refs` stands for every reference the object's traversal
      visits; an open upvalue lives in the stack slot of a thread. */
  datatype Body =
    | Str(s: string)
    | Udata(refs: seq<Ref>)
    | Table(refs: seq<Ref>)
    | Function(refs: seq<Ref>)
    | Proto(refs: seq<Ref>)
    | Thread(gt: Ref, stack: seq<Ref>, open: seq<Id>)
    | OpenUpval(th: Id, level: nat)
    | ClosedUpval(v: Ref)

  /** The white and black bits of `marked`. */
  datatype Color = White(w: bool) | Gray | Black

  type Heap = map<Id, Body>
  type Marks = map<Id, Color>

  /** Objects that wait on a gray list to be traversed. */
  predicate Traversable(o: Body) { o.Table? || o.Function? || o.Proto? || o.Thread? }

  /** Objects linked in `rootgc`. */
  predicate Rooted(o: Body) { !o.Str? && !o.OpenUpval? }

  /** The references of an object, in its own order. */
  function RefsOf(h: Heap, x: Id): seq<Ref>
    requires x in h
  {
    match h[x]
    case Str(_) => []
    case Thread(gt, stack, _) => [gt] + stack
    case OpenUpval(th, l) => if th in h && h[th].Thread? && l < |h[th].stack| then [h[th].stack[l]] else []
    case ClosedUpval(v) => [v]
    case Udata(refs) => refs
    case Table(refs) => refs
    case Function(refs) => refs
    case Proto(refs) => refs
  }

  ghost predicate Points(h: Heap, x: Id, y: Id) {
    x in h && To(y) in RefsOf(h, x)
  }

  // ---------------------------------------------------------------- reachability

  ghost predicate Path(h: Heap, p: seq<Id>) {
    |p| > 0 && forall i :: 0 <= i < |p| - 1 ==> Points(h, p[i], p[i + 1])
  }

  ghost predicate ReachesTo(h: Heap, x: Id, y: Id) {
    exists p :: Path(h, p) && p[0] == x && p[|p| - 1] == y
  }

  ghost predicate Reachable(h: Heap, roots: set<Id>, y: Id) {
    exists x :: x in roots && ReachesTo(h, x, y)
  }

  lemma ReachSelf(h: Heap, x: Id)
    ensures ReachesTo(h, x, x)
  {
    assert Path(h, [x]);
  }

  lemma ReachStep(h: Heap, x: Id, y: Id, z: Id)
    requires ReachesTo(h, x, y) && Points(h, y, z)
    ensures ReachesTo(h, x, z)
  {
    var p :| Path(h, p) && p[0] == x && p[|p| - 1] == y;
    var q := p + [z];
    forall i | 0 <= i < |q| - 1 ensures Points(h, q[i], q[i + 1]) {
      if i < |p| - 1 { assert Points(h, p[i], p[i + 1]); }
    }
    assert Path(h, q);
  }

  lemma {:induction false} PathInside(h: Heap, p: seq<Id>, s: iset<Id>)
    requires Path(h, p) && p[0] in s
    requires forall x, y :: x in s && Points(h, x, y) ==> y in s
    ensures p[|p| - 1] in s
    decreases |p|
  {
    if |p| > 1 {
      assert Points(h, p[0], p[1]);
      var q := p[1..];
      forall i | 0 <= i < |q| - 1 ensures Points(h, q[i], q[i + 1]) { assert Points(h, p[i + 1], p[i + 2]); }
      PathInside(h, q, s);
    }
  }

  /** Everything reachable lies in any closed set that contains the roots. */
  lemma ReachableInside(h: Heap, roots: set<Id>, s: iset<Id>, y: Id)
    requires Reachable(h, roots, y) && (forall r :: r in roots ==> r in s)
    requires forall x, z :: x in s && Points(h, x, z) ==> z in s
    ensures y in s
  {
    var x :| x in roots && ReachesTo(h, x, y);
    var p :| Path(h, p) && p[0] == x && p[|p| - 1] == y;
    PathInside(h, p, s);
  }

  lemma ReachableStep(h: Heap, roots: set<Id>, x: Id, y: Id)
    requires Reachable(h, roots, x) && Points(h, x, y)
    ensures Reachable(h, roots, y)
  {
    var r :| r in roots && ReachesTo(h, r, x);
    ReachStep(h, r, x, y);
  }

  // ---------------------------------------------------------------- colour invariants

  ghost predicate Dead(c: Marks, cw: bool, x: Id) { x in c && c[x] == White(!cw) }

  ghost predicate Live(h: Heap, c: Marks, cw: bool, x: Id) { x in h && x in c && c[x] != White(!cw) }

  /** Live objects refer to live objects. */
  ghost predicate Closed(h: Heap, c: Marks, cw: bool) {
    forall x, y {:trigger Points(h, x, y)} :: Live(h, c, cw, x) && Points(h, x, y) ==> Live(h, c, cw, y)
  }

  ghost predicate Marked(c: Marks, x: Id) { x in c && !c[x].White? }

  ghost function Whites(c: Marks): set<Id> { set x | x in c && c[x].White? }

  ghost predicate RefsMarked(h: Heap, c: Marks, x: Id) {
    forall y {:trigger Points(h, x, y)} :: Points(h, x, y) ==> Marked(c, y)
  }

  /** An object in the middle of the marking phase is as it should be: the only whites are
      current; a black object refers to no white one; strings, threads and open upvalues are
      never black; an object that waits to be traversed is on a list. */
  ghost predicate ColorOk(h: Heap, c: Marks, cw: bool, gray: seq<Id>, again: seq<Id>, x: Id)
    requires x in h && x in c
  {
    match c[x]
    case White(w) => w == cw
    case Black => !h[x].Str? && !h[x].Thread? && !h[x].OpenUpval? && RefsMarked(h, c, x)
    case Gray => !h[x].Udata? && !h[x].ClosedUpval? && (Traversable(h[x]) ==> x in gray || x in again)
  }

  ghost predicate ListOk(h: Heap, c: Marks, l: seq<Id>) {
    forall x :: x in l ==> x in h && x in c && c[x] == Gray && Traversable(h[x])
  }

  /** The tri-colour invariant, except for objects `exc` that are being worked on. */
  ghost predicate Marking(h: Heap, c: Marks, cw: bool, gray: seq<Id>, again: seq<Id>, exc: set<Id>) {
    && c.Keys == h.Keys
    && (forall x :: x in h && x !in exc ==> ColorOk(h, c, cw, gray, again, x))
    && (forall x :: x in exc ==> Marked(c, x))
    && ListOk(h, c, gray) && ListOk(h, c, again)
    && NoDup(gray + again)
    && (forall x, y {:trigger Points(h, x, y)} :: Points(h, x, y) ==> y in h)
  }

  /** Marking only turns white objects into gray or black ones. */
  ghost predicate Grows(c: Marks, c': Marks) {
    c.Keys == c'.Keys && forall x :: x in c && !c[x].White? ==> c'[x] == c[x]
  }

  /** Open upvalues marked between `c` and `c'` have marked values. */
  ghost predicate UpvalsSeen(h: Heap, c: Marks, c': Marks, exc: set<Id>) {
    forall u :: u in h && h[u].OpenUpval? && u !in exc && u in c && c[u].White? && Marked(c', u) ==> RefsMarked(h, c', u)
  }

  /** Only objects reachable from `x` were marked. */
  ghost predicate MarkedFrom(h: Heap, c: Marks, c': Marks, x: Id) {
    forall y :: y in c && c[y].White? && Marked(c', y) ==> ReachesTo(h, x, y)
  }

  lemma RefsMarkedGrow(h: Heap, c: Marks, c': Marks, x: Id)
    requires RefsMarked(h, c, x) && Grows(c, c')
    ensures RefsMarked(h, c', x)
  {
  }
}
