/** The incremental collector and the steps of the program it runs beside. */
module Collector {
  import opened Basics
  import opened Objects
  import opened MarkFacts
  import opened HeapFacts
  import opened StepFacts
  import opened SweepFacts
  import opened MutatorFacts

  const GCSWEEPMAX := 40
  const MINSTRTABSIZE := 32

  /** The steps a run is made of. `id` is the address the allocator picks for a new object. */
  datatype Action =
    | CollectStep
    | CollectAll
    | New(id: Id, b: Body)
    | NewU(id: Id, refs: seq<Ref>)
    | NewStr(s: string, id: Id)
    | StoreTable(t: Id, i: nat, v: Ref)
    | StoreObject(o: Id, b: Body, v: Ref)
    | StoreUpval(u: Id, v: Ref)
    | StoreStack(th: Id, gt: Ref, stack: seq<Ref>, v: Ref)
    | Capture(th: Id, level: nat, id: Id)
    | Close(th: Id, level: nat)
    | StoreMt(i: nat, v: Ref)
    | Switch(th: Id)

  /** The heap at a moment of a run, and where the program can start from in it. */
  datatype Moment = Moment(heap: Heap, roots: set<Id>)

  /** A step leaves everything that was reachable; a step of the collector leaves it as it was, and
      does nothing but free other objects. */
  ghost predicate Intact(m: Moment, a: Action, m': Moment) {
    && (forall x :: Reachable(m.heap, m.roots, x) ==> x in m'.heap)
    && (a.CollectStep? || a.CollectAll? ==> m'.roots == m.roots && ReachableSurvives(m.heap, m.roots, m'.heap) && Reduced(m.heap, m'.heap))
  }

  /** The heap after a store into an upvalue: into its stack slot while it is open. */
  function UpvalSet(h: Heap, u: Id, v: Ref): Heap {
    if u !in h then h
    else
      match h[u]
      case OpenUpval(th, level) =>
        if th in h && h[th].Thread? && level < |h[th].stack| then h[th := h[th].(stack := h[th].stack[level := v])] else h
      case _ => h[u := ClosedUpval(v)]
  }

  function MtAfter(mt: seq<Ref>, a: Action): seq<Ref> {
    if a.StoreMt? && a.i < |mt| then mt[a.i := a.v] else mt
  }

  /** What a step of the program does to the heap. */
  ghost predicate Effect(h: Heap, c: Marks, cw: bool, a: Action, h': Heap) {
    match a
    case New(id, b) => h' == h[id := b]
    case NewU(id, refs) => h' == h[id := Udata(refs)]
    case NewStr(s, id) => if exists x :: x in h && h[x] == Str(s) then h' == h else h' == h[id := Str(s)]
    case StoreTable(t, i, v) => t in h && h[t].Table? && i <= |h[t].refs| && h' == h[t := Table(SetAt(h[t].refs, i, v))]
    case StoreObject(o, b, _) => h' == h[o := b]
    case StoreUpval(u, v) => h' == UpvalSet(h, u, v)
    case StoreStack(th, gt, stack, _) => th in h && h[th].Thread? && h' == h[th := Thread(gt, stack, h[th].open)]
    case Capture(th, level, id) =>
      if exists u :: u in h && h[u] == OpenUpval(th, level) then h' == h
      else th in h && h[th].Thread? && exists i: nat :: i <= |h[th].open| && h' == Opened(h, th, i, id, level)
    case Close(th, level) =>
      && th in h && h[th].Thread? && th in h' && h'[th].Thread?
      && OpenBelow(h, h[th].open, level, h'[th].open) && ClosedBut(h, c, cw, th, h'[th].open, h')
    case StoreMt(_, _) => h' == h
    case Switch(_) => h' == h
    case CollectStep => Reduced(h, h')
    case CollectAll => Reduced(h, h')
  }

  class GlobalState {
    var heap: Heap               // every allocated object
    var marked: Marks
    var fixed: set<Id>           // FIXEDBIT: strings never collected, and the main thread
    var currentwhite: bool
    var gcstate: GcState
    var gray: seq<Id>
    var grayagain: seq<Id>
    var rootgc: seq<Id>          // every object but strings and open upvalues
    var sweepgc: nat             // where in rootgc the sweep goes on
    var strt: seq<seq<Id>>       // the string table, by buckets
    var nuse: int
    var sweepstrgc: nat
    var uvhead: seq<Id>          // all open upvalues of all threads
    const hash: string -> nat
    const mainthread: Id
    const registry: Ref
    var mt: seq<Ref>             // metatables of the basic types
    var running: Id              // the running thread

    // -------------------------------------------------------------- marking

    /** reallymarkobject */
    method ReallyMark(id: Id, cw: bool, ghost exc: set<Id>)
      requires Marking(heap, marked, cw, gray, grayagain, exc)
      requires id in heap && marked[id].White?
      modifies this`marked, this`gray
      ensures Marking(heap, marked, cw, gray, grayagain, exc) && Marked(marked, id)
      ensures Grows(old(marked), marked) && UpvalsSeen(heap, old(marked), marked, exc)
      ensures MarkedFrom(heap, old(marked), marked, id)
      ensures |gray| + |Whites(marked)| <= |old(gray)| + |Whites(old(marked))|
      ensures Whites(marked) < Whites(old(marked))
      decreases Whites(marked), 0
    {
      ghost var c0 := marked;
      WhitesLess(marked, id, Gray);
      match heap[id] {
        case Str(_) =>
          marked := marked[id := Gray];
          Recolored(heap, c0, cw, gray, grayagain, exc, id, Gray, gray);
        case Udata(refs) =>
          WhitesLess(marked, id, Black);
          marked := marked[id := Black];
          Recolored(heap, c0, cw, gray, grayagain, exc, id, Black, gray);
          MarkAll(refs, cw, exc + {id}, id);
          Finished(heap, c0, marked, cw, gray, grayagain, exc, id);
        case OpenUpval(_, _) =>
          marked := marked[id := Gray];
          Recolored(heap, c0, cw, gray, grayagain, exc, id, Gray, gray);
          MarkAll(RefsOf(heap, id), cw, exc + {id}, id);
          Finished(heap, c0, marked, cw, gray, grayagain, exc, id);
        case ClosedUpval(v) =>
          marked := marked[id := Gray];
          Recolored(heap, c0, cw, gray, grayagain, exc, id, Gray, gray);
          MarkAll([v], cw, exc + {id}, id);
          Blackened(heap, marked, cw, gray, grayagain, exc + {id}, id);
          ghost var c1 := marked;
          marked := marked[id := Black];
          FinishedBlack(heap, c0, c1, marked, cw, gray, grayagain, exc, id);
        case _ =>
          marked := marked[id := Gray];
          gray := [id] + gray;
          Recolored(heap, c0, cw, old(gray), grayagain, exc, id, Gray, gray);
      }
    }

    /** markvalue and markobject of every reference of `owner`. */
    method MarkAll(refs: seq<Ref>, cw: bool, ghost exc: set<Id>, ghost owner: Id)
      requires Marking(heap, marked, cw, gray, grayagain, exc)
      requires owner in heap && forall y :: To(y) in refs ==> Points(heap, owner, y)
      modifies this`marked, this`gray
      ensures Marking(heap, marked, cw, gray, grayagain, exc)
      ensures forall y :: To(y) in refs ==> Marked(marked, y)
      ensures Grows(old(marked), marked) && UpvalsSeen(heap, old(marked), marked, exc)
      ensures MarkedFrom(heap, old(marked), marked, owner)
      ensures |gray| + |Whites(marked)| <= |old(gray)| + |Whites(old(marked))|
      ensures Whites(marked) <= Whites(old(marked))
      decreases Whites(marked), 1
    {
      hide Settled;
      var i := 0;
      while i < |refs|
        invariant 0 <= i <= |refs|
        invariant Marking(heap, marked, cw, gray, grayagain, exc)
        invariant forall y :: To(y) in refs[..i] ==> Marked(marked, y)
        invariant Grows(old(marked), marked) && UpvalsSeen(heap, old(marked), marked, exc)
        invariant MarkedFrom(heap, old(marked), marked, owner)
        invariant |gray| + |Whites(marked)| <= |old(gray)| + |Whites(old(marked))|
        invariant Whites(marked) <= Whites(old(marked))
      {
        assert refs[..i + 1] == refs[..i] + [refs[i]];
        if refs[i].To? {
          assert To(refs[i].id) in refs;
          assert Points(heap, owner, refs[i].id);
          if marked[refs[i].id].White? {
            ghost var c1 := marked;
            ReallyMark(refs[i].id, cw, exc);
            MoreMarked(heap, old(marked), c1, marked, exc, owner, refs[i].id);
          }
        }
        i := i + 1;
      }
      assert refs[..i] == refs;
    }

    ghost predicate MarkingNow()
      reads this
    {
      Marking(heap, marked, currentwhite, gray, grayagain, {})
    }

    /** propagatemark: traverse one gray object, turning it black; a thread stays gray. */
    method PropagateMark(ghost roots: set<Id>)
      requires MarkingNow() && gray != []
      modifies this`marked, this`gray, this`grayagain
      ensures MarkingNow() && Keeps(old(marked), marked)
      ensures Closer(heap, old(marked), marked, roots)
      ensures forall x :: x in grayagain ==> x in old(grayagain) || RefsMarked(heap, marked, x)
      ensures |gray| + |Whites(marked)| < |old(gray)| + |Whites(old(marked))|
    {
      var o := gray[0];
      ghost var c0 := marked;
      assert o in gray;
      ghost var g := gray[1..];
      assert gray == [o] + g;
      if heap[o].Thread? {
        gray := gray[1..];
        grayagain := [o] + grayagain;
        Requeued(heap, marked, currentwhite, o, g, old(grayagain));
        MarkAll(RefsOf(heap, o), currentwhite, {}, o);
        assert RefsMarked(heap, marked, o);
        Closing(heap, c0, c0, marked, roots, o);
      } else {
        marked := marked[o := Black];
        gray := gray[1..];
        ghost var c1 := marked;
        Popped(heap, c0, currentwhite, o, g, grayagain);
        MarkAll(RefsOf(heap, o), currentwhite, {o}, o);
        assert RefsMarked(heap, marked, o);
        Traversed(heap, marked, currentwhite, gray, grayagain, o);
        Closing(heap, c0, c1, marked, roots, o);
      }
    }

    /** propagateall */
    method PropagateAll(ghost roots: set<Id>)
      requires MarkingNow()
      modifies this`marked, this`gray, this`grayagain
      ensures MarkingNow() && gray == [] && Keeps(old(marked), marked)
      ensures Closer(heap, old(marked), marked, roots)
      ensures forall x :: x in grayagain ==> x in old(grayagain) || RefsMarked(heap, marked, x)
    {
      KeepsSelf(heap, marked, roots);
      while gray != []
        invariant MarkingNow() && Keeps(old(marked), marked)
        invariant Closer(heap, old(marked), marked, roots)
        invariant forall x :: x in grayagain ==> x in old(grayagain) || RefsMarked(heap, marked, x)
        decreases |gray| + |Whites(marked)|
      {
        ghost var c1, a1 := marked, grayagain;
        PropagateMark(roots);
        forall x | x in grayagain ensures x in old(grayagain) || RefsMarked(heap, marked, x) {
          if x in a1 && RefsMarked(heap, c1, x) { RefsMarkedKeep(heap, c1, marked, x); }
        }
        CloserTrans(heap, old(marked), c1, marked, roots);
      }
    }

    /** markvalue and markobject of a root */
    method MarkRoot1(r: Ref, ghost roots: set<Id>)
      requires MarkingNow() && (r.To? ==> r.id in heap && r.id in roots)
      modifies this`marked, this`gray
      ensures MarkingNow() && Keeps(old(marked), marked) && (r.To? ==> Marked(marked, r.id))
      ensures Closer(heap, old(marked), marked, roots)
    {
      KeepsSelf(heap, marked, roots);
      if r.To? && marked[r.id].White? {
        ghost var c0 := marked;
        ReallyMark(r.id, currentwhite, {});
        RootMarked(heap, c0, marked, roots, r.id);
      }
    }

    /** markmt */
    method MarkMt(ghost roots: set<Id>)
      requires MarkingNow() && forall r :: r in mt && r.To? ==> r.id in heap && r.id in roots
      modifies this`marked, this`gray
      ensures MarkingNow() && Keeps(old(marked), marked) && (forall r :: r in mt && r.To? ==> Marked(marked, r.id))
      ensures Closer(heap, old(marked), marked, roots)
    {
      KeepsSelf(heap, marked, roots);
      var i := 0;
      while i < |mt|
        invariant 0 <= i <= |mt| && MarkingNow() && Keeps(old(marked), marked)
        invariant forall r :: r in mt[..i] && r.To? ==> Marked(marked, r.id)
        invariant Closer(heap, old(marked), marked, roots)
      {
        assert mt[..i + 1] == mt[..i] + [mt[i]] && mt[i] in mt;
        ghost var c1 := marked;
        MarkRoot1(mt[i], roots);
        CloserTrans(heap, old(marked), c1, marked, roots);
        i := i + 1;
      }
      assert mt[..i] == mt;
    }

    /** remarkupvals: the stack of a thread may have changed since its open upvalues were marked. */
    method RemarkUpvals(ghost roots: set<Id>)
      requires MarkingNow() && forall u :: u in uvhead <==> u in heap && heap[u].OpenUpval?
      modifies this`marked, this`gray
      ensures MarkingNow() && Keeps(old(marked), marked) && OpenDone(heap, marked)
      ensures Closer(heap, old(marked), marked, roots)
    {
      KeepsSelf(heap, marked, roots);
      var i := 0;
      while i < |uvhead|
        invariant 0 <= i <= |uvhead| && MarkingNow() && Keeps(old(marked), marked)
        invariant UpvalsDone(heap, marked, uvhead[..i])
        invariant Closer(heap, old(marked), marked, roots)
      {
        hide Closer, OpenDone;
        assert uvhead[..i + 1] == uvhead[..i] + [uvhead[i]] && uvhead[i] in uvhead;
        ghost var c1 := marked;
        RemarkUpval(uvhead[i], uvhead[..i], roots);
        CloserTrans(heap, old(marked), c1, marked, roots);
        i := i + 1;
      }
      assert uvhead[..i] == uvhead;
    }

    method RemarkUpval(u: Id, ghost done: seq<Id>, ghost roots: set<Id>)
      requires MarkingNow() && u in heap && heap[u].OpenUpval?
      requires UpvalsDone(heap, marked, done) && forall x :: x in done ==> x in heap && heap[x].OpenUpval?
      modifies this`marked, this`gray
      ensures MarkingNow() && Keeps(old(marked), marked)
      ensures UpvalsDone(heap, marked, done + [u])
      ensures Closer(heap, old(marked), marked, roots)
    {
      KeepsSelf(heap, marked, roots);
      ghost var c1 := marked;
      if marked[u] == Gray {
        MarkAll(RefsOf(heap, u), currentwhite, {}, u);
        SeenKeeps(heap, c1, marked);
        Closing(heap, c1, c1, marked, roots, u);
        assert RefsMarked(heap, marked, u);
      } else {
        assert ColorOk(heap, marked, currentwhite, gray, grayagain, u);
      }
      forall x | x in done + [u] && Marked(marked, x) ensures RefsMarked(heap, marked, x) {
        if x != u && Marked(c1, x) { RefsMarkedKeep(heap, c1, marked, x); }
      }
    }

    ghost function Roots(): set<Id>
      reads this`mt, this`running
    {
      {mainthread, running} + (if registry.To? then {registry.id} else {}) + set r | r in mt && r.To? :: r.id
    }

    /** markroot: start a new collection. */
    method MarkRoot()
      requires AllWhite(heap, marked, currentwhite) && NoDangling(heap) && Roots() <= heap.Keys
      modifies this`marked, this`gray, this`grayagain, this`gcstate
      ensures MarkingNow() && gcstate == Propagate && Keeps(old(marked), marked)
      ensures Marked(marked, mainthread) && (registry.To? ==> Marked(marked, registry.id))
      ensures Precise(heap, marked, Roots())
    {
      hide Marking, OpenDone, Precise, NoDangling, Points;
      gray, grayagain := [], [];
      ghost var roots := Roots();
      ghost var c0 := marked;
      NothingMarked(heap, marked, currentwhite, roots);
      assert forall r :: r in mt && r.To? ==> r.id in roots;
      MarkRoot1(To(mainthread), roots);
      ghost var c1 := marked;
      if heap[mainthread].Thread? {
        ReachGlobals(heap, mainthread, roots);
        MarkGlobals(roots);
      }
      ghost var c2 := marked;
      MarkRoot1(registry, roots);
      ghost var c3 := marked;
      MarkMt(roots);
      CloserTrans(heap, c0, c1, c2, roots);
      CloserTrans(heap, c0, c2, c3, roots);
      CloserTrans(heap, c0, c3, marked, roots);
      gcstate := Propagate;
    }

    method MarkGlobals(ghost roots: set<Id>)
      requires MarkingNow() && mainthread in heap && heap[mainthread].Thread? && Marked(marked, mainthread)
      modifies this`marked, this`gray
      ensures MarkingNow() && Keeps(old(marked), marked)
      ensures Closer(heap, old(marked), marked, roots)
    {
      var gt := heap[mainthread].gt;
      ghost var c0 := marked;
      if gt.To? { assert Points(heap, mainthread, gt.id); }
      MarkAll([gt], currentwhite, {}, mainthread);
      SeenKeeps(heap, c0, marked);
      Closing(heap, c0, c0, marked, roots, mainthread);
    }

    /** atomic, first part: objects caught by barriers and the roots that may have changed. */
    method RemarkRoots(ghost roots: set<Id>)
      requires MarkingNow() && roots == Roots() <= heap.Keys
      requires forall u :: u in uvhead <==> u in heap && heap[u].OpenUpval?
      modifies this`marked, this`gray, this`grayagain
      ensures MarkingNow() && gray == [] && Closer(heap, old(marked), marked, roots) && OpenDone(heap, marked)
      ensures Marked(marked, running) && forall r :: r in mt && r.To? ==> Marked(marked, r.id)
    {
      hide Marking, Precise, RefsMarked;
      ghost var c0 := marked;
      RemarkUpvals(roots);
      ghost var c1 := marked;
      PropagateAll(roots);
      CloserTrans(heap, c0, c1, marked, roots);
      ghost var c2 := marked;
      MarkRoot1(To(running), roots);
      CloserTrans(heap, c0, c2, marked, roots);
      ghost var c3 := marked;
      MarkMt(roots);
      CloserTrans(heap, c0, c3, marked, roots);
      ghost var c4 := marked;
      PropagateAll(roots);
      CloserTrans(heap, c0, c4, marked, roots);
    }

    lemma RootsMarked()
      requires Marked(marked, mainthread) && (registry.To? ==> Marked(marked, registry.id))
      requires Marked(marked, running) && forall r :: r in mt && r.To? ==> Marked(marked, r.id)
      ensures forall r :: r in Roots() ==> Marked(marked, r)
    {
    }

    /** atomic, second part: everything touched since it was traversed. */
    method FinishMarks(ghost roots: set<Id>)
      requires MarkingNow() && roots == Roots() <= heap.Keys
      requires forall u :: u in uvhead <==> u in heap && heap[u].OpenUpval?
      requires Marked(marked, mainthread) && (registry.To? ==> Marked(marked, registry.id))
      modifies this`marked, this`gray, this`grayagain
      ensures Closed(heap, marked, !currentwhite) && marked.Keys == heap.Keys && AllLive(heap, marked, !currentwhite, roots)
      ensures OpenGray(heap, marked)
      ensures old(Precise(heap, marked, roots)) ==> OnlyReachable(heap, marked, !currentwhite, roots)
    {
      hide Precise, RefsMarked, OpenDone, Marking, Closed, GlobalState.Roots, AllLive, OnlyReachable;
      ghost var c0 := marked;
      RemarkRoots(roots);
      RootsMarked();
      ghost var c5 := marked;
      SwappedLists(heap, marked, currentwhite, grayagain);
      gray, grayagain := grayagain, [];
      PropagateAll(roots);
      CloserTrans(heap, c0, c5, marked, roots);
      AtomicDone(heap, c0, c5, marked, currentwhite, grayagain, roots);
      MarkingOpenGray(heap, marked, currentwhite, gray, grayagain);
    }

    /** atomic: finish the mark phase. Afterwards what is white is unreachable, and dead. */
    method Atomic()
      requires MarkingNow() && Roots() <= heap.Keys
      requires forall u :: u in uvhead <==> u in heap && heap[u].OpenUpval?
      requires Marked(marked, mainthread) && (registry.To? ==> Marked(marked, registry.id))
      modifies this`marked, this`gray, this`grayagain, this`currentwhite, this`sweepstrgc, this`sweepgc, this`gcstate
      ensures gcstate == SweepString && sweepstrgc == 0 && sweepgc == 0 && currentwhite == !old(currentwhite)
      ensures marked.Keys == heap.Keys && Closed(heap, marked, currentwhite) && OpenGray(heap, marked)
      ensures AllLive(heap, marked, currentwhite, Roots())
      ensures old(Precise(heap, marked, Roots())) ==> OnlyReachable(heap, marked, currentwhite, Roots())
    {
      hide Precise, Marking, Closed, GlobalState.Roots, AllLive, OnlyReachable;
      FinishMarks(Roots());
      currentwhite := !currentwhite;
      sweepstrgc, sweepgc := 0, 0;
      gcstate := SweepString;
    }

    // -------------------------------------------------------------- the invariant

    /** The structure of the heap and of its lists, in every state. */
    ghost predicate Structure()
      reads this
    {
      Shape(heap, marked, rootgc, uvhead, strt, hash, mainthread, running, fixed)
    }

    /** What the current state of the collection adds. */
    ghost predicate Phase()
      reads this
    {
      && Settled(gcstate, heap, marked, currentwhite, strt, sweepstrgc, rootgc, sweepgc)
      && (gcstate == Propagate ==> MarkingNow() && Marked(marked, mainthread) && (registry.To? ==> Marked(marked, registry.id)))
    }

    /** Nothing live refers to a dead object, and the roots are live. */
    ghost predicate Safe()
      reads this
    {
      Closed(heap, marked, currentwhite) && AllLive(heap, marked, currentwhite, Roots())
    }

    ghost predicate Inv()
      reads this
    {
      Structure() && Safe() && Phase()
    }

    // -------------------------------------------------------------- closing upvalues

    /** luaC_linkupval: a just closed upvalue joins `rootgc`; a marked one becomes black and
        needs a barrier, or is swept at once. */
    method LinkUpval(u: Id, ghost h: Heap, ghost roots: set<Id>)
      requires u in heap && heap[u].ClosedUpval? && u !in rootgc && marked.Keys == heap.Keys && h.Keys == heap.Keys
      requires h[u].OpenUpval? && SameRefs(h, heap, u)
      requires Closed(h, marked, currentwhite) && AllLive(h, marked, currentwhite, roots)
      requires gcstate == Propagate ==> Marking(h, marked, currentwhite, gray, grayagain, {})
      modifies this`marked, this`gray, this`rootgc, this`sweepgc
      ensures rootgc == [u] + old(rootgc) && sweepgc == (if old(sweepgc) == 0 then 0 else old(sweepgc) + 1)
      ensures Closed(heap, marked, currentwhite) && AllLive(heap, marked, currentwhite, roots) && marked.Keys == heap.Keys
      ensures KeepsLive(h, old(marked), currentwhite, heap, marked, fixed)
      ensures gcstate == Propagate ==> MarkingNow() && Keeps(old(marked), marked)
      ensures gcstate != Propagate ==> marked == if old(marked)[u] == Gray then old(marked)[u := White(currentwhite)] else old(marked)
    {
      hide Settled;
      rootgc := [u] + rootgc;
      if sweepgc != 0 {
        sweepgc := sweepgc + 1;
      }
      if marked[u] == Gray {
        if gcstate == Propagate {
          LinkBlack(u, h, roots);
        } else {
          ghost var c0 := marked;
          marked := marked[u := White(currentwhite)];
          Rearranged(h, c0, currentwhite, heap, marked, u, roots, fixed);
        }
      } else {
        Rearranged(h, marked, currentwhite, heap, marked, u, roots, fixed);
        if gcstate == Propagate {
          RearrangedMarking(h, marked, currentwhite, gray, grayagain, heap, u);
        }
      }
    }

    method LinkBlack(u: Id, ghost h: Heap, ghost roots: set<Id>)
      requires u in heap && heap[u].ClosedUpval? && marked.Keys == heap.Keys && h.Keys == heap.Keys
      requires h[u].OpenUpval? && SameRefs(h, heap, u) && marked[u] == Gray && roots <= heap.Keys
      requires Closed(h, marked, currentwhite) && AllLive(h, marked, currentwhite, roots)
      requires Marking(h, marked, currentwhite, gray, grayagain, {})
      modifies this`marked, this`gray
      ensures Closed(heap, marked, currentwhite) && AllLive(heap, marked, currentwhite, roots) && marked.Keys == heap.Keys
      ensures KeepsLive(h, old(marked), currentwhite, heap, marked, fixed)
      ensures MarkingNow() && Keeps(old(marked), marked)
    {
      hide Marking, Closed, AllLive, KeepsLive, SameRefs;
      ghost var c0 := marked;
      BlackStart(h, marked, currentwhite, gray, grayagain, heap, u, roots, fixed);
      marked := marked[u := Black];
      ghost var c1 := marked;
      BarrierF(heap[u].v, {u});
      BlackEnd(h, c0, currentwhite, heap, c1, marked, gray, grayagain, u, roots, fixed);
    }

    /** luaC_barrier in the propagate state: what a black object is made to refer to is marked. */
    method BarrierF(v: Ref, ghost exc: set<Id>)
      requires Marking(heap, marked, currentwhite, gray, grayagain, exc) && (v.To? ==> v.id in heap)
      modifies this`marked, this`gray
      ensures Marking(heap, marked, currentwhite, gray, grayagain, exc) && Grows(old(marked), marked)
      ensures v.To? ==> Marked(marked, v.id)
    {
      if v.To? && marked[v.id].White? {
        ReallyMark(v.id, currentwhite, exc);
      }
    }

    /** Objects only die while the heap is being swept. */
    lemma DeadWhenSwept(x: Id)
      requires Inv() && Dead(marked, currentwhite, x)
      ensures gcstate == SweepString || gcstate == Sweep
    {
      if gcstate == Propagate { MarkedLive(heap, marked, currentwhite, gray, grayagain, {}); }
    }

    lemma OpenOwner(u: Id)
      requires Inv() && u in heap && heap[u].OpenUpval?
      ensures heap[u].th in heap && heap[heap[u].th].Thread? && u in heap[heap[u].th].open && heap[u].level < |heap[heap[u].th].stack|
    {
      assert OpenOk(heap, heap[u].th);
    }

    /** luaF_freeupval of a dead open upvalue: it leaves its thread, `uvhead` and the heap. */
    method FreeOpen(th: Id, u: Id)
      requires Inv() && u in heap && heap[u].OpenUpval? && Dead(marked, currentwhite, u)
      requires heap[u].th == th && th in heap && heap[th].Thread?
      modifies this`heap, this`marked, this`uvhead
      ensures Inv() && (gcstate == SweepString || gcstate == Sweep)
      ensures heap == old(Cut(heap, th, u)) && marked == old(marked) - {u} && uvhead == Without(old(uvhead), u)
      ensures KeepsLive(old(heap), old(marked), currentwhite, heap, marked, fixed)
    {
      hide UpvalsOk, LinksOk, StringsOk, Without, Closed, AllLive, Settled, Marking, GlobalState.Roots, KeepsLive, Unlinking, SameRefs, Cut, FixedOk, OpenGray, Dead;
      DeadWhenSwept(u);
      ghost var h, c, uv := heap, marked, uvhead;
      CutUnlinking(h, th, u, uv);
      CutGray(h, marked, th, u);
      uvhead := Without(uvhead, u);
      heap := Cut(heap, th, u);
      marked := marked - {u};
      UnlinkedShape(h, c, rootgc, uv, strt, hash, mainthread, running, fixed, heap, marked, u);
      Freed(h, c, currentwhite, heap, u, Roots(), fixed);
      UnlinkedSettled(gcstate, h, c, currentwhite, strt, sweepstrgc, rootgc, sweepgc, heap, marked, sweepgc, uv, hash, u);
    }

    /** One turn of luaF_close for an upvalue that is not dead: the value moves from the stack
        into the upvalue. */
    method CloseLive(th: Id, u: Id)
      requires Inv() && u in heap && heap[u].OpenUpval? && !Dead(marked, currentwhite, u)
      requires heap[u].th == th && th in heap && heap[th].Thread? && heap[u].level < |heap[th].stack|
      modifies this`heap, this`marked, this`gray, this`rootgc, this`sweepgc, this`uvhead
      ensures Inv() && heap == old(Moved(heap, th, u))
      ensures rootgc == [u] + old(rootgc) && sweepgc == (if old(sweepgc) == 0 then 0 else old(sweepgc) + 1) && uvhead == Without(old(uvhead), u)
      ensures gcstate != Propagate ==> forall x :: x in marked && x != u ==> marked[x] == old(marked)[x]
      ensures KeepsLive(old(heap), old(marked), currentwhite, heap, marked, fixed)
    {
      hide UpvalsOk, LinksOk, StringsOk, Without, Closed, AllLive, Settled, Marking, GlobalState.Roots, KeepsLive, Unlinking, SameRefs, Moved, FixedOk, OpenGray, Dead, Points, Shape;
      ghost var h, c, uv, rg, k := heap, marked, uvhead, rootgc, sweepgc;
      MovedStart(h, c, rootgc, uv, strt, hash, mainthread, running, fixed, th, u);
      uvhead := Without(uvhead, u);
      heap := Moved(heap, th, u);
      LinkUpval(u, h, Roots());
      LiveClosed(gcstate, h, c, currentwhite, strt, sweepstrgc, rg, k, uv, hash, mainthread, running, fixed, heap, marked, gray, grayagain, sweepgc, u);
    }

    /** One turn of the loop of luaF_close. */
    method CloseFirst(th: Id)
      requires Inv() && th in heap && heap[th].Thread? && heap[th].open != []
      modifies this`heap, this`marked, this`gray, this`rootgc, this`sweepgc, this`uvhead
      ensures Inv() && th in heap && heap[th] == old(heap[th].(open := heap[th].open[1..]))
      ensures forall x :: x in heap[th].open ==> x in old(heap[th].open) && x in old(heap) && x in heap && heap[x] == old(heap)[x]
      ensures
        || (rootgc == old(rootgc) && sweepgc == old(sweepgc))
        || (rootgc == [old(heap[th].open[0])] + old(rootgc) && sweepgc == (if old(sweepgc) == 0 then 0 else old(sweepgc) + 1))
      ensures |rootgc| + |uvhead| <= |old(rootgc)| + |old(uvhead)|
      ensures gcstate != Propagate ==> th in marked && marked[th] == old(marked)[th]
      ensures KeepsLive(old(heap), old(marked), currentwhite, heap, marked, fixed)
      ensures ClosedOne(old(heap), old(Dead(marked, currentwhite, heap[th].open[0])), th, heap)
    {
      hide Closed, AllLive, Settled, Marking, GlobalState.Roots, KeepsLive, StringsOk, LinksOk, UpvalsOk, OpenOk, FixedOk, OpenGray, Without;
      FirstOpen(heap, uvhead, th);
      var u := heap[th].open[0];
      if marked[u] == White(!currentwhite) {
        FreeOpen(th, u);
      } else {
        CloseLive(th, u);
      }
    }

    /** luaF_close: every open upvalue of the thread at `level` or above is closed or freed. */
    method CloseUpvals(th: Id, level: nat)
      requires Inv() && th in heap && heap[th].Thread?
      modifies this`heap, this`marked, this`gray, this`rootgc, this`sweepgc, this`uvhead
      ensures Inv() && th in heap && heap[th].Thread? && heap[th] == old(heap[th]).(open := heap[th].open)
      ensures OpenBelow(old(heap), old(heap[th].open), level, heap[th].open)
      ensures Shifted(old(rootgc), old(sweepgc), rootgc, sweepgc) && |rootgc| + |uvhead| <= |old(rootgc)| + |old(uvhead)|
      ensures gcstate != Propagate ==> th in marked && marked[th] == old(marked)[th]
      ensures KeepsLive(old(heap), old(marked), currentwhite, heap, marked, fixed)
      ensures ClosedBut(old(heap), old(marked), currentwhite, th, heap[th].open, heap)
    {
      hide Closed, AllLive, Settled, Marking, GlobalState.Roots, KeepsLive, StringsOk, LinksOk, UpvalsOk, OpenOk, Shifted, OpenGray, SameContents, OpenBelow, ClosedBut, ClosedOne, FixedOk, CloseState;
      ghost var h0, c0, uv := heap, marked, uvhead;
      CloseStart(heap, marked, currentwhite, th, level, fixed, uvhead);
      CloseHead(h0, c0, currentwhite, th, level, heap, marked, fixed);
      ShiftedSelf(rootgc, sweepgc);
      while heap[th].open != [] && heap[heap[th].open[0]].level >= level
        invariant Inv() && CloseState(h0, c0, currentwhite, th, level, heap, marked, fixed)
        invariant th in heap && heap[th].Thread? && forall x :: x in heap[th].open ==> x in heap && heap[x].OpenUpval?
        invariant Shifted(old(rootgc), old(sweepgc), rootgc, sweepgc) && |rootgc| + |uvhead| <= |old(rootgc)| + |old(uvhead)|
        invariant gcstate != Propagate ==> th in marked && marked[th] == old(marked)[th]
        decreases |heap[th].open|
      {
        ghost var h, c, r, k, u, v := heap, marked, rootgc, sweepgc, heap[th].open[0], uvhead;
        assert u in heap[th].open;
        CloseFirst(th);
        CloseStep(h0, c0, currentwhite, th, level, h, c, fixed, mainthread, v, heap, marked);
        CloseHead(h0, c0, currentwhite, th, level, heap, marked, fixed);
        ShiftedOne(old(rootgc), old(sweepgc), r, k, u);
      }
      CloseHead(h0, c0, currentwhite, th, level, heap, marked, fixed);
      CloseDone(h0, c0, currentwhite, th, level, heap, marked, fixed, uv);
    }

    // -------------------------------------------------------------- sweeping

    /** makewhite: an object gets the current white. */
    method MakeWhite(x: Id)
      requires Inv() && gcstate != Propagate && x in heap
      requires Dead(marked, currentwhite, x) ==> forall y :: Points(heap, x, y) ==> Live(heap, marked, currentwhite, y)
      modifies this`marked
      ensures Inv() && marked == old(marked)[x := White(currentwhite)]
      ensures Preserved(heap, old(marked), currentwhite, heap) && StayLive(heap, old(marked), currentwhite, heap, marked)
      ensures !old(Dead(marked, currentwhite, x)) || x in fixed ==> KeepsLive(heap, old(marked), currentwhite, heap, marked, fixed)
    {
      hide UpvalsOk, LinksOk, StringsOk, Closed, AllLive, Settled, Marking, GlobalState.Roots, KeepsLive, FixedOk;
      ghost var c := marked;
      marked := marked[x := White(currentwhite)];
      assert forall y :: To(y) in RefsOf(heap, x) ==> Points(heap, x, y);
      Rearranged(heap, c, currentwhite, heap, marked, x, Roots(), fixed);
      WhiteSettled(gcstate, heap, c, currentwhite, strt, sweepstrgc, rootgc, sweepgc, uvhead, hash, x);
    }

    /** sweeplist on the `i`-th open upvalue of a thread; returns where to go on. */
    method SweepUpval(th: Id, i: nat) returns (n: nat)
      requires Inv() && gcstate == Sweep && th in heap && heap[th].Thread? && i < |heap[th].open|
      requires forall j :: 0 <= j < i ==> IsWhite(marked, currentwhite, heap[th].open[j])
      modifies this`heap, this`marked, this`uvhead
      ensures Inv() && th in heap && heap[th].Thread? && heap[th] == old(heap[th]).(open := heap[th].open)
      ensures n <= |heap[th].open| && forall j :: 0 <= j < n ==> IsWhite(marked, currentwhite, heap[th].open[j])
      ensures th in marked && marked[th] == old(marked)[th] && |uvhead| <= |old(uvhead)|
      ensures |heap[th].open| - n < |old(heap[th].open)| - i
      ensures KeepsLive(old(heap), old(marked), currentwhite, heap, marked, fixed)
      ensures Reduced(old(heap), heap)
    {
      hide Closed, AllLive, Settled, GlobalState.Roots, KeepsLive, StringsOk, LinksOk, OpenGray, FixedOk, SameContents, Without, Marking, Reduced, UpvalsOk, OpenOk, NoDup;
      ReducedSelf(heap, uvhead);
      OpenThere(heap, uvhead, th);
      var u := heap[th].open[i];
      assert u in heap[th].open;
      if marked[u] != White(!currentwhite) {
        MakeWhite(u);
        n := i + 1;
      } else {
        FreeUpval(th, i);
        n := i;
      }
    }

    /** sweeplist on a dead open upvalue, the `i`-th of its thread. */
    method FreeUpval(th: Id, i: nat)
      requires Inv() && gcstate == Sweep && th in heap && heap[th].Thread? && i < |heap[th].open| && Dead(marked, currentwhite, heap[th].open[i])
      requires forall j :: 0 <= j < i ==> IsWhite(marked, currentwhite, heap[th].open[j])
      modifies this`heap, this`marked, this`uvhead
      ensures Inv() && th in heap && heap[th] == old(heap[th]).(open := old(heap[th].open)[..i] + old(heap[th].open)[i + 1..])
      ensures forall j :: 0 <= j < i ==> IsWhite(marked, currentwhite, old(heap[th].open)[j])
      ensures th in marked && marked[th] == old(marked)[th] && |uvhead| <= |old(uvhead)|
      ensures KeepsLive(old(heap), old(marked), currentwhite, heap, marked, fixed)
      ensures Reduced(old(heap), heap)
    {
      hide Closed, AllLive, Settled, GlobalState.Roots, KeepsLive, StringsOk, LinksOk, OpenGray, FixedOk, SameContents, Without, Marking, Reduced, UpvalsOk, OpenOk;
      var u := heap[th].open[i];
      ghost var open := heap[th].open;
      UpvalListed(heap, uvhead, th, i);
      ReducedCut(heap, uvhead, th, u);
      FreeOpen(th, u);
      assert forall j :: 0 <= j < i ==> open[j] != u;
    }


    /** sweepwholelist of the open upvalues of a thread. */
    method SweepOpen(th: Id)
      requires Inv() && gcstate == Sweep && th in heap && heap[th].Thread?
      modifies this`heap, this`marked, this`uvhead
      ensures Inv() && th in heap && heap[th].Thread? && heap[th] == old(heap[th]).(open := heap[th].open)
      ensures forall u :: u in heap[th].open ==> IsWhite(marked, currentwhite, u)
      ensures th in marked && marked[th] == old(marked)[th] && |uvhead| <= |old(uvhead)|
      ensures KeepsLive(old(heap), old(marked), currentwhite, heap, marked, fixed)
      ensures Reduced(old(heap), heap)
    {
      hide Closed, AllLive, Settled, GlobalState.Roots, KeepsLive, StringsOk, LinksOk, UpvalsOk, OpenGray, FixedOk, SameContents, Without, IsWhite, Reduced;
      KeepsLiveSelf(heap, marked, currentwhite, fixed);
      ReducedSelf(heap, uvhead);
      var i := 0;
      while i < |heap[th].open|
        invariant Inv() && th in heap && heap[th].Thread? && heap[th] == old(heap[th]).(open := heap[th].open)
        invariant 0 <= i <= |heap[th].open| && forall j :: 0 <= j < i ==> IsWhite(marked, currentwhite, heap[th].open[j])
        invariant th in marked && marked[th] == old(marked)[th] && |uvhead| <= |old(uvhead)|
        invariant KeepsLive(old(heap), old(marked), currentwhite, heap, marked, fixed) && Reduced(old(heap), heap)
        decreases |heap[th].open| - i
      {
        ghost var h, c := heap, marked;
        i := SweepUpval(th, i);
        KeepsLiveTrans(old(heap), old(marked), currentwhite, h, c, heap, marked, fixed);
        ReducedTrans(old(heap), h, heap);
      }
    }

    /** freeobj of a dead object of `rootgc`. */
    method FreeRoot(i: nat)
      requires Inv() && gcstate == Sweep && sweepgc <= i < |rootgc| && Dead(marked, currentwhite, rootgc[i])
      requires rootgc[i] in heap && (heap[rootgc[i]].Thread? ==> heap[rootgc[i]].open == [])
      modifies this`heap, this`marked, this`rootgc
      ensures Inv() && heap == old(heap) - {old(rootgc)[i]} && rootgc == old(rootgc)[..i] + old(rootgc)[i + 1..]
      ensures KeepsLive(old(heap), old(marked), currentwhite, heap, marked, fixed)
    {
      hide UpvalsOk, LinksOk, StringsOk, Closed, Settled, Marking, KeepsLive, FixedOk, OpenGray;
      var x := rootgc[i];
      ghost var h, c, r := heap, marked, rootgc;
      assert mainthread in Roots() && running in Roots();
      assert x != mainthread && x != running;
      hide AllLive, GlobalState.Roots;
      rootgc := rootgc[..i] + rootgc[i + 1..];
      heap := heap - {x};
      marked := marked - {x};
      DroppedShape(h, c, r, uvhead, strt, hash, mainthread, running, fixed, i);
      Freed(h, c, currentwhite, heap, x, Roots(), fixed);
      DroppedSettled(gcstate, h, c, currentwhite, strt, sweepstrgc, r, sweepgc, uvhead, hash, i);
    }

    /** sweeplist on an object that is not dead: it is made white for the next cycle. */
    method KeepObject(x: Id)
      requires Inv() && gcstate == Sweep && sweepgc < |rootgc| && rootgc[sweepgc] == x && Live(heap, marked, currentwhite, x)
      requires heap[x].Thread? ==> forall u :: u in heap[x].open ==> IsWhite(marked, currentwhite, u)
      modifies this`marked, this`sweepgc
      ensures Inv() && sweepgc == old(sweepgc) + 1
      ensures KeepsLive(heap, old(marked), currentwhite, heap, marked, fixed)
    {
      hide UpvalsOk, LinksOk, StringsOk, Closed, Marking, KeepsLive, FixedOk, OpenGray, AllLive, GlobalState.Roots, Shape, SameContents;
      MakeWhite(x);
      assert rootgc[..sweepgc + 1] == rootgc[..sweepgc] + [x];
      sweepgc := sweepgc + 1;
    }

    /** sweeplist on a dead object. */
    method DropObject(x: Id)
      requires Inv() && gcstate == Sweep && sweepgc < |rootgc| && rootgc[sweepgc] == x && x in heap && Dead(marked, currentwhite, x)
      modifies this`heap, this`marked, this`gray, this`rootgc, this`sweepgc, this`uvhead
      ensures Inv() && |rootgc| - sweepgc + |uvhead| < old(|rootgc| - sweepgc + |uvhead|)
      ensures KeepsLive(old(heap), old(marked), currentwhite, heap, marked, fixed)
      ensures Reduced(old(heap), heap)
    {
      hide UpvalsOk, StringsOk, LinksOk, Closed, Marking, KeepsLive, OpenGray, FixedOk, SameContents, Settled, AllLive, GlobalState.Roots, Reduced;
      var i, n := sweepgc, |rootgc|;
      ghost var h, c, uv := heap, marked, uvhead;
      KeepsLiveSelf(heap, marked, currentwhite, fixed);
      if heap[x].Thread? {
        CloseUpvals(x, 0);  // luaE_freethread
        i := i + (|rootgc| - n);
        assert rootgc[|rootgc| - n..][old(sweepgc)] == rootgc[i];
        NoneBelow(heap[x].open, h, h[x].open);
      }
      ghost var h1, c1 := heap, marked;
      if h[x].OpenUpval? { NotRooted(x, h, old(rootgc)); }
      if h[x].Thread? { ReducedFree(h, c, currentwhite, uv, x, h1); } else { ReducedDrop(h, uv, x); }
      FreeRoot(i);
      KeepsLiveTrans(h, c, currentwhite, h1, c1, heap, marked, fixed);
    }

    /** One turn of the loop of sweeplist. */
    method SweepObject()
      requires Inv() && gcstate == Sweep && sweepgc < |rootgc|
      modifies this`heap, this`marked, this`gray, this`rootgc, this`sweepgc, this`uvhead
      ensures Inv() && |rootgc| - sweepgc + |uvhead| < old(|rootgc| - sweepgc + |uvhead|)
      ensures KeepsLive(old(heap), old(marked), currentwhite, heap, marked, fixed)
      ensures Reduced(old(heap), heap)
    {
      hide UpvalsOk, StringsOk, Closed, Marking, KeepsLive, OpenGray, SameContents, Settled, Reduced;
      var curr := rootgc[sweepgc];
      assert curr in rootgc && curr in heap;
      KeepsLiveSelf(heap, marked, currentwhite, fixed);
      ReducedSelf(heap, uvhead);
      if heap[curr].Thread? {
        SweepOpen(curr);
      }
      ghost var h1, c1 := heap, marked;
      ReducedSelf(h1, uvhead);
      if marked[curr] != White(!currentwhite) || curr in fixed {
        assert mainthread in Roots() && Live(heap, marked, currentwhite, mainthread);
        KeepObject(curr);
      } else {
        DropObject(curr);
      }
      KeepsLiveTrans(old(heap), old(marked), currentwhite, h1, c1, heap, marked, fixed);
      ReducedTrans(old(heap), h1, heap);
    }

    /** sweeplist on the `j`-th string of the current bucket; returns where to go on. */
    method SweepStr(j: nat) returns (n: nat)
      requires Inv() && gcstate == SweepString && sweepstrgc < |strt| && j < |strt[sweepstrgc]|
      requires forall m :: 0 <= m < j ==> IsWhite(marked, currentwhite, strt[sweepstrgc][m])
      modifies this`heap, this`marked, this`strt, this`nuse
      ensures Inv() && |strt| == |old(strt)| && n <= |strt[sweepstrgc]|
      ensures forall m :: 0 <= m < n ==> IsWhite(marked, currentwhite, strt[sweepstrgc][m])
      ensures |strt[sweepstrgc]| - n < |old(strt)[sweepstrgc]| - j
      ensures KeepsLive(old(heap), old(marked), currentwhite, heap, marked, fixed)
      ensures Reduced(old(heap), heap)
    {
      hide UpvalsOk, LinksOk, Closed, AllLive, Settled, Marking, GlobalState.Roots, KeepsLive, FixedOk, OpenGray, Reduced;
      ReducedSelf(heap, uvhead);
      var i := sweepstrgc;
      var x := strt[i][j];
      assert x in strt[i] && heap[x].Str? && RefsOf(heap, x) == [];
      if marked[x] != White(!currentwhite) || x in fixed {
        MakeWhite(x);
        n := j + 1;
      } else {
        FreeString(j);
        n := j;
      }
    }

    /** freeobj of a dead string. */
    method FreeString(j: nat)
      requires Inv() && gcstate == SweepString && sweepstrgc < |strt| && j < |strt[sweepstrgc]|
      requires Dead(marked, currentwhite, strt[sweepstrgc][j]) && strt[sweepstrgc][j] !in fixed
      requires forall m :: 0 <= m < j ==> IsWhite(marked, currentwhite, strt[sweepstrgc][m])
      modifies this`heap, this`marked, this`strt, this`nuse
      ensures Inv() && strt == old(strt)[sweepstrgc := old(strt)[sweepstrgc][..j] + old(strt)[sweepstrgc][j + 1..]]
      ensures nuse == old(nuse) - 1 && heap == old(heap) - {old(strt)[sweepstrgc][j]}
      ensures forall m :: 0 <= m < j ==> IsWhite(marked, currentwhite, strt[sweepstrgc][m])
      ensures KeepsLive(old(heap), old(marked), currentwhite, heap, marked, fixed)
      ensures Reduced(old(heap), heap)
    {
      hide UpvalsOk, LinksOk, StringsOk, Closed, AllLive, Settled, Marking, GlobalState.Roots, KeepsLive, FixedOk, OpenGray, Reduced;
      var i := sweepstrgc;
      var x := strt[i][j];
      ghost var h, c, t := heap, marked, strt;
      StringThere(heap, strt, hash, i, j);
      ReducedDrop(heap, uvhead, x);
      strt := strt[i := strt[i][..j] + strt[i][j + 1..]];
      heap := heap - {x};
      marked := marked - {x};
      nuse := nuse - 1;
      StringDroppedShape(h, c, rootgc, uvhead, t, hash, mainthread, running, fixed, i, j);
      Freed(h, c, currentwhite, heap, x, Roots(), fixed);
      StringDroppedSettled(gcstate, h, c, currentwhite, t, sweepstrgc, rootgc, sweepgc, uvhead, hash, i, j);
    }

    /** singlestep, GCSsweepstring: one bucket of the string table is swept. */
    method SweepBucket()
      requires Inv() && gcstate == SweepString
      modifies this`heap, this`marked, this`strt, this`nuse, this`sweepstrgc, this`gcstate
      ensures Inv() && |strt| == |old(strt)| && sweepstrgc == old(sweepstrgc) + 1 <= |strt|
      ensures gcstate == if sweepstrgc == |strt| then Sweep else SweepString
      ensures KeepsLive(old(heap), old(marked), currentwhite, heap, marked, fixed)
      ensures Reduced(old(heap), heap)
    {
      hide UpvalsOk, LinksOk, StringsOk, Closed, AllLive, Marking, GlobalState.Roots, KeepsLive, FixedOk, OpenGray, SameContents, StringsWhite, BucketsWhite, IsWhite, Reduced;
      KeepsLiveSelf(heap, marked, currentwhite, fixed);
      ReducedSelf(heap, uvhead);
      var j := 0;
      while j < |strt[sweepstrgc]|
        invariant Inv() && gcstate == SweepString && sweepstrgc == old(sweepstrgc) < |strt| == |old(strt)| && 0 <= j <= |strt[sweepstrgc]|
        invariant forall m :: 0 <= m < j ==> IsWhite(marked, currentwhite, strt[sweepstrgc][m])
        invariant KeepsLive(old(heap), old(marked), currentwhite, heap, marked, fixed) && Reduced(old(heap), heap)
        decreases |strt[sweepstrgc]| - j
      {
        ghost var h, c := heap, marked;
        j := SweepStr(j);
        KeepsLiveTrans(old(heap), old(marked), currentwhite, h, c, heap, marked, fixed);
        ReducedTrans(old(heap), h, heap);
      }
      BucketDone(marked, currentwhite, strt, sweepstrgc);
      sweepstrgc := sweepstrgc + 1;
      if sweepstrgc >= |strt| {
        gcstate := Sweep;
        BucketsDone(heap, marked, currentwhite, strt, hash);
      }
    }

    /** The loop of luaS_resize: every string goes to its bucket in a table of `newsize` buckets. */
    method Rehash(newsize: nat) returns (newhash: seq<seq<Id>>)
      requires StringsOk(heap, strt, hash) && newsize > 0
      ensures StringsOk(heap, newhash, hash) && |newhash| == newsize
    {
      assert |strt| > 0;
      hide StringsOk, Rehashed;
      newhash := seq(newsize, _ => []);
      NothingSeen(heap, strt, newhash, hash);
      var i := 0;
      while i < |strt|
        invariant 0 <= i <= |strt| && |newhash| == newsize && Rehashed(heap, strt, newhash, hash, i, 0)
      {
        var j := 0;
        while j < |strt[i]|
          invariant 0 <= j <= |strt[i]| && |newhash| == newsize && Rehashed(heap, strt, newhash, hash, i, j)
        {
          RehashStep(heap, strt, newhash, hash, i, j);
          var p := strt[i][j];
          var h1 := hash(heap[p].s) % newsize;
          newhash := newhash[h1 := [p] + newhash[h1]];
          j := j + 1;
        }
        RehashBucket(heap, strt, newhash, hash, i);
        i := i + 1;
      }
      RehashDone(heap, strt, newhash, hash);
    }

    /** luaS_resize */
    method Resize(newsize: nat)
      requires Inv() && newsize > 0
      modifies this`strt
      ensures Inv() && |strt| == (if gcstate == SweepString then |old(strt)| else newsize)
    {
      hide UpvalsOk, LinksOk, StringsOk, Closed, AllLive, Marking, GlobalState.Roots, FixedOk, OpenGray, StringsWhite, BucketsWhite, SweptWhite, AllWhite;
      if gcstate == SweepString {
        return;
      }
      strt := Rehash(newsize);
    }

    /** checkSizes */
    method CheckSizes()
      requires Inv()
      modifies this`strt
      ensures Inv()
    {
      if nuse < |strt| / 4 && |strt| > MINSTRTABSIZE * 2 {
        Resize(|strt| / 2);
      }
    }

    /** singlestep, GCSsweep: at most GCSWEEPMAX objects of `rootgc` are swept. */
    method SweepStep()
      requires Inv() && gcstate == Sweep
      modifies this`heap, this`marked, this`gray, this`rootgc, this`sweepgc, this`uvhead, this`strt, this`gcstate
      ensures Inv() && (gcstate == Finalize || (gcstate == Sweep && |rootgc| - sweepgc + |uvhead| < old(|rootgc| - sweepgc + |uvhead|)))
      ensures KeepsLive(old(heap), old(marked), currentwhite, heap, marked, fixed)
      ensures Reduced(old(heap), heap)
    {
      hide UpvalsOk, LinksOk, StringsOk, Closed, AllLive, Marking, GlobalState.Roots, KeepsLive, FixedOk, OpenGray, StringsWhite, SweptWhite, AllWhite, Reduced;
      var count := GCSWEEPMAX;
      KeepsLiveSelf(heap, marked, currentwhite, fixed);
      ReducedSelf(heap, uvhead);
      while sweepgc < |rootgc| && count > 0
        invariant Inv() && gcstate == Sweep && count >= 0
        invariant |rootgc| - sweepgc + |uvhead| <= old(|rootgc| - sweepgc + |uvhead|) - (if count < GCSWEEPMAX then 1 else 0)
        invariant KeepsLive(old(heap), old(marked), currentwhite, heap, marked, fixed) && Reduced(old(heap), heap)
        decreases count
      {
        ghost var h, c := heap, marked;
        SweepObject();
        KeepsLiveTrans(old(heap), old(marked), currentwhite, h, c, heap, marked, fixed);
        ReducedTrans(old(heap), h, heap);
        count := count - 1;
      }
      if sweepgc >= |rootgc| {
        CheckSizes();
        EndSweep();
      }
    }

    method EndSweep()
      requires Inv() && gcstate == Sweep && sweepgc >= |rootgc|
      modifies this`gcstate
      ensures Inv() && gcstate == Finalize
    {
      hide Closed, AllLive, Marking, GlobalState.Roots, FixedOk, OpenGray, StringsWhite, SweptWhite, AllWhite, UpvalsOk, LinksOk, StringsOk;
      assert rootgc[..sweepgc] == rootgc;
      SweepDone(heap, marked, currentwhite, rootgc, uvhead);
      gcstate := Finalize;
    }

    // -------------------------------------------------------------- the collector

    /** In the mark phase only reachable objects are marked; afterwards only reachable or fixed
        objects are live. A run of the collector alone keeps this. */
    ghost predicate Exact()
      reads this
    {
      if gcstate == Propagate then Precise(heap, marked, Roots()) else AllNeeded(heap, marked, currentwhite, Roots(), fixed)
    }

    /** How far the collection is from its end. */
    ghost function Stage(): nat
      reads this`gcstate
    {
      match gcstate
      case Pause => 0
      case Propagate => 4
      case SweepString => 3
      case Sweep => 2
      case Finalize => 1
    }

    ghost function Work(): int
      reads this
    {
      match gcstate
      case Propagate => |gray| + |Whites(marked)|
      case SweepString => |strt| - sweepstrgc
      case Sweep => |rootgc| - sweepgc + |uvhead|
      case _ => 0
    }

    method StartCycle()
      requires Inv() && (gcstate == Pause || gcstate == Finalize)
      modifies this`marked, this`gray, this`grayagain, this`gcstate
      ensures Inv() && gcstate == Propagate && Exact()
      ensures ReachableSurvives(heap, Roots(), heap)
    {
      hide UpvalsOk, LinksOk, StringsOk, Closed, AllLive, Marking, GlobalState.Roots, KeepsLive, Preserved, FixedOk, OpenGray, AllWhite, NoDangling, ReachableSurvives, Precise;
      StepSelf();
      WhiteNoDangling(heap, marked, currentwhite, Roots());
      MarkRoot();
      MarkedLive(heap, marked, currentwhite, gray, grayagain, Roots());
      MarkingOpenGray(heap, marked, currentwhite, gray, grayagain);
    }

    method PropagateStep()
      requires Inv() && gcstate == Propagate && gray != []
      modifies this`marked, this`gray, this`grayagain
      ensures Inv() && Work() < old(Work()) && (old(Exact()) ==> Exact())
      ensures ReachableSurvives(heap, Roots(), heap)
    {
      hide UpvalsOk, LinksOk, StringsOk, Closed, AllLive, Marking, GlobalState.Roots, KeepsLive, Preserved, FixedOk, OpenGray, ReachableSurvives, Precise;
      StepSelf();
      MarkedRoots();
      PropagateMark(Roots());
      MarkedLive(heap, marked, currentwhite, gray, grayagain, Roots());
      MarkingOpenGray(heap, marked, currentwhite, gray, grayagain);
    }

    method EndMark()
      requires Inv() && gcstate == Propagate
      modifies this`marked, this`gray, this`grayagain, this`currentwhite, this`sweepstrgc, this`sweepgc, this`gcstate
      ensures Inv() && gcstate == SweepString && (old(Exact()) ==> Exact())
      ensures ReachableSurvives(heap, Roots(), heap)
    {
      hide UpvalsOk, LinksOk, StringsOk, Closed, AllLive, Marking, GlobalState.Roots, KeepsLive, Preserved, FixedOk, OpenGray, ReachableSurvives, Precise, Settled, AllNeeded, OnlyReachable;
      StepSelf();
      MarkedRoots();
      OpenListed(heap, uvhead);
      Atomic();
      NoBuckets(heap, marked, currentwhite, strt, rootgc, hash);
      if OnlyReachable(heap, marked, currentwhite, Roots()) {
        ReachableNeeded(heap, marked, currentwhite, Roots(), fixed);
      }
    }

    method SweepStringStep()
      requires Inv() && gcstate == SweepString
      modifies this`heap, this`marked, this`strt, this`nuse, this`sweepstrgc, this`gcstate
      ensures Inv() && (gcstate == Sweep || (gcstate == SweepString && 0 <= Work() < old(Work()))) && (old(Exact()) ==> Exact())
      ensures ReachableSurvives(old(heap), Roots(), heap)
      ensures Reduced(old(heap), heap)
    {
      hide UpvalsOk, LinksOk, StringsOk, Closed, AllLive, Marking, GlobalState.Roots, KeepsLive, Preserved, FixedOk, OpenGray, ReachableSurvives, Settled, AllNeeded, Reduced;
      SweepBucket();
      StepKept(old(heap), old(marked), heap, marked);
    }

    method SweepRootStep()
      requires Inv() && gcstate == Sweep
      modifies this`heap, this`marked, this`gray, this`rootgc, this`sweepgc, this`uvhead, this`strt, this`gcstate
      ensures Inv() && (gcstate == Finalize || (gcstate == Sweep && 0 <= Work() < old(Work()))) && (old(Exact()) ==> Exact())
      ensures ReachableSurvives(old(heap), Roots(), heap)
      ensures Reduced(old(heap), heap)
    {
      hide UpvalsOk, LinksOk, StringsOk, Closed, AllLive, Marking, GlobalState.Roots, KeepsLive, Preserved, FixedOk, OpenGray, ReachableSurvives, AllNeeded, StringsWhite, SweptWhite, AllWhite, Reduced;
      SweepStep();
      StepKept(old(heap), old(marked), heap, marked);
    }

    method EndCycle()
      requires Inv() && gcstate == Finalize
      modifies this`gcstate
      ensures Inv() && gcstate == Pause && (old(Exact()) ==> Exact())
      ensures ReachableSurvives(heap, Roots(), heap)
    {
      hide UpvalsOk, LinksOk, StringsOk, Closed, AllLive, Marking, GlobalState.Roots, KeepsLive, Preserved, FixedOk, OpenGray, ReachableSurvives, AllNeeded, AllWhite;
      StepSelf();
      gcstate := Pause;
    }

    lemma StepSelf()
      requires Safe()
      ensures ReachableSurvives(heap, Roots(), heap)
    {
      PreservedSelf(heap, marked, currentwhite);
      Survival(heap, marked, currentwhite, heap, Roots());
    }

    lemma StepKept(h: Heap, c: Marks, h': Heap, c': Marks)
      requires Closed(h, c, currentwhite) && AllLive(h, c, currentwhite, Roots()) && KeepsLive(h, c, currentwhite, h', c', fixed)
      ensures ReachableSurvives(h, Roots(), h')
      ensures AllNeeded(h, c, currentwhite, Roots(), fixed) ==> AllNeeded(h', c', currentwhite, Roots(), fixed)
    {
      Survival(h, c, currentwhite, h', Roots());
      if AllNeeded(h, c, currentwhite, Roots(), fixed) {
        NeededKept(h, c, currentwhite, h', c', Roots(), fixed);
      }
    }

    lemma MarkedRoots()
      requires AllLive(heap, marked, currentwhite, Roots())
      ensures Roots() <= heap.Keys
    {
    }

    /** singlestep */
    method SingleStep()
      requires Inv()
      modifies this
      ensures Inv() && mt == old(mt) && running == old(running) && fixed == old(fixed)
      ensures old(gcstate) == Pause ==> gcstate == Propagate && Exact()
      ensures gcstate == Pause ==> old(gcstate) == Finalize
      ensures old(gcstate) != Pause ==> Stage() < old(Stage()) || (Stage() == old(Stage()) && 0 <= Work() < old(Work()))
      ensures old(gcstate) != Pause && old(Exact()) ==> Exact()
      ensures ReachableSurvives(old(heap), Roots(), heap)
      ensures Reduced(old(heap), heap)
    {
      hide GlobalState.Inv, GlobalState.Exact, GlobalState.Roots, ReachableSurvives, Reduced, Whites;
      ReducedHere();
      match gcstate {
        case Pause =>
          StartCycle();
        case Propagate =>
          if gray != [] {
            PropagateStep();
          } else {
            EndMark();
          }
        case SweepString =>
          SweepStringStep();
        case Sweep =>
          SweepRootStep();
        case Finalize =>
          EndCycle();
      }
    }

    method ResetSweep()
      requires Inv() && (gcstate == Pause || gcstate == Propagate)
      modifies this`gray, this`grayagain, this`sweepstrgc, this`sweepgc, this`gcstate
      ensures Inv() && gcstate == SweepString
    {
      hide UpvalsOk, LinksOk, StringsOk, Closed, AllLive, Marking, GlobalState.Roots, FixedOk, OpenGray, Settled;
      sweepstrgc, sweepgc := 0, 0;
      gray, grayagain := [], [];
      gcstate := SweepString;
      NoBuckets(heap, marked, currentwhite, strt, rootgc, hash);
    }

    /** luaC_fullgc: from any state of the collector, what remains afterwards is what was
        reachable, and fixed objects. */
    method FullGc()
      requires Inv()
      modifies this
      ensures Inv() && gcstate == Pause && mt == old(mt) && running == old(running) && fixed == old(fixed)
      ensures ReachableSurvives(old(heap), Roots(), heap)
      ensures Reduced(old(heap), heap)
      ensures forall x :: x in heap ==> old(Reachable(heap, Roots(), x)) || x in fixed
      ensures forall x :: x in heap ==> IsWhite(marked, currentwhite, x)
    {
      hide GlobalState.Inv, GlobalState.Exact, GlobalState.Roots, ReachableSurvives, Reduced, Whites;
      ghost var h0 := heap;
      NothingLost();
      ReducedHere();
      if gcstate == Pause || gcstate == Propagate {
        ResetSweep();
      }
      while gcstate != Finalize
        invariant Inv() && gcstate != Pause && gcstate != Propagate && mt == old(mt) && running == old(running) && fixed == old(fixed)
        invariant ReachableSurvives(h0, Roots(), heap) && Reduced(h0, heap)
        decreases Stage(), Work()
      {
        ghost var h := heap;
        SingleStep();
        SurvivalTrans(h0, h, heap, Roots());
        ReducedTrans(h0, h, heap);
      }
      StartCycle();
      while gcstate != Pause
        invariant Inv() && Exact() && mt == old(mt) && running == old(running) && fixed == old(fixed)
        invariant ReachableSurvives(h0, Roots(), heap) && Reduced(h0, heap)
        decreases Stage(), Work()
      {
        ghost var h := heap;
        SingleStep();
        SurvivalTrans(h0, h, heap, Roots());
        ReducedTrans(h0, h, heap);
      }
      AllExact(h0);
    }

    lemma ReducedHere()
      requires Inv()
      ensures Reduced(heap, heap)
    {
      ReducedSelf(heap, uvhead);
    }

    lemma NothingLost()
      requires Inv()
      ensures ReachableSurvives(heap, Roots(), heap)
    {
      StepSelf();
    }

    lemma AllExact(h0: Heap)
      requires Inv() && Exact() && gcstate == Pause && ReachableSurvives(h0, Roots(), heap)
      ensures forall x :: x in heap ==> Reachable(h0, Roots(), x) || x in fixed
      ensures forall x :: x in heap ==> IsWhite(marked, currentwhite, x)
    {
      forall x | x in heap ensures Reachable(h0, Roots(), x) || x in fixed {
        assert Live(heap, marked, currentwhite, x);
        if x !in fixed {
          ReachableBack(h0, heap, Roots(), x);
        }
      }
    }

    // -------------------------------------------------------------- stores and write barriers

    /** The invariant, as it was before the heap `h` was changed. */
    ghost predicate InvAt(h: Heap)
      reads this
    {
      && Shape(h, marked, rootgc, uvhead, strt, hash, mainthread, running, fixed)
      && Closed(h, marked, currentwhite) && AllLive(h, marked, currentwhite, Roots())
      && Settled(gcstate, h, marked, currentwhite, strt, sweepstrgc, rootgc, sweepgc)
      && (gcstate == Propagate ==> Marking(h, marked, currentwhite, gray, grayagain, {}) && Marked(marked, mainthread) && (registry.To? ==> Marked(marked, registry.id)))
    }

    /** A store needs a barrier when it makes a black object refer to a white one. */
    ghost predicate NeedsBarrier(o: Id, v: Ref)
      reads this`marked
    {
      o in marked && marked[o] == Black && v.To? && v.id in marked && marked[v.id].White?
    }

    lemma StoreDone(h: Heap, o: Id, v: Ref)
      requires InvAt(h) && Stores(h, heap, o, v) && LiveRef(h, marked, currentwhite, v)
      requires gcstate == Propagate ==> !NeedsBarrier(o, v)
      ensures Inv()
    {
      hide UpvalsOk, LinksOk, StringsOk, Closed, AllLive, Marking, GlobalState.Roots, FixedOk, OpenGray, Settled, Stores;
      StoredShape(h, marked, rootgc, uvhead, strt, hash, mainthread, running, fixed, heap, o, v);
      StoredSafe(h, marked, currentwhite, Roots(), heap, o, v);
      StoredSettled(gcstate, h, marked, currentwhite, strt, sweepstrgc, rootgc, sweepgc, heap, o, v);
      if gcstate == Propagate {
        StoresKinds(h, heap, o, v);
        StoredMarking(h, marked, currentwhite, gray, grayagain, heap, o, v);
      }
    }

    /** luaC_barrierback: a black table that now refers to a white object is to be traversed again. */
    method BarrierBack(t: Id, ghost h: Heap, ghost v: Ref)
      requires InvAt(h) && Stores(h, heap, t, v) && LiveRef(h, marked, currentwhite, v) && t in heap && heap[t].Table? && NeedsBarrier(t, v)
      modifies this`marked, this`grayagain
      ensures Inv() && marked == old(marked)[t := Gray] && grayagain == [t] + old(grayagain)
    {
      hide UpvalsOk, LinksOk, StringsOk, Closed, AllLive, Marking, GlobalState.Roots, FixedOk, Settled, Stores, Points;
      ghost var c, again := marked, grayagain;
      StoresKinds(h, heap, t, v);
      marked := marked[t := Gray];
      grayagain := [t] + grayagain;
      StoredShape(h, c, rootgc, uvhead, strt, hash, mainthread, running, fixed, heap, t, v);
      StoredSafe(h, c, currentwhite, Roots(), heap, t, v);
      GraySafe(heap, c, currentwhite, Roots(), t);
      StoredSettled(gcstate, h, c, currentwhite, strt, sweepstrgc, rootgc, sweepgc, heap, t, v);
      GraySettled(gcstate, heap, c, currentwhite, strt, sweepstrgc, rootgc, sweepgc, t);
      if gcstate == Propagate {
        StoredMarking(h, c, currentwhite, gray, again, heap, t, v);
        BackMarking(heap, c, currentwhite, gray, again, t);
      }
    }

    /** luaC_barrierf: the object referred to is marked; outside the mark phase the black object
        just turns white, to avoid other barriers. */
    method BarrierForward(o: Id, v: Ref, ghost h: Heap)
      requires InvAt(h) && Stores(h, heap, o, v) && LiveRef(h, marked, currentwhite, v) && o in heap && NeedsBarrier(o, v)
      modifies this`marked, this`gray
      ensures Inv()
      ensures gcstate == Propagate ==> Marked(marked, v.id) && Grows(old(marked), marked)
      ensures gcstate != Propagate ==> marked == old(marked)[o := White(currentwhite)] && gray == old(gray)
    {
      hide Shape, UpvalsOk, LinksOk, StringsOk, Closed, AllLive, Marking, GlobalState.Roots, FixedOk, Settled, Stores, OpenGray;
      if gcstate == Propagate {
        BarrierMark(o, v, h);
      } else {
        StoreDone(h, o, v);
        MakeWhite(o);
      }
    }

    method BarrierMark(o: Id, v: Ref, ghost h: Heap)
      requires InvAt(h) && Stores(h, heap, o, v) && LiveRef(h, marked, currentwhite, v) && o in heap && NeedsBarrier(o, v) && gcstate == Propagate
      modifies this`marked, this`gray
      ensures Inv() && Marked(marked, v.id) && Grows(old(marked), marked)
    {
      hide UpvalsOk, LinksOk, StringsOk, Closed, AllLive, Marking, GlobalState.Roots, FixedOk, Settled, Stores, OpenGray, Points;
      ghost var c, roots := marked, Roots();
      StoresKinds(h, heap, o, v);
      StoredShape(h, c, rootgc, uvhead, strt, hash, mainthread, running, fixed, heap, o, v);
      StoredMarking(h, c, currentwhite, gray, grayagain, heap, o, v);
      NotBlack(h, c, currentwhite, gray, grayagain, heap, o, v);
      BarrierF(v, {o});
      ForwardMarking(heap, c, marked, currentwhite, gray, grayagain, o, v);
      MarkingOpenGray(heap, marked, currentwhite, gray, grayagain);
      AllHere(h, c, roots);
      MarkedLive(heap, marked, currentwhite, gray, grayagain, roots);
      MarkingSettled(heap, marked, currentwhite, strt, sweepstrgc, rootgc, sweepgc);
    }

    lemma AllHere(h: Heap, c: Marks, roots: set<Id>)
      requires AllLive(h, c, currentwhite, roots) && h.Keys == heap.Keys
      ensures roots <= heap.Keys
    {
    }

    // -------------------------------------------------------------- steps of the program

    /** A value the program may use: it is not dead. */
    predicate Usable(v: Ref)
      reads this`heap, this`marked, this`currentwhite
    {
      v.To? ==> v.id in heap && v.id in marked && marked[v.id] != White(!currentwhite)
    }

    /** A new object joins `rootgc` at position `at`. */
    method LinkAt(id: Id, b: Body, at: nat)
      requires Inv() && id !in heap && Rooted(b) && (b.Thread? ==> b.open == []) && at <= |rootgc|
      requires forall v :: v in RefsOf(map[id := b], id) ==> Usable(v)
      modifies this`heap, this`marked, this`rootgc, this`sweepgc
      ensures Inv() && heap == old(heap)[id := b] && marked == old(marked)[id := White(currentwhite)]
      ensures rootgc == InsertAt(old(rootgc), at, id) && sweepgc == (if old(sweepgc) > at then old(sweepgc) + 1 else old(sweepgc))
      ensures ReachableSurvives(old(heap), Roots(), heap)
    {
      hide UpvalsOk, LinksOk, StringsOk, Closed, AllLive, Marking, GlobalState.Roots, FixedOk, OpenGray, Settled, ReachableSurvives, InsertAt, SameRefs, NewRefs;
      ghost var h, c, r, k := heap, marked, rootgc, sweepgc;
      UsableRefs(id, b);
      heap := heap[id := b];
      rootgc := InsertAt(rootgc, at, id);
      marked := marked[id := White(currentwhite)];
      sweepgc := if sweepgc > at then sweepgc + 1 else sweepgc;
      LinkedShape(h, c, r, uvhead, strt, hash, mainthread, running, fixed, id, b, at, currentwhite);
      NewSafe(gcstate, h, c, currentwhite, gray, grayagain, heap, id, Roots());
      LinkedSettled(gcstate, h, c, currentwhite, strt, sweepstrgc, r, k, uvhead, hash, id, b, at);
    }

    lemma UsableRefs(id: Id, b: Body)
      requires Inv() && id !in heap && !b.OpenUpval? && forall v :: v in RefsOf(map[id := b], id) ==> Usable(v)
      ensures NewRefs(heap, marked, currentwhite, heap[id := b], id)
    {
      assert RefsOf(heap[id := b], id) == RefsOf(map[id := b], id);
    }

    /** luaC_link: a new table, function, prototype, closed upvalue or thread. */
    method NewObject(id: Id, b: Body)
      requires Inv() && id !in heap && Rooted(b) && !b.Udata? && (b.Thread? ==> b.open == [])
      requires forall v :: v in RefsOf(map[id := b], id) ==> Usable(v)
      modifies this`heap, this`marked, this`rootgc, this`sweepgc
      ensures Inv() && heap == old(heap)[id := b] && marked == old(marked)[id := White(currentwhite)]
      ensures rootgc == [id] + old(rootgc) && sweepgc == (if old(sweepgc) == 0 then 0 else old(sweepgc) + 1)
      ensures ReachableSurvives(old(heap), Roots(), heap)
    {
      hide GlobalState.Inv, ReachableSurvives, GlobalState.Roots, Rooted, GlobalState.Usable;
      LinkAt(id, b, 0);
    }

    /** luaS_newudata: a userdata is linked after the main thread. */
    method NewUdata(id: Id, refs: seq<Ref>)
      requires Inv() && id !in heap && forall v :: v in refs ==> Usable(v)
      modifies this`heap, this`marked, this`rootgc, this`sweepgc
      ensures Inv() && heap == old(heap)[id := Udata(refs)] && marked == old(marked)[id := White(currentwhite)]
      ensures exists at: nat :: at < |old(rootgc)| && old(rootgc)[at] == mainthread && rootgc == old(rootgc)[..at + 1] + [id] + old(rootgc)[at + 1..]
      ensures ReachableSurvives(old(heap), Roots(), heap)
    {
      MainLinked();
      hide GlobalState.Inv;
      var at := 0;
      while rootgc[at] != mainthread
        invariant 0 <= at < |rootgc| && mainthread in rootgc[at..]
        decreases |rootgc| - at
      {
        at := at + 1;
      }
      LinkAt(id, Udata(refs), at + 1);
    }

    lemma MainLinked()
      requires Inv()
      ensures mainthread in rootgc
    {
    }

    /** A store into a table, with its backward barrier. */
    method TableStore(t: Id, i: nat, v: Ref)
      requires Inv() && t in heap && heap[t].Table? && i <= |heap[t].refs| && Usable(v)
      modifies this`heap, this`marked, this`grayagain
      ensures Inv() && heap == old(heap)[t := Table(SetAt(old(heap[t].refs), i, v))]
    {
      hide UpvalsOk, LinksOk, StringsOk, Closed, AllLive, Marking, GlobalState.Roots, FixedOk, OpenGray, Settled, Stores, SetAt;
      ghost var h := heap;
      var b := Table(SetAt(heap[t].refs, i, v));
      SetAtRefs(heap[t].refs, i, v);
      BodyStores(heap, t, b, v);
      heap := heap[t := b];
      if v.To? && marked[v.id].White? && marked[t] == Black {
        BarrierBack(t, h, v);
      } else {
        StoreDone(h, t, v);
      }
    }

    /** A store into a function, prototype, userdata or closed upvalue, with its forward barrier. */
    method ObjectStore(o: Id, b: Body, v: Ref)
      requires Inv() && o in heap && Usable(v) && SameKind(heap[o], b) && (b.Function? || b.Proto? || b.Udata? || b.ClosedUpval?)
      requires forall r :: r in RefsOf(heap[o := b], o) ==> r in RefsOf(heap, o) || r == v
      modifies this`heap, this`marked, this`gray
      ensures Inv() && heap == old(heap)[o := b]
    {
      hide UpvalsOk, LinksOk, StringsOk, Closed, AllLive, Marking, GlobalState.Roots, FixedOk, OpenGray, Settled, Stores;
      ghost var h := heap;
      BodyStores(heap, o, b, v);
      heap := heap[o := b];
      if v.To? && marked[v.id].White? && marked[o] == Black {
        BarrierForward(o, v, h);
      } else {
        StoreDone(h, o, v);
      }
    }

    /** Stores into the stack of a thread, or its global table, have no barrier: threads are
        never black. */
    method ThreadStore(th: Id, gt: Ref, stack: seq<Ref>, v: Ref)
      requires Inv() && th in heap && heap[th].Thread? && Usable(v) && (gt == v || gt == heap[th].gt)
      requires forall l :: 0 <= l < |stack| ==> stack[l] == v || (l < |heap[th].stack| && stack[l] == heap[th].stack[l])
      requires forall u :: u in heap[th].open && u in heap && heap[u].OpenUpval? ==> heap[u].level < |stack|
      modifies this`heap
      ensures Inv() && heap == old(heap)[th := Thread(gt, stack, old(heap[th].open))]
    {
      hide UpvalsOk, LinksOk, StringsOk, Closed, AllLive, Marking, GlobalState.Roots, FixedOk, OpenGray, Settled, Stores;
      ghost var h := heap;
      ThreadStores(heap, th, gt, stack, v);
      if gcstate == Propagate { ThreadGray(heap, marked, currentwhite, gray, grayagain, th); }
      heap := heap[th := Thread(gt, stack, heap[th].open)];
      StoreDone(h, th, v);
    }

    /** luaF_findupval: the open upvalue of a stack slot; there is never more than one. */
    method FindUpval(th: Id, level: nat, id: Id) returns (r: Id)
      requires Inv() && Usable(To(th)) && heap[th].Thread? && level < |heap[th].stack| && id !in heap
      modifies this`heap, this`marked, this`uvhead
      ensures Inv() && r in heap && heap[r] == OpenUpval(th, level) && Usable(To(r))
      ensures r in old(heap) ==> heap == old(heap)
      ensures r !in old(heap) ==> r == id && forall u :: u in old(heap) ==> old(heap)[u] != OpenUpval(th, level)
      ensures r !in old(heap) ==> exists i: nat :: i <= |old(heap[th].open)| && heap == old(Opened(heap, th, i, id, level))
      ensures forall u :: u in heap && heap[u] == OpenUpval(th, level) ==> u == r
      ensures ReachableSurvives(old(heap), Roots(), heap)
    {
      hide LinksOk, StringsOk, UpvalsOk, OpenOk, Closed, AllLive, Marking, GlobalState.Roots, FixedOk, OpenGray, Settled, ReachableSurvives, Belongs;
      OpenThere(heap, uvhead, th);
      NothingLost();
      var i := 0;
      while i < |heap[th].open| && heap[heap[th].open[i]].level >= level
        invariant 0 <= i <= |heap[th].open|
        invariant forall j :: 0 <= j < i ==> heap[heap[th].open[j]].level > level
      {
        assert heap[th].open[i] in heap[th].open;
        if heap[heap[th].open[i]].level == level {
          r := heap[th].open[i];
          OneUpval(heap, uvhead, r);
          if marked[r] == White(!currentwhite) {
            Resurrect(r);
          }
          return;
        }
        i := i + 1;
      }
      LevelFree(heap, uvhead, th, i, level);
      NewUpval(th, level, i, id);
      OneUpval(heap, uvhead, id);
      r := id;
    }

    /** changewhite of a dead open upvalue of a thread that is not dead. */
    method Resurrect(u: Id)
      requires Inv() && u in heap && heap[u].OpenUpval? && Dead(marked, currentwhite, u) && Live(heap, marked, currentwhite, heap[u].th)
      modifies this`marked
      ensures Inv() && marked == old(marked)[u := White(currentwhite)]
    {
      hide Shape, AllLive, GlobalState.Roots, SameContents;
      DeadWhenSwept(u);
      OpenOwner(u);
      forall y | Points(heap, u, y) ensures Live(heap, marked, currentwhite, y) {
        assert Points(heap, heap[u].th, y);
      }
      MakeWhite(u);
    }

    method NewUpval(th: Id, level: nat, i: nat, id: Id)
      requires Inv() && Usable(To(th)) && heap[th].Thread? && level < |heap[th].stack| && id !in heap
      requires Belongs(heap, heap[th].open, i, level)
      modifies this`heap, this`marked, this`uvhead
      ensures Inv() && old(i <= |heap[th].open|) && heap == old(Opened(heap, th, i, id, level)) && marked == old(marked)[id := White(currentwhite)]
      ensures ReachableSurvives(old(heap), Roots(), heap)
    {
      hide Shape, Closed, AllLive, Marking, GlobalState.Roots, Settled, ReachableSurvives, NewRefs, Opened, Belongs;
      BelongsThere(heap, heap[th].open, i, level);
      UpvalRefs(th, level, i, id);
      OpenedAll(gcstate, heap, marked, currentwhite, gray, grayagain, strt, sweepstrgc, rootgc, sweepgc, uvhead, hash, mainthread, running, fixed, Roots(), th, i, id, level);
      heap := Opened(heap, th, i, id, level);
      marked := marked[id := White(currentwhite)];
      uvhead := [id] + uvhead;
    }

    lemma UpvalRefs(th: Id, level: nat, i: nat, id: Id)
      requires Inv() && Usable(To(th)) && heap[th].Thread? && level < |heap[th].stack| && id !in heap && i <= |heap[th].open|
      ensures NewRefs(heap, marked, currentwhite, Opened(heap, th, i, id, level), id)
    {
      hide Settled, UpvalsOk;
      forall y | To(y) in RefsOf(Opened(heap, th, i, id, level), id) ensures Live(heap, marked, currentwhite, y) {
        assert Points(heap, th, y);
      }
    }

    /** luaS_newlstr: the string with the given content, found or made. */
    method Intern(s: string, id: Id) returns (r: Id)
      requires Inv() && id !in heap
      modifies this`heap, this`marked, this`strt, this`nuse
      ensures Inv() && r in heap && heap[r] == Str(s) && Usable(To(r))
      ensures r in old(heap) ==> heap == old(heap)
      ensures r !in old(heap) ==> r == id && heap == old(heap)[id := Str(s)] && forall x :: x in old(heap) ==> old(heap)[x] != Str(s)
      ensures forall x :: x in heap && heap[x] == Str(s) ==> x == r
      ensures ReachableSurvives(old(heap), Roots(), heap)
    {
      hide LinksOk, UpvalsOk, StringsOk, Closed, AllLive, Marking, GlobalState.Roots, FixedOk, OpenGray, Settled, ReachableSurvives;
      SomeBucket(heap, strt, hash);
      NothingLost();
      ghost var b := hash(s) % |strt|;
      var l := strt[hash(s) % |strt|];
      var i := 0;
      while i < |l|
        invariant unchanged(this) && 0 <= i <= |l| && forall j :: 0 <= j < i ==> l[j] in heap && heap[l[j]] != Str(s)
      {
        InBucket(heap, strt, hash, b, i);
        if heap[l[i]].s == s {
          r := l[i];
          OneString(heap, strt, hash, r);
          if marked[r] == White(!currentwhite) {
            DeadWhenSwept(r);
            assert RefsOf(heap, r) == [];
            MakeWhite(r);
          }
          return;
        }
        i := i + 1;
      }
      StringAbsent(heap, strt, hash, s);
      NewString(s, id);
      SomeBucket(heap, strt, hash);
      OneString(heap, strt, hash, id);
      r := id;
    }

    /** newlstr */
    method NewString(s: string, id: Id)
      requires Inv() && id !in heap && forall x :: x in heap && heap[x].Str? ==> heap[x].s != s
      modifies this`heap, this`marked, this`strt, this`nuse
      ensures Inv() && heap == old(heap)[id := Str(s)] && marked == old(marked)[id := White(currentwhite)]
      ensures ReachableSurvives(old(heap), Roots(), heap)
    {
      hide Shape, StringsOk, Closed, AllLive, Marking, GlobalState.Roots, Settled, ReachableSurvives;
      AddString(s, id);
      if nuse > |strt| && |strt| <= MAX_INT / 2 {
        Resize(|strt| * 2);
      }
    }

    method AddString(s: string, id: Id)
      requires Inv() && id !in heap && forall x :: x in heap && heap[x].Str? ==> heap[x].s != s
      modifies this`heap, this`marked, this`strt, this`nuse
      ensures Inv() && heap == old(heap)[id := Str(s)] && marked == old(marked)[id := White(currentwhite)] && |strt| == |old(strt)| > 0
      ensures ReachableSurvives(old(heap), Roots(), heap)
    {
      hide StringsOk, LinksOk, UpvalsOk, FixedOk, OpenGray, Closed, AllLive, Marking, GlobalState.Roots, Settled, ReachableSurvives;
      SomeBucket(heap, strt, hash);
      var b := hash(s) % |strt|;
      NewStrAll(gcstate, heap, marked, currentwhite, gray, grayagain, strt, sweepstrgc, rootgc, sweepgc, uvhead, hash, mainthread, running, fixed, Roots(), id, s, b);
      heap := heap[id := Str(s)];
      marked := marked[id := White(currentwhite)];
      strt := strt[b := [id] + strt[b]];
      nuse := nuse + 1;
    }

    /** OP_SETUPVAL: an open upvalue is a stack slot; a closed one has a barrier. */
    method SetUpval(u: Id, v: Ref)
      requires Inv() && u in heap && (heap[u].OpenUpval? || heap[u].ClosedUpval?) && Usable(v)
      modifies this`heap, this`marked, this`gray
      ensures Inv() && heap == UpvalSet(old(heap), u, v) && RefsOf(heap, u) == [v]
    {
      hide GlobalState.Inv;
      OpenUpvalOwner(u);
      match heap[u] {
        case OpenUpval(th, level) =>
          ThreadStore(th, heap[th].gt, heap[th].stack[level := v], v);
        case ClosedUpval(_) =>
          ObjectStore(u, ClosedUpval(v), v);
      }
    }

    lemma OpenUpvalOwner(u: Id)
      requires Inv() && u in heap
      ensures heap[u].OpenUpval? ==> heap[u].th in heap && heap[heap[u].th].Thread? && heap[u].level < |heap[heap[u].th].stack|
      ensures forall t, x :: t in heap && heap[t].Thread? && x in heap[t].open && x in heap && heap[x].OpenUpval? ==> heap[x].level < |heap[t].stack|
    {
      forall t | t in heap && heap[t].Thread? ensures OpenOk(heap, t) { }
      if heap[u].OpenUpval? { OpenOwner(u); }
    }

    /** A metatable of a basic type changes. */
    method SetMt(i: nat, v: Ref)
      requires Inv() && i < |mt| && Usable(v)
      modifies this`mt
      ensures Inv() && mt == old(mt)[i := v]
    {
      hide UpvalsOk, LinksOk, StringsOk, Closed, Marking, FixedOk, OpenGray, Settled;
      ghost var m := mt;
      mt := mt[i := v];
      forall r | r in mt && r.To? ensures Live(heap, marked, currentwhite, r.id) {
        if r != v {
          assert r in m;
          assert r.id in old(Roots());
        }
      }
    }

    /** Another thread runs. */
    method Resume(th: Id)
      requires Inv() && Usable(To(th)) && heap[th].Thread?
      modifies this`running
      ensures Inv() && running == th
    {
      hide UpvalsOk, LinksOk, StringsOk, Closed, Marking, FixedOk, OpenGray, Settled;
      running := th;
      forall r | r in Roots() ensures Live(heap, marked, currentwhite, r) {
        if r != th { assert r in old(Roots()); }
      }
    }

    // -------------------------------------------------------------- whole runs

    /** A fresh state: the main thread, its table of globals, the registry, and no strings. */
    constructor (hash: string -> nat)
      ensures Inv() && gcstate == Pause
    {
      this.hash, mainthread, running, registry := hash, 0, 0, To(2);
      mt, fixed, nuse := [], {0}, 0;
      heap, marked := FirstHeap(), FirstMarks();
      currentwhite, gcstate, gray, grayagain := false, Pause, [], [];
      rootgc, sweepgc, uvhead := [2, 1, 0], 0, [];
      strt, sweepstrgc := seq(MINSTRTABSIZE, _ => []), 0;
      new;
      hide UpvalsOk, LinksOk, StringsOk, Closed, AllLive, AllWhite, FixedOk, OpenGray, FirstHeap, FirstMarks, GlobalState.Roots;
      FirstShape(strt, hash);
      FirstRoots();
    }

    lemma FirstRoots()
      requires heap == FirstHeap() && marked == FirstMarks() && mainthread == running == 0 && registry == To(2) && mt == [] && !currentwhite
      ensures Closed(heap, marked, currentwhite) && AllLive(heap, marked, currentwhite, Roots()) && AllWhite(heap, marked, currentwhite)
    {
    }

    /** What no run ever breaks: in the mark phase no black object refers to a white one;
        threads and open upvalues are not black; gray objects still to be traversed are on
        exactly one of the lists. In no phase does a reachable object lead to a dead one. */
    lemma TriColour()
      requires Inv()
      ensures gcstate == Propagate ==> forall x, y {:trigger Points(heap, x, y)} :: Points(heap, x, y) && x in marked && marked[x] == Black ==> y in marked && !marked[y].White?
      ensures gcstate == Propagate ==> forall x :: x in heap && (heap[x].Thread? || heap[x].OpenUpval?) ==> marked[x] != Black
      ensures gcstate == Propagate ==> NoDup(gray + grayagain) && forall x :: x in heap && Traversable(heap[x]) ==> (marked[x] == Gray <==> x in gray || x in grayagain)
      ensures forall x :: Reachable(heap, Roots(), x) ==> x in heap && !Dead(marked, currentwhite, x)
    {
      hide Settled, UpvalsOk;
      if gcstate == Propagate {
        assert forall x :: x in heap ==> ColorOk(heap, marked, currentwhite, gray, grayagain, x);
      }
      forall x | Reachable(heap, Roots(), x) ensures x in heap && !Dead(marked, currentwhite, x) {
        ReachableLive(heap, marked, currentwhite, Roots(), x);
      }
    }

    lemma ReachableHere()
      requires Inv()
      ensures forall x :: Reachable(heap, Roots(), x) ==> x in heap
    {
      forall x | Reachable(heap, Roots(), x) ensures x in heap { ReachableLive(heap, marked, currentwhite, Roots(), x); }
    }

    lemma ClosedSurvives(h: Heap, c: Marks, roots: set<Id>)
      requires Closed(h, c, currentwhite) && AllLive(h, c, currentwhite, roots) && KeepsLive(h, c, currentwhite, heap, marked, fixed)
      ensures forall x :: Reachable(h, roots, x) ==> x in heap
    {
      Survival(h, c, currentwhite, heap, roots);
    }

    /** Whether the program may take the step: it only uses what it can have got hold of. */
    predicate Enabled(a: Action)
      reads this
    {
      match a
      case New(id, b) =>
        id !in heap && Rooted(b) && !b.Udata? && (b.Thread? ==> b.open == []) && forall v :: v in RefsOf(map[id := b], id) ==> Usable(v)
      case NewU(id, refs) => id !in heap && forall v :: v in refs ==> Usable(v)
      case NewStr(s, id) => id !in heap
      case StoreTable(t, i, v) => t in heap && heap[t].Table? && i <= |heap[t].refs| && Usable(v)
      case StoreUpval(u, v) => u in heap && (heap[u].OpenUpval? || heap[u].ClosedUpval?) && Usable(v)
      case StoreObject(o, b, v) =>
        && o in heap && Usable(v) && SameKind(heap[o], b) && (b.Function? || b.Proto? || b.Udata? || b.ClosedUpval?)
        && forall r :: r in RefsOf(heap[o := b], o) ==> r in RefsOf(heap, o) || r == v
      case StoreStack(th, gt, stack, v) =>
        && th in heap && heap[th].Thread? && Usable(v) && (gt == v || gt == heap[th].gt)
        && (forall l :: 0 <= l < |stack| ==> stack[l] == v || (l < |heap[th].stack| && stack[l] == heap[th].stack[l]))
        && forall u :: u in heap[th].open && u in heap && heap[u].OpenUpval? ==> heap[u].level < |stack|
      case Capture(th, level, id) => Usable(To(th)) && heap[th].Thread? && level < |heap[th].stack| && id !in heap
      case Close(th, _) => th in heap && heap[th].Thread?
      case StoreMt(i, v) => i < |mt| && Usable(v)
      case Switch(th) => Usable(To(th)) && heap[th].Thread?
      case _ => true
    }

    /** One step of the collector or of the program; a step the program may not take is skipped. */
    method Perform(a: Action)
      requires Inv()
      modifies this
      ensures Inv() && Intact(old(Now()), a, Now())
      ensures if old(Enabled(a)) then Effect(old(heap), old(marked), old(currentwhite), a, heap) else heap == old(heap)
      ensures mt == if old(Enabled(a)) then MtAfter(old(mt), a) else old(mt)
      ensures running == if old(Enabled(a)) && a.Switch? then a.th else old(running)
    {
      hide GlobalState.Inv, GlobalState.Roots, Reachable, ReachableSurvives, Reduced, GlobalState.Enabled;
      ReachableHere();
      if a.CollectStep? || a.CollectAll? {
        CollectEnabled(a);
        Collect(a);
        StillThere(old(heap), Roots(), heap);
      } else if Enabled(a) {
        if a.New? || a.NewU? || a.NewStr? || a.StoreTable? || a.StoreUpval? {
          Mutate(a);
        } else {
          MutateThread(a);
        }
      }
    }

    lemma CollectEnabled(a: Action)
      requires a.CollectStep? || a.CollectAll?
      ensures Enabled(a)
    {
    }

    method Collect(a: Action)
      requires Inv() && (a.CollectStep? || a.CollectAll?)
      modifies this
      ensures Inv() && mt == old(mt) && running == old(running) && ReachableSurvives(old(heap), Roots(), heap) && Reduced(old(heap), heap)
    {
      hide GlobalState.Inv, GlobalState.Roots, ReachableSurvives, Reduced;
      if a.CollectStep? {
        SingleStep();
      } else {
        FullGc();
      }
    }

    method Mutate(a: Action)
      requires Inv() && Enabled(a) && (a.New? || a.NewU? || a.NewStr? || a.StoreTable? || a.StoreUpval?)
      modifies this
      ensures Inv() && forall x :: old(Reachable(heap, Roots(), x)) ==> x in heap
      ensures Effect(old(heap), old(marked), old(currentwhite), a, heap)
      ensures mt == old(mt) && running == old(running)
    {
      hide GlobalState.Inv, GlobalState.Roots, Reachable, ReachableSurvives, SameKind, Closed, AllLive, KeepsLive, SetAt;
      ReachableHere();
      match a {
        case New(id, b) => NewObject(id, b);
        case NewU(id, refs) => NewUdata(id, refs);
        case NewStr(s, id) => var _ := Intern(s, id);
        case StoreTable(t, i, v) => TableStore(t, i, v);
        case StoreUpval(u, v) => SetUpval(u, v);
      }
    }

    method MutateThread(a: Action)
      requires Inv() && Enabled(a) && (a.StoreObject? || a.StoreStack? || a.Capture? || a.Close? || a.StoreMt? || a.Switch?)
      modifies this
      ensures Inv() && forall x :: old(Reachable(heap, Roots(), x)) ==> x in heap
      ensures Effect(old(heap), old(marked), old(currentwhite), a, heap)
      ensures mt == MtAfter(old(mt), a) && running == if a.Switch? then a.th else old(running)
    {
      hide GlobalState.Inv, GlobalState.Roots, Reachable, ReachableSurvives, SameKind, Closed, AllLive, KeepsLive;
      ReachableHere();
      match a {
        case StoreObject(o, b, v) => ObjectStore(o, b, v);
        case StoreStack(th, gt, stack, v) => ThreadStore(th, gt, stack, v);
        case Capture(th, level, id) =>
          var _ := FindUpval(th, level, id);
          StillThere(old(heap), Roots(), heap);
        case Close(th, level) => CloseAll(th, level);
        case StoreMt(i, v) => SetMt(i, v);
        case Switch(th) => Resume(th);
      }
    }

    method CloseAll(th: Id, level: nat)
      requires Inv() && th in heap && heap[th].Thread?
      modifies this`heap, this`marked, this`gray, this`rootgc, this`sweepgc, this`uvhead
      ensures Effect(old(heap), old(marked), currentwhite, Close(th, level), heap)
      ensures Inv() && forall x :: old(Reachable(heap, Roots(), x)) ==> x in heap
    {
      hide UpvalsOk, LinksOk, StringsOk, Closed, AllLive, Marking, GlobalState.Roots, FixedOk, OpenGray, Settled, KeepsLive, Reachable, Shifted, OpenBelow, ClosedBut;
      ghost var h, c := heap, marked;
      CloseUpvals(th, level);
      ClosedSurvives(h, c, Roots());
    }

    ghost function Now(): Moment
      reads this
    {
      Moment(heap, Roots())
    }

    /** Every run, with the collector and the program interleaved in any way: whatever the program
        can reach at one moment is still there at the next, with the same contents if it was the
        collector that worked. */
    method Run(actions: seq<Action>) returns (ghost trace: seq<Moment>)
      requires Inv()
      modifies this
      ensures Inv() && |trace| == |actions| + 1 && trace[0] == old(Now()) && trace[|actions|] == Now()
      ensures forall i :: 0 <= i < |actions| ==> Intact(trace[i], actions[i], trace[i + 1])
    {
      hide GlobalState.Inv, GlobalState.Roots, Reachable, ReachableSurvives;
      trace := [Now()];
      for i := 0 to |actions|
        invariant Inv() && |trace| == i + 1 && trace[0] == old(Now()) && trace[i] == Now()
        invariant forall j :: 0 <= j < i ==> Intact(trace[j], actions[j], trace[j + 1])
      {
        Perform(actions[i]);
        trace := trace + [Now()];
      }
    }
  }
}
