/** What the two parts of a table hold together. */
module TableFacts {
  import opened Basics
  import opened NodeFacts
  import opened SizeFacts

  /** Keys of an array part of size `n`. */
  predicate InPart(k: Value, n: int) { k.Int? && 1 <= k.n <= n }

  ghost predicate KeysOk(nodes: seq<Node>, n: nat) {
    forall i :: Keyed(nodes, i) ==> nodes[i].key != NaN && !InPart(nodes[i].key, n)
  }

  /** All free nodes are below `lastfree`. */
  ghost predicate FreeOk(nodes: seq<Node>, lastfree: int) {
    forall i :: 0 <= i < |nodes| && !Keyed(nodes, i) ==> i < lastfree
  }

  ghost function ValueOf(arr: seq<Value>, nodes: seq<Node>, k: Value): Value {
    if InPart(k, |arr|) then arr[k.n - 1] else At(nodes, k)
  }

  /** The key has a place in the table, whatever its value is. */
  ghost predicate Field(n: int, nodes: seq<Node>, k: Value) { InPart(k, n) || !Absent(nodes, k) }

  lemma NoField(arr: seq<Value>, nodes: seq<Node>, k: Value)
    requires !Field(|arr|, nodes, k)
    ensures ValueOf(arr, nodes, k) == Nil
  {
  }

  function Least(m: nat, n: nat): nat { if m < n then m else n }

  /** The value of a field after stores, when it was `v` before. */
  ghost function AfterStores(v: Value, stores: seq<(Value, Value)>, k: Value): Value {
    if stores == [] then v
    else
      var last := stores[|stores| - 1];
      if last.0 == k then last.1 else AfterStores(v, stores[..|stores| - 1], k)
  }

  lemma AfterOne(v: Value, stores: seq<(Value, Value)>, i: nat, k: Value)
    requires i < |stores|
    ensures AfterStores(v, stores[..i + 1], k) == if stores[i].0 == k then stores[i].1 else AfterStores(v, stores[..i], k)
  {
    assert stores[..i + 1][..i] == stores[..i];
  }

  /** The same after several groups of stores. */
  ghost function AfterSteps(v: Value, stores: seq<seq<(Value, Value)>>, k: Value): Value {
    if stores == [] then v else AfterStores(AfterSteps(v, stores[..|stores| - 1], k), stores[|stores| - 1], k)
  }

  lemma AfterStep(v: Value, stores: seq<seq<(Value, Value)>>, i: nat, k: Value)
    requires i < |stores|
    ensures AfterSteps(v, stores[..i + 1], k) == AfterStores(AfterSteps(v, stores[..i], k), stores[i], k)
  {
    assert stores[..i + 1][..i] == stores[..i];
  }

  ghost function ArrayKeys(arr: seq<Value>, lo: int, hi: int): set<Value>
    requires 0 <= lo && hi <= |arr|
  {
    set i | lo <= i < hi && arr[i] != Nil :: Int(i + 1)
  }

  ghost function NodeKeys(nodes: seq<Node>, lo: int, hi: int): set<Value>
    requires 0 <= lo && hi <= |nodes|
  {
    set i | lo <= i < hi && nodes[i].val != Nil :: nodes[i].key
  }

  ghost function LiveKeys(arr: seq<Value>, nodes: seq<Node>): set<Value> {
    ArrayKeys(arr, 0, |arr|) + NodeKeys(nodes, 0, |nodes|)
  }

  lemma LiveIff(arr: seq<Value>, nodes: seq<Node>, o: Order, hash: Hash, k: Value)
    requires ChainsOk(nodes, o, hash) && KeysOk(nodes, |arr|)
    ensures k in LiveKeys(arr, nodes) <==> ValueOf(arr, nodes, k) != Nil
  {
    hide NextOk, PlaceOk, DistinctRanks;
    if InPart(k, |arr|) {
      assert arr[k.n - 1] != Nil ==> k in ArrayKeys(arr, 0, |arr|);
      assert k !in NodeKeys(nodes, 0, |nodes|) by {
        forall i | 0 <= i < |nodes| && nodes[i].val != Nil ensures nodes[i].key != k { assert Keyed(nodes, i); }
      }
    } else {
      assert k !in ArrayKeys(arr, 0, |arr|);
      if i :| Keyed(nodes, i) && nodes[i].key == k {
        AtNode(nodes, o, hash, i);
      }
      forall i | 0 <= i < |nodes| && nodes[i].val != Nil ensures Keyed(nodes, i) { }
    }
  }

  /** What goes to the hash part when the array part has size `n`. */
  ghost function Rest(keys: set<Value>, n: int): set<Value> { keys - InRange(keys, n) }

  lemma RestSize(keys: set<Value>, n: int)
    ensures |Rest(keys, n)| == |keys| - |InRange(keys, n)|
  {
    assert keys == Rest(keys, n) + InRange(keys, n);
  }

  /** Every node with a key has a value. */
  ghost predicate AllLive(nodes: seq<Node>) {
    forall i :: Keyed(nodes, i) ==> nodes[i].val != Nil
  }

  /** A key is added when no key is dead. */
  lemma AddedKeys(nodes: seq<Node>, nodes': seq<Node>, k: Value)
    requires Added(nodes, nodes', k) && AllLive(nodes)
    ensures KeySet(nodes', |nodes'|) == KeySet(nodes, |nodes|) + {k}
    ensures forall i :: Keyed(nodes', i) && nodes'[i].key != k ==> nodes'[i].val != Nil
  {
    hide Has;
    forall x | x in KeySet(nodes, |nodes|) + {k} ensures x in KeySet(nodes', |nodes'|) {
      if x != k {
        var j :| Keyed(nodes, j) && nodes[j].key == x;
        HasKey(nodes', x, nodes[j].val);
      } else {
        HasKey(nodes', k, Nil);
      }
    }
    forall i | Keyed(nodes', i) && nodes'[i].key != k ensures nodes'[i].val != Nil && nodes'[i].key in KeySet(nodes, |nodes|) {
      HasKey(nodes, nodes'[i].key, nodes'[i].val);
    }
  }

  lemma HasKey(nodes: seq<Node>, k: Value, v: Value)
    requires Has(nodes, k, v)
    ensures k in KeySet(nodes, |nodes|) && (AllLive(nodes) ==> v != Nil)
  {
  }

  // ---------------------------------------------------------------- steps of a search

  /** If `key` is in a node at all, it is at `n` or after it in its list. */
  ghost predicate Ahead(nodes: seq<Node>, o: Order, key: Value, n: int)
    requires |o.list| == |nodes| == |o.rank|
  {
    forall j :: Keyed(nodes, j) && nodes[j].key == key ==> j == n || Before(nodes, o, n, j)
  }

  lemma StartWalk(nodes: seq<Node>, o: Order, hash: Hash, key: Value)
    requires ChainsOk(nodes, o, hash) && key != Nil
    ensures Ahead(nodes, o, key, MainPosition(hash, |nodes|, key))
  {
    forall j | Keyed(nodes, j) && nodes[j].key == key
      ensures j == MainPosition(hash, |nodes|, key) || Before(nodes, o, MainPosition(hash, |nodes|, key), j)
    {
      assert PlaceOk(nodes, o, hash, j);
    }
  }

  lemma StepWalk(nodes: seq<Node>, o: Order, hash: Hash, size: nat, key: Value, n: int)
    requires ChainsOk(nodes, o, hash) && KeysOk(nodes, size) && key != Nil && 0 <= n < |nodes| && Ahead(nodes, o, key, n)
    requires nodes[n].key != key || key == NaN
    ensures nodes[n].next == -1 ==> Absent(nodes, key)
    ensures nodes[n].next != -1 ==>
      Keyed(nodes, nodes[n].next) && Ahead(nodes, o, key, nodes[n].next) && After(nodes, o, nodes[n].next) < After(nodes, o, n)
  {
    if nodes[n].key == Nil {
      assert nodes[n] == FREE;
    } else {
      assert Keyed(nodes, n);
      if nodes[n].next != -1 { AfterNext(nodes, o, hash, n); }
      forall j | Keyed(nodes, j) && nodes[j].key == key
        ensures nodes[n].next != -1 && (j == nodes[n].next || Before(nodes, o, nodes[n].next, j))
      {
        NextBefore(nodes, o, hash, n, j);
      }
    }
  }

  lemma StoredKeys(nodes: seq<Node>, i: nat, v: Value)
    requires Keyed(nodes, i)
    ensures var nodes' := nodes[i := nodes[i].(val := v)];
      KeySet(nodes', |nodes'|) == KeySet(nodes, |nodes|) && forall j :: Keyed(nodes', j) <==> Keyed(nodes, j)
  {
    var nodes' := nodes[i := nodes[i].(val := v)];
    assert forall j :: (Keyed(nodes', j) <==> Keyed(nodes, j)) && (Keyed(nodes, j) ==> nodes'[j].key == nodes[j].key);
  }

  /** What every way to insert a key has in common. */
  lemma Insertion(arr: seq<Value>, nodes: seq<Node>, o: Order, nodes': seq<Node>, o': Order, hash: Hash, k: Value)
    requires ChainsOk(nodes, o, hash) && ChainsOk(nodes', o', hash) && Added(nodes, nodes', k) && Absent(nodes, k)
    requires KeysOk(nodes, |arr|) && k != NaN && !InPart(k, |arr|)
    ensures KeysOk(nodes', |arr|)
    ensures forall x :: ValueOf(arr, nodes', x) == ValueOf(arr, nodes, x)
    ensures AllLive(nodes) ==> KeySet(nodes', |nodes'|) == KeySet(nodes, |nodes|) + {k}
    ensures AllLive(nodes) ==> forall i :: Keyed(nodes', i) && nodes'[i].key != k ==> nodes'[i].val != Nil
  {
    hide ChainsOk, At, Absent, AllLive, KeySet;
    forall x ensures At(nodes', x) == At(nodes, x) { AddedValues(nodes, o, nodes', o', hash, k, x); }
    if AllLive(nodes) { AddedKeys(nodes, nodes', k); }
  }

  lemma MoveFacts(arr: seq<Value>, nodes: seq<Node>, o: Order, hash: Hash, prev: nat, mp: nat, n: nat, k: Value)
    requires CanMove(nodes, o, hash, prev, mp, n, k) && KeysOk(nodes, |arr|) && k != NaN && !InPart(k, |arr|)
    ensures prev < |nodes| && mp < |nodes| && n < |nodes| == |o.list| == |o.rank|
    ensures var nodes', o' := Moved(nodes, prev, mp, n, k), MovedOrder(o, mp, n);
      && |nodes'| == |nodes| && ChainsOk(nodes', o', hash) && KeysOk(nodes', |arr|) && nodes'[mp] == Node(k, Nil, -1) && k != Nil
      && (forall i :: !Keyed(nodes', i) ==> !Keyed(nodes, i) && i != n)
      && (forall x :: ValueOf(arr, nodes', x) == ValueOf(arr, nodes, x))
      && (AllLive(nodes) ==> KeySet(nodes', |nodes'|) == KeySet(nodes, |nodes|) + {k})
      && (AllLive(nodes) ==> forall i :: Keyed(nodes', i) && nodes'[i].key != k ==> nodes'[i].val != Nil)
    ensures prev != n && prev != mp && n != mp
  {
    hide NextOk, PlaceOk, DistinctKeys, DistinctRanks, At, Added, AllLive, KeySet, KeysOk;
    assert prev != mp by { NotOwnNext(nodes, o, hash, mp); }
    MovedChains(nodes, o, hash, prev, mp, n, k);
    MovedAdds(nodes, prev, mp, n, k);
    Insertion(arr, nodes, o, Moved(nodes, prev, mp, n, k), MovedOrder(o, mp, n), hash, k);
  }

  lemma NotOwnNext(nodes: seq<Node>, o: Order, hash: Hash, i: nat)
    requires ChainsOk(nodes, o, hash) && Keyed(nodes, i)
    ensures nodes[i].next != i
  {
    assert NextOk(nodes, o, i);
  }

  lemma MainInside(nodes: seq<Node>, o: Order, hash: Hash, k: Value)
    requires ChainsOk(nodes, o, hash)
    ensures |nodes| > 0
  {
  }

  lemma KeyFacts(nodes: seq<Node>, o: Order, hash: Hash, n: nat, k: Value)
    requires ChainsOk(nodes, o, hash) && KeysOk(nodes, n)
    ensures |nodes| > 0 && Absent(nodes, Nil) && Absent(nodes, NaN)
  {
  }

  lemma NotAbsent(nodes: seq<Node>, i: int)
    requires Keyed(nodes, i)
    ensures !Absent(nodes, nodes[i].key)
  {
  }

  // ---------------------------------------------------------------- resizing

  /** The keys `todo` are still to be put into the resized table; the others are in it. */
  ghost predicate Moving(a0: seq<Value>, n0: seq<Node>, arr: seq<Value>, nodes: seq<Node>, todo: set<Value>, nasize: nat) {
    && |arr| == nasize && AllLive(nodes) && todo <= LiveKeys(a0, n0)
    && (forall x :: ValueOf(arr, nodes, x) == if x in todo then Nil else ValueOf(a0, n0, x))
    && KeySet(nodes, |nodes|) == Rest(LiveKeys(a0, n0), nasize) - todo
  }

  lemma EmptyKeys(nodes: seq<Node>, n: nat)
    requires forall i :: 0 <= i < |nodes| ==> nodes[i] == FREE
    ensures KeysOk(nodes, n)
  {
  }

  lemma MovingStart(a0: seq<Value>, n0: seq<Node>, o0: Order, hash: Hash, wide: seq<Value>, arr: seq<Value>, nodes: seq<Node>, nasize: nat)
    requires ChainsOk(n0, o0, hash) && KeysOk(n0, |a0|)
    requires |wide| >= |a0| && wide == a0 + seq(|wide| - |a0|, _ => Nil) && |wide| == (if nasize > |a0| then nasize else |a0|)
    requires arr == wide[..nasize] && (forall x :: At(nodes, x) == Nil) && KeySet(nodes, |nodes|) == {} && AllLive(nodes)
    ensures Moving(a0, n0, arr, nodes, (if nasize < |a0| then ArrayKeys(a0, nasize, |a0|) else {}) + NodeKeys(n0, 0, |n0|), nasize)
  {
    hide ChainsOk, KeysOk, At, KeySet, AllLive;
    var todo := (if nasize < |a0| then ArrayKeys(a0, nasize, |a0|) else {}) + NodeKeys(n0, 0, |n0|);
    forall x ensures ValueOf(arr, nodes, x) == if x in todo then Nil else ValueOf(a0, n0, x) {
      LiveIff(a0, n0, o0, hash, x);
      StartKey(a0, n0, o0, hash, x);
    }
    forall x | x in Rest(LiveKeys(a0, n0), nasize) ensures x in todo {
      if x in ArrayKeys(a0, 0, |a0|) { assert x in ArrayKeys(a0, nasize, |a0|); }
    }
  }

  lemma StartKey(a0: seq<Value>, n0: seq<Node>, o0: Order, hash: Hash, x: Value)
    requires ChainsOk(n0, o0, hash) && KeysOk(n0, |a0|)
    ensures InPart(x, |a0|) ==> x !in NodeKeys(n0, 0, |n0|)
    ensures !InPart(x, |a0|) ==> (x in NodeKeys(n0, 0, |n0|) <==> At(n0, x) != Nil)
  {
    hide NextOk, PlaceOk, DistinctRanks;
    forall i | 0 <= i < |n0| && n0[i].val != Nil && n0[i].key == x ensures !InPart(x, |a0|) && At(n0, x) != Nil {
      assert Keyed(n0, i);
      AtNode(n0, o0, hash, i);
    }
  }

  lemma MovingStep(a0: seq<Value>, n0: seq<Node>, a1: seq<Value>, n1: seq<Node>, arr: seq<Value>, nodes: seq<Node>,
      todo: set<Value>, nasize: nat, k: Value, v: Value)
    requires Moving(a0, n0, a1, n1, todo, nasize) && k in todo && v == ValueOf(a0, n0, k) && |arr| == |a1| && AllLive(nodes)
    requires forall x :: ValueOf(arr, nodes, x) == if x == k then v else ValueOf(a1, n1, x)
    requires KeySet(nodes, |nodes|) == KeySet(n1, |n1|) + if InPart(k, |arr|) then {} else {k}
    ensures Moving(a0, n0, arr, nodes, todo - {k}, nasize)
  {
    hide ValueOf, KeySet, AllLive, LiveKeys;
  }

  /** There is always room for what is still to be put into the table. */
  lemma MovingRoom(a0: seq<Value>, n0: seq<Node>, arr: seq<Value>, nodes: seq<Node>, o: Order, hash: Hash,
      todo: set<Value>, nasize: nat, nhsize: nat, k: Value)
    requires Moving(a0, n0, arr, nodes, todo, nasize) && ChainsOk(nodes, o, hash) && k in todo
    requires |Rest(LiveKeys(a0, n0), nasize)| <= nhsize <= |nodes|
    ensures AllLive(nodes)
    ensures !InPart(k, |arr|) ==> Absent(nodes, k) && nhsize > 0 && exists i :: 0 <= i < |nodes| && !Keyed(nodes, i)
  {
    hide ValueOf, AllLive, LiveKeys, ChainsOk;
    if !InPart(k, |arr|) {
      var rest := Rest(LiveKeys(a0, n0), nasize);
      SubsetSizeStrict(KeySet(nodes, |nodes|), rest, k);
      NotFull(nodes, o, hash);
      forall i | Keyed(nodes, i) ensures nodes[i].key != k { assert nodes[i].key in KeySet(nodes, |nodes|); }
    }
  }

  lemma MovingDone(a0: seq<Value>, n0: seq<Node>, arr: seq<Value>, nodes: seq<Node>, nasize: nat)
    requires Moving(a0, n0, arr, nodes, NodeKeys(n0, 0, 0), nasize)
    ensures |arr| == nasize && (forall x :: ValueOf(arr, nodes, x) == ValueOf(a0, n0, x)) && AllLive(nodes)
    ensures KeySet(nodes, |nodes|) == Rest(LiveKeys(a0, n0), nasize)
  {
    hide ValueOf, AllLive, LiveKeys, KeySet;
    assert NodeKeys(n0, 0, 0) == {};
  }

  lemma NextArrayKey(a0: seq<Value>, n0: seq<Node>, o0: Order, hash: Hash, i: nat)
    requires ChainsOk(n0, o0, hash) && KeysOk(n0, |a0|) && i < |a0|
    ensures a0[i] == Nil ==> ArrayKeys(a0, i, |a0|) == ArrayKeys(a0, i + 1, |a0|)
    ensures var todo := ArrayKeys(a0, i, |a0|) + NodeKeys(n0, 0, |n0|);
      a0[i] != Nil ==> (
        && Int(i + 1) in todo && ValueOf(a0, n0, Int(i + 1)) == a0[i]
        && todo - {Int(i + 1)} == ArrayKeys(a0, i + 1, |a0|) + NodeKeys(n0, 0, |n0|))
  {
    StartKey(a0, n0, o0, hash, Int(i + 1));
    hide ChainsOk, KeysOk, NodeKeys;
    if a0[i] != Nil {
      assert ArrayKeys(a0, i, |a0|) == ArrayKeys(a0, i + 1, |a0|) + {Int(i + 1)};
    }
  }

  lemma NoArrayKeys(a0: seq<Value>, n0: seq<Node>)
    ensures ArrayKeys(a0, |a0|, |a0|) + NodeKeys(n0, 0, |n0|) == NodeKeys(n0, 0, |n0|)
  {
    assert ArrayKeys(a0, |a0|, |a0|) == {};
  }

  lemma NextNodeKey(a0: seq<Value>, n0: seq<Node>, o0: Order, hash: Hash, i: nat)
    requires ChainsOk(n0, o0, hash) && KeysOk(n0, |a0|) && i < |n0|
    ensures n0[i].val == Nil ==> NodeKeys(n0, 0, i + 1) == NodeKeys(n0, 0, i)
    ensures n0[i].val != Nil ==> (
      && n0[i].key != Nil && n0[i].key != NaN && n0[i].key in NodeKeys(n0, 0, i + 1)
      && ValueOf(a0, n0, n0[i].key) == n0[i].val && NodeKeys(n0, 0, i + 1) - {n0[i].key} == NodeKeys(n0, 0, i))
  {
    hide NextOk, PlaceOk, DistinctRanks;
    if n0[i].val != Nil {
      assert Keyed(n0, i);
      AtNode(n0, o0, hash, i);
      forall j | 0 <= j < i && n0[j].val != Nil ensures n0[j].key != n0[i].key { assert Keyed(n0, j); }
    }
  }

  // ---------------------------------------------------------------- counting

  /** The keys of the array part up to `i`, and how many of them there are. */
  lemma ArrayKeyNext(arr: seq<Value>, i: nat)
    requires i < |arr| <= MAXASIZE
    ensures arr[i] == Nil ==> ArrayKeys(arr, 0, i + 1) == ArrayKeys(arr, 0, i)
    ensures arr[i] != Nil ==> ArrayKeys(arr, 0, i + 1) == ArrayKeys(arr, 0, i) + {Int(i + 1)}
    ensures Int(i + 1) !in ArrayKeys(arr, 0, i)
  {
  }

  lemma ArrayCandidates(arr: seq<Value>)
    requires |arr| <= MAXASIZE
    ensures InRange(ArrayKeys(arr, 0, |arr|), MAXASIZE) == ArrayKeys(arr, 0, |arr|)
  {
  }

  /** Going down the nodes adds keys that were not counted before. */
  lemma NodeKeyNext(arr: seq<Value>, nodes: seq<Node>, o: Order, hash: Hash, i: nat)
    requires ChainsOk(nodes, o, hash) && KeysOk(nodes, |arr|) && i < |nodes|
    ensures var seen := ArrayKeys(arr, 0, |arr|) + NodeKeys(nodes, i + 1, |nodes|);
      && (nodes[i].val == Nil ==> ArrayKeys(arr, 0, |arr|) + NodeKeys(nodes, i, |nodes|) == seen)
      && (nodes[i].val != Nil ==> ArrayKeys(arr, 0, |arr|) + NodeKeys(nodes, i, |nodes|) == seen + {nodes[i].key} && nodes[i].key !in seen)
  {
    hide NextOk, PlaceOk, DistinctRanks;
    if nodes[i].val != Nil {
      assert Keyed(nodes, i);
      forall j | i < j < |nodes| && nodes[j].val != Nil ensures nodes[j].key != nodes[i].key { assert Keyed(nodes, j); }
    }
  }

  lemma NewKeyDead(arr: seq<Value>, nodes: seq<Node>, o: Order, hash: Hash, k: Value)
    requires ChainsOk(nodes, o, hash) && KeysOk(nodes, |arr|) && !InPart(k, |arr|) && Absent(nodes, k)
    ensures k !in LiveKeys(arr, nodes)
  {
    hide NextOk, PlaceOk, DistinctRanks;
    LiveIff(arr, nodes, o, hash, k);
  }

  /** The new hash part has a node for every key that stays out of the array part, and for the new key. */
  lemma RestFits(live: set<Value>, k: Value, n: int)
    requires k !in live
    ensures |Rest(live, n)| <= |live + {k}| - |InRange(live + {k}, n)|
    ensures !InPart(k, n) ==> |Rest(live, n)| < |live + {k}| - |InRange(live + {k}, n)|
  {
    var keys := live + {k};
    RestSize(keys, n);
    assert Rest(live, n) <= Rest(keys, n);
    SubsetSize(Rest(live, n), Rest(keys, n));
    if !InPart(k, n) { SubsetSizeStrict(Rest(live, n), Rest(keys, n), k); }
  }

  lemma RoomLeft(nodes: seq<Node>, o: Order, hash: Hash, live: set<Value>, n: int, k: Value)
    requires ChainsOk(nodes, o, hash) && KeySet(nodes, |nodes|) == Rest(live, n) && |Rest(live, n)| < |nodes| && k !in live
    ensures Absent(nodes, k) && exists i :: 0 <= i < |nodes| && !Keyed(nodes, i)
  {
    hide ChainsOk;
    NotFull(nodes, o, hash);
    forall i | Keyed(nodes, i) ensures nodes[i].key != k { assert nodes[i].key in KeySet(nodes, |nodes|); }
  }

  lemma NoKeysYet(arr: seq<Value>)
    ensures ArrayKeys(arr, 0, 0) == {}
  {
  }

  lemma NoNodesYet(arr: seq<Value>, nodes: seq<Node>)
    ensures ArrayKeys(arr, 0, |arr|) + NodeKeys(nodes, |nodes|, |nodes|) == ArrayKeys(arr, 0, |arr|)
  {
  }

  lemma SliceIndex(i: nat, lg: nat, i0: nat)
    requires i0 <= i <= Pow2(lg) && i0 == (if lg == 0 then 1 else Pow2(lg - 1) + 1) && lg <= MAXBITS
    ensures CeilLog2(i) == lg && Candidate(Int(i))
  {
    hide CeilLog2;
    MaxSize();
    Pow2Mono(lg, MAXBITS);
    CeilLog2Below(i, lg);
    if lg > 0 { CeilLog2Below(i, lg - 1); }
  }

  lemma {:induction false} NodeKeysSize(nodes: seq<Node>, n: nat)
    requires n <= |nodes|
    ensures |NodeKeys(nodes, 0, n)| <= n
  {
    if n == 0 {
      assert NodeKeys(nodes, 0, 0) == {};
    } else {
      NodeKeysSize(nodes, n - 1);
      assert NodeKeys(nodes, 0, n) <= NodeKeys(nodes, 0, n - 1) + {nodes[n - 1].key};
      SubsetSize(NodeKeys(nodes, 0, n), NodeKeys(nodes, 0, n - 1) + {nodes[n - 1].key});
    }
  }

  /** With an array part that does not shrink, the old nodes are enough. */
  lemma RestInNodes(arr: seq<Value>, nodes: seq<Node>, n: nat)
    requires |arr| <= n
    ensures |Rest(LiveKeys(arr, nodes), n)| <= |nodes|
    ensures nodes == [FREE] ==> |Rest(LiveKeys(arr, nodes), n)| == 0
  {
    assert Rest(LiveKeys(arr, nodes), n) <= NodeKeys(nodes, 0, |nodes|);
    SubsetSize(Rest(LiveKeys(arr, nodes), n), NodeKeys(nodes, 0, |nodes|));
    NodeKeysSize(nodes, |nodes|);
    if nodes == [FREE] { assert NodeKeys(nodes, 0, |nodes|) == {}; }
  }
}
