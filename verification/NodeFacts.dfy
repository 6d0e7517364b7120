/** The hash part of a table: a chained scatter table with Brent's variation. */
module NodeFacts {

  /** Keys and values. Numbers are integers or NaN; everything else is its identity. */
  datatype Value = Nil | NaN | Int(n: int) | Other(id: nat)

  /** A node; `next` is an index, or -1 at the end of a chain. */
  datatype Node = Node(key: Value, val: Value, next: int)

  const FREE := Node(Nil, Nil, -1)

  type Hash = (Value, nat) -> nat

  /** mainposition */
  function MainPosition(hash: Hash, size: nat, k: Value): (m: nat)
    requires size > 0
    ensures m < size
  {
    hash(k, size) % size
  }

  predicate Keyed(nodes: seq<Node>, i: int) { 0 <= i < |nodes| && nodes[i].key != Nil }

  /** Every list of chained nodes has a number, and `rank` orders the nodes of a list. */
  datatype Order = Order(list: seq<int>, rank: seq<real>, lists: int)

  ghost predicate Before(nodes: seq<Node>, o: Order, i: int, j: int)
    requires |o.list| == |nodes| == |o.rank|
  {
    Keyed(nodes, i) && Keyed(nodes, j) && o.list[i] == o.list[j] && o.rank[i] < o.rank[j]
  }

  /** `next` goes to the node that comes right after in the list; so lists are acyclic, and no
      two nodes have the same successor. */
  ghost predicate NextOk(nodes: seq<Node>, o: Order, i: int)
    requires |o.list| == |nodes| == |o.rank| && Keyed(nodes, i)
  {
    var n := nodes[i].next;
    if n == -1 then forall j :: !Before(nodes, o, i, j)
    else Before(nodes, o, i, n) && forall j :: Before(nodes, o, i, j) ==> o.rank[n] <= o.rank[j]
  }

  /** An element is in the list of its main position, not before it; and if it is not in its
      main position, the element there is in its own. */
  ghost predicate PlaceOk(nodes: seq<Node>, o: Order, hash: Hash, i: int)
    requires |o.list| == |nodes| == |o.rank| && Keyed(nodes, i)
  {
    var m := MainPosition(hash, |nodes|, nodes[i].key);
    m == i || (Before(nodes, o, m, i) && MainPosition(hash, |nodes|, nodes[m].key) == m)
  }

  ghost predicate DistinctKeys(nodes: seq<Node>) {
    forall i, j {:trigger Keyed(nodes, i), Keyed(nodes, j)} :: Keyed(nodes, i) && Keyed(nodes, j) && i != j ==> nodes[i].key != nodes[j].key
  }

  ghost predicate DistinctRanks(nodes: seq<Node>, o: Order)
    requires |o.list| == |nodes| == |o.rank|
  {
    forall i, j {:trigger Keyed(nodes, i), Keyed(nodes, j)} :: Keyed(nodes, i) && Keyed(nodes, j) && i != j && o.list[i] == o.list[j] ==> o.rank[i] != o.rank[j]
  }

  ghost predicate ChainsOk(nodes: seq<Node>, o: Order, hash: Hash) {
    && |nodes| > 0 && |o.list| == |nodes| == |o.rank|
    && (forall i {:trigger Keyed(nodes, i)} :: Keyed(nodes, i) ==> NextOk(nodes, o, i) && PlaceOk(nodes, o, hash, i) && o.list[i] < o.lists)
    && DistinctKeys(nodes) && DistinctRanks(nodes, o)
    && (forall i :: 0 <= i < |nodes| ==> Keyed(nodes, i) || nodes[i] == FREE)
  }

  /** The value of a key: that of the node that has it. */
  ghost function At(nodes: seq<Node>, k: Value): (v: Value) {
    if exists i :: Keyed(nodes, i) && nodes[i].key == k then
      var i :| Keyed(nodes, i) && nodes[i].key == k; nodes[i].val
    else Nil
  }

  lemma AtNode(nodes: seq<Node>, o: Order, hash: Hash, i: int)
    requires ChainsOk(nodes, o, hash) && Keyed(nodes, i)
    ensures At(nodes, nodes[i].key) == nodes[i].val
  {
  }

  /** The keys of the nodes before `n`. */
  ghost function KeySet(nodes: seq<Node>, n: nat): set<Value>
    requires n <= |nodes|
  {
    set i | 0 <= i < n && Keyed(nodes, i) :: nodes[i].key
  }

  // ---------------------------------------------------------------- walking a chain

  /** Nodes that come after `i` in its list. */
  ghost function After(nodes: seq<Node>, o: Order, i: int): set<int>
    requires |o.list| == |nodes| == |o.rank|
  {
    set j | 0 <= j < |nodes| && Before(nodes, o, i, j)
  }

  lemma AfterNext(nodes: seq<Node>, o: Order, hash: Hash, i: int)
    requires ChainsOk(nodes, o, hash) && Keyed(nodes, i) && nodes[i].next != -1
    ensures Keyed(nodes, nodes[i].next) && After(nodes, o, nodes[i].next) < After(nodes, o, i)
  {
    var n := nodes[i].next;
    assert NextOk(nodes, o, i);
    assert n in After(nodes, o, i) && n !in After(nodes, o, n);
  }

  /** From a node before `j` the next one is not past `j`. */
  lemma NextBefore(nodes: seq<Node>, o: Order, hash: Hash, i: int, j: int)
    requires ChainsOk(nodes, o, hash) && Before(nodes, o, i, j)
    ensures nodes[i].next != -1 && (nodes[i].next == j || Before(nodes, o, nodes[i].next, j))
  {
    assert NextOk(nodes, o, i);
  }

  /** Only one node leads to `j`. */
  lemma OnePredecessor(nodes: seq<Node>, o: Order, hash: Hash, i: int, j: int)
    requires ChainsOk(nodes, o, hash) && Keyed(nodes, i) && Keyed(nodes, j) && nodes[i].next == nodes[j].next != -1
    ensures i == j
  {
    assert NextOk(nodes, o, i) && NextOk(nodes, o, j);
  }

  // ---------------------------------------------------------------- inserting a key

  ghost predicate Absent(nodes: seq<Node>, k: Value) { forall i :: Keyed(nodes, i) ==> nodes[i].key != k }

  /** The key goes to a main position that holds no value. */
  function Placed(nodes: seq<Node>, mp: nat, k: Value): seq<Node>
    requires mp < |nodes|
  {
    nodes[mp := Node(k, Nil, nodes[mp].next)]
  }

  ghost function PlacedOrder(nodes: seq<Node>, o: Order, mp: nat): Order
    requires mp < |nodes| == |o.list|
  {
    if nodes[mp].key == Nil then Order(o.list[mp := o.lists], o.rank, o.lists + 1) else o
  }

  lemma PlacedNext(nodes: seq<Node>, o: Order, hash: Hash, mp: nat, k: Value, i: int)
    requires ChainsOk(nodes, o, hash) && mp < |nodes| && k != Nil && Keyed(Placed(nodes, mp, k), i)
    ensures NextOk(Placed(nodes, mp, k), PlacedOrder(nodes, o, mp), i)
  {
    var nodes', o' := Placed(nodes, mp, k), PlacedOrder(nodes, o, mp);
    if Keyed(nodes, i) { assert NextOk(nodes, o, i); }
    forall j | Before(nodes', o', i, j) ensures Keyed(nodes, i) && Keyed(nodes, j) && Before(nodes, o, i, j) { }
    if Keyed(nodes, i) {
      forall j | Before(nodes, o, i, j) ensures Before(nodes', o', i, j) { }
    }
  }

  lemma PlacedPlace(nodes: seq<Node>, o: Order, hash: Hash, mp: nat, k: Value, i: int)
    requires ChainsOk(nodes, o, hash) && mp < |nodes| && k != Nil && Keyed(Placed(nodes, mp, k), i)
    requires mp == MainPosition(hash, |nodes|, k)
    ensures PlaceOk(Placed(nodes, mp, k), PlacedOrder(nodes, o, mp), hash, i)
  {
    if i != mp {
      assert Keyed(nodes, i);
      assert PlaceOk(nodes, o, hash, i);
    }
  }

  lemma PlacedChains(nodes: seq<Node>, o: Order, hash: Hash, mp: nat, k: Value)
    requires ChainsOk(nodes, o, hash) && mp == MainPosition(hash, |nodes|, k) && k != Nil && nodes[mp].val == Nil && Absent(nodes, k)
    ensures ChainsOk(Placed(nodes, mp, k), PlacedOrder(nodes, o, mp), hash)
  {
    hide NextOk, PlaceOk;
    var nodes', o' := Placed(nodes, mp, k), PlacedOrder(nodes, o, mp);
    forall i | Keyed(nodes', i) ensures NextOk(nodes', o', i) && PlaceOk(nodes', o', hash, i) && o'.list[i] < o'.lists {
      PlacedNext(nodes, o, hash, mp, k, i);
      PlacedPlace(nodes, o, hash, mp, k, i);
      assert i != mp ==> Keyed(nodes, i);
    }
  }

  /** The colliding node, out of its main position, moves to the free position `n`; the key takes its place. */
  function Moved(nodes: seq<Node>, prev: nat, mp: nat, n: nat, k: Value): seq<Node>
    requires prev < |nodes| && mp < |nodes| && n < |nodes|
  {
    var a := nodes[prev := nodes[prev].(next := n)];
    a[n := a[mp]][mp := Node(k, Nil, -1)]
  }

  ghost function MovedOrder(o: Order, mp: nat, n: nat): Order
    requires mp < |o.list| == |o.rank| && n < |o.list|
  {
    Order(o.list[n := o.list[mp]][mp := o.lists], o.rank[n := o.rank[mp]], o.lists + 1)
  }

  ghost predicate CanMove(nodes: seq<Node>, o: Order, hash: Hash, prev: nat, mp: nat, n: nat, k: Value) {
    && ChainsOk(nodes, o, hash) && k != Nil && Absent(nodes, k) && mp == MainPosition(hash, |nodes|, k)
    && Keyed(nodes, mp) && MainPosition(hash, |nodes|, nodes[mp].key) != mp
    && Keyed(nodes, prev) && nodes[prev].next == mp && n < |nodes| && nodes[n] == FREE
  }

  /** How the order of the nodes after the move relates to the order before: `n` stands for `mp`. */
  lemma MovedBefore(nodes: seq<Node>, o: Order, hash: Hash, prev: nat, mp: nat, n: nat, k: Value, i: int, j: int)
    requires CanMove(nodes, o, hash, prev, mp, n, k)
    ensures Before(Moved(nodes, prev, mp, n, k), MovedOrder(o, mp, n), i, j)
      <==> i != mp && j != mp && Before(nodes, o, if i == n then mp else i, if j == n then mp else j)
  {
  }

  lemma MovedNext(nodes: seq<Node>, o: Order, hash: Hash, prev: nat, mp: nat, n: nat, k: Value, i: int)
    requires CanMove(nodes, o, hash, prev, mp, n, k) && Keyed(Moved(nodes, prev, mp, n, k), i)
    ensures NextOk(Moved(nodes, prev, mp, n, k), MovedOrder(o, mp, n), i)
  {
    var nodes', o' := Moved(nodes, prev, mp, n, k), MovedOrder(o, mp, n);
    forall a, b ensures Before(nodes', o', a, b) <==> a != mp && b != mp && Before(nodes, o, if a == n then mp else a, if b == n then mp else b) {
      MovedBefore(nodes, o, hash, prev, mp, n, k, a, b);
    }
    if i != mp {
      var i0 := if i == n then mp else i;
      assert Keyed(nodes, i0) && NextOk(nodes, o, i0) && NextOk(nodes, o, prev);
      if i0 != prev && nodes[i0].next == mp { OnePredecessor(nodes, o, hash, i0, prev); }
    }
  }

  lemma MovedPlace(nodes: seq<Node>, o: Order, hash: Hash, prev: nat, mp: nat, n: nat, k: Value, i: int)
    requires CanMove(nodes, o, hash, prev, mp, n, k) && Keyed(Moved(nodes, prev, mp, n, k), i)
    ensures PlaceOk(Moved(nodes, prev, mp, n, k), MovedOrder(o, mp, n), hash, i)
  {
    if i != mp {
      var i0 := if i == n then mp else i;
      assert Keyed(nodes, i0) && PlaceOk(nodes, o, hash, i0);
      var m := MainPosition(hash, |nodes|, nodes[i0].key);
      MovedBefore(nodes, o, hash, prev, mp, n, k, m, i);
    }
  }

  lemma MovedChains(nodes: seq<Node>, o: Order, hash: Hash, prev: nat, mp: nat, n: nat, k: Value)
    requires CanMove(nodes, o, hash, prev, mp, n, k)
    ensures ChainsOk(Moved(nodes, prev, mp, n, k), MovedOrder(o, mp, n), hash)
  {
    hide NextOk, PlaceOk, Before;
    var nodes', o' := Moved(nodes, prev, mp, n, k), MovedOrder(o, mp, n);
    assert forall i :: Keyed(nodes', i) ==> i == mp || Keyed(nodes, if i == n then mp else i);
    forall i | Keyed(nodes', i) ensures NextOk(nodes', o', i) && PlaceOk(nodes', o', hash, i) && o'.list[i] < o'.lists {
      MovedNext(nodes, o, hash, prev, mp, n, k, i);
      MovedPlace(nodes, o, hash, prev, mp, n, k, i);
    }
  }

  /** The colliding node is in its main position: the key goes to the free position `n`, next in its chain. */
  function Chained(nodes: seq<Node>, mp: nat, n: nat, k: Value): seq<Node>
    requires mp < |nodes| && n < |nodes|
  {
    var a := nodes[n := Node(k, Nil, nodes[mp].next)];
    a[mp := a[mp].(next := n)]
  }

  ghost function ChainedOrder(nodes: seq<Node>, o: Order, mp: nat, n: nat): Order
    requires mp < |nodes| == |o.list| == |o.rank| && n < |nodes|
  {
    var next := nodes[mp].next;
    var r := if 0 <= next < |nodes| then (o.rank[mp] + o.rank[next]) / 2.0 else o.rank[mp] + 1.0;
    Order(o.list[n := o.list[mp]], o.rank[n := r], o.lists)
  }

  ghost predicate CanChain(nodes: seq<Node>, o: Order, hash: Hash, mp: nat, n: nat, k: Value) {
    && ChainsOk(nodes, o, hash) && k != Nil && Absent(nodes, k) && mp == MainPosition(hash, |nodes|, k)
    && Keyed(nodes, mp) && MainPosition(hash, |nodes|, nodes[mp].key) == mp && n < |nodes| && nodes[n] == FREE
  }

  /** `n` comes right after `mp`. */
  lemma ChainedBefore(nodes: seq<Node>, o: Order, hash: Hash, mp: nat, n: nat, k: Value, i: int, j: int)
    requires CanChain(nodes, o, hash, mp, n, k)
    ensures var b := Before(Chained(nodes, mp, n, k), ChainedOrder(nodes, o, mp, n), i, j);
      && (i != n && j != n ==> (b <==> Before(nodes, o, i, j)))
      && (i == n && j != n ==> (b <==> Before(nodes, o, mp, j)))
      && (i != n && j == n ==> (b <==> i == mp || Before(nodes, o, i, mp)))
      && (i == n && j == n ==> !b)
  {
    assert NextOk(nodes, o, mp);
    if Keyed(nodes, j) && o.list[j] == o.list[mp] && j != mp && !Before(nodes, o, mp, j) { assert Before(nodes, o, j, mp); }
    if Keyed(nodes, i) && o.list[i] == o.list[mp] && i != mp && !Before(nodes, o, i, mp) { assert Before(nodes, o, mp, i); }
  }

  lemma ChainedNext(nodes: seq<Node>, o: Order, hash: Hash, mp: nat, n: nat, k: Value, i: int)
    requires CanChain(nodes, o, hash, mp, n, k) && Keyed(Chained(nodes, mp, n, k), i)
    ensures NextOk(Chained(nodes, mp, n, k), ChainedOrder(nodes, o, mp, n), i)
  {
    var nodes', o' := Chained(nodes, mp, n, k), ChainedOrder(nodes, o, mp, n);
    var i0 := if i == n then mp else i;
    assert Keyed(nodes, i0) && NextOk(nodes, o, i0) && NextOk(nodes, o, mp);
    forall j ensures
        var b := Before(nodes', o', i, j);
        && (i != n && j != n ==> (b <==> Before(nodes, o, i, j))) && (i == n && j != n ==> (b <==> Before(nodes, o, mp, j)))
        && (i != n && j == n ==> (b <==> i == mp || Before(nodes, o, i, mp))) && (i == n && j == n ==> !b)
    {
      ChainedBefore(nodes, o, hash, mp, n, k, i, j);
    }
  }

  lemma ChainedPlace(nodes: seq<Node>, o: Order, hash: Hash, mp: nat, n: nat, k: Value, i: int)
    requires CanChain(nodes, o, hash, mp, n, k) && Keyed(Chained(nodes, mp, n, k), i)
    ensures PlaceOk(Chained(nodes, mp, n, k), ChainedOrder(nodes, o, mp, n), hash, i)
  {
    if i == n {
      ChainedBefore(nodes, o, hash, mp, n, k, mp, n);
    } else {
      assert Keyed(nodes, i) && PlaceOk(nodes, o, hash, i);
      ChainedBefore(nodes, o, hash, mp, n, k, MainPosition(hash, |nodes|, nodes[i].key), i);
    }
  }

  lemma ChainedRanks(nodes: seq<Node>, o: Order, hash: Hash, mp: nat, n: nat, k: Value, i: int)
    requires CanChain(nodes, o, hash, mp, n, k) && Keyed(nodes, i) && o.list[i] == o.list[mp]
    ensures ChainedOrder(nodes, o, mp, n).rank[i] != ChainedOrder(nodes, o, mp, n).rank[n]
  {
    assert NextOk(nodes, o, mp);
    if i != mp && !Before(nodes, o, mp, i) { assert Before(nodes, o, i, mp); }
  }

  lemma ChainedChains(nodes: seq<Node>, o: Order, hash: Hash, mp: nat, n: nat, k: Value)
    requires CanChain(nodes, o, hash, mp, n, k)
    ensures ChainsOk(Chained(nodes, mp, n, k), ChainedOrder(nodes, o, mp, n), hash)
  {
    hide NextOk, PlaceOk, Before;
    var nodes', o' := Chained(nodes, mp, n, k), ChainedOrder(nodes, o, mp, n);
    assert forall i :: Keyed(nodes', i) ==> i == n || Keyed(nodes, i);
    forall i | Keyed(nodes', i) ensures NextOk(nodes', o', i) && PlaceOk(nodes', o', hash, i) && o'.list[i] < o'.lists {
      ChainedNext(nodes, o, hash, mp, n, k, i);
      ChainedPlace(nodes, o, hash, mp, n, k, i);
    }
    forall i | Keyed(nodes, i) && o.list[i] == o.list[mp] ensures o'.rank[i] != o'.rank[n] {
      ChainedRanks(nodes, o, hash, mp, n, k, i);
    }
  }

  // ---------------------------------------------------------------- values are kept

  ghost predicate Has(nodes: seq<Node>, k: Value, v: Value) {
    exists i :: Keyed(nodes, i) && nodes[i].key == k && nodes[i].val == v
  }

  /** `nodes'` holds the values of `nodes`, and the new key `k` without a value. */
  ghost predicate Added(nodes: seq<Node>, nodes': seq<Node>, k: Value) {
    && |nodes'| == |nodes| && Has(nodes', k, Nil)
    && (forall i :: Keyed(nodes', i) && nodes'[i].key != k ==> Has(nodes, nodes'[i].key, nodes'[i].val))
    && (forall j :: Keyed(nodes, j) && nodes[j].val != Nil ==> Has(nodes', nodes[j].key, nodes[j].val))
  }

  lemma PlacedAdds(nodes: seq<Node>, mp: nat, k: Value)
    requires mp < |nodes| && k != Nil && nodes[mp].val == Nil
    ensures Added(nodes, Placed(nodes, mp, k), k)
  {
    var nodes' := Placed(nodes, mp, k);
    assert Keyed(nodes', mp);
    forall i | Keyed(nodes', i) && nodes'[i].key != k ensures Has(nodes, nodes'[i].key, nodes'[i].val) { assert Keyed(nodes, i); }
    forall j | Keyed(nodes, j) && nodes[j].val != Nil ensures Has(nodes', nodes[j].key, nodes[j].val) { assert Keyed(nodes', j); }
  }

  lemma MovedAdds(nodes: seq<Node>, prev: nat, mp: nat, n: nat, k: Value)
    requires Keyed(nodes, mp) && Keyed(nodes, prev) && n < |nodes| && nodes[n] == FREE && k != Nil
    ensures Added(nodes, Moved(nodes, prev, mp, n, k), k)
  {
    var nodes' := Moved(nodes, prev, mp, n, k);
    assert Keyed(nodes', mp);
    forall i | Keyed(nodes', i) && nodes'[i].key != k ensures Has(nodes, nodes'[i].key, nodes'[i].val) {
      assert Keyed(nodes, if i == n then mp else i);
    }
    forall j | Keyed(nodes, j) ensures Has(nodes', nodes[j].key, nodes[j].val) {
      assert Keyed(nodes', if j == mp then n else j);
    }
  }

  lemma ChainedAdds(nodes: seq<Node>, mp: nat, n: nat, k: Value)
    requires Keyed(nodes, mp) && n < |nodes| && nodes[n] == FREE && k != Nil
    ensures Added(nodes, Chained(nodes, mp, n, k), k)
  {
    var nodes' := Chained(nodes, mp, n, k);
    assert Keyed(nodes', n);
    forall i | Keyed(nodes', i) && nodes'[i].key != k ensures Has(nodes, nodes'[i].key, nodes'[i].val) { assert Keyed(nodes, i); }
    forall j | Keyed(nodes, j) ensures Has(nodes', nodes[j].key, nodes[j].val) { assert Keyed(nodes', j); }
  }

  lemma AtHas(nodes: seq<Node>, o: Order, hash: Hash, k: Value, v: Value)
    requires ChainsOk(nodes, o, hash) && Has(nodes, k, v)
    ensures At(nodes, k) == v
  {
    var i :| Keyed(nodes, i) && nodes[i].key == k && nodes[i].val == v;
    AtNode(nodes, o, hash, i);
  }

  lemma AddedValues(nodes: seq<Node>, o: Order, nodes': seq<Node>, o': Order, hash: Hash, k: Value, x: Value)
    requires ChainsOk(nodes, o, hash) && ChainsOk(nodes', o', hash) && Added(nodes, nodes', k) && Absent(nodes, k)
    ensures At(nodes', x) == At(nodes, x)
  {
    hide ChainsOk, Has;
    if x == k {
      AtHas(nodes', o', hash, k, Nil);
    } else if i :| Keyed(nodes', i) && nodes'[i].key == x {
      AtHas(nodes, o, hash, x, nodes'[i].val);
      HasNode(nodes', i);
      AtHas(nodes', o', hash, x, nodes'[i].val);
    } else if j :| Keyed(nodes, j) && nodes[j].key == x {
      HasNode(nodes, j);
      AtHas(nodes, o, hash, x, nodes[j].val);
      if nodes[j].val != Nil { AtHas(nodes', o', hash, x, nodes[j].val); }
    }
  }

  lemma HasNode(nodes: seq<Node>, i: int)
    requires Keyed(nodes, i)
    ensures Has(nodes, nodes[i].key, nodes[i].val)
  {
  }

  /** A value is stored in a node. */
  lemma StoredNode(nodes: seq<Node>, o: Order, hash: Hash, i: nat, v: Value, j: int)
    requires ChainsOk(nodes, o, hash) && Keyed(nodes, i) && Keyed(nodes, j)
    ensures var nodes' := nodes[i := nodes[i].(val := v)]; NextOk(nodes', o, j) && PlaceOk(nodes', o, hash, j)
  {
    var nodes' := nodes[i := nodes[i].(val := v)];
    assert NextOk(nodes, o, j) && PlaceOk(nodes, o, hash, j);
    assert forall a, b :: Before(nodes', o, a, b) <==> Before(nodes, o, a, b);
  }

  lemma StoredChains(nodes: seq<Node>, o: Order, hash: Hash, i: nat, v: Value)
    requires ChainsOk(nodes, o, hash) && Keyed(nodes, i)
    ensures ChainsOk(nodes[i := nodes[i].(val := v)], o, hash)
  {
    hide NextOk, PlaceOk, Before;
    var nodes' := nodes[i := nodes[i].(val := v)];
    assert forall j :: Keyed(nodes', j) <==> Keyed(nodes, j);
    forall j | Keyed(nodes', j) ensures NextOk(nodes', o, j) && PlaceOk(nodes', o, hash, j) && o.list[j] < o.lists {
      StoredNode(nodes, o, hash, i, v, j);
    }
  }

  lemma StoredValues(nodes: seq<Node>, o: Order, hash: Hash, i: nat, v: Value, x: Value)
    requires ChainsOk(nodes, o, hash) && Keyed(nodes, i)
    ensures At(nodes[i := nodes[i].(val := v)], x) == if x == nodes[i].key then v else At(nodes, x)
  {
    var nodes' := nodes[i := nodes[i].(val := v)];
    StoredChains(nodes, o, hash, i, v);
    assert forall j :: (Keyed(nodes', j) <==> Keyed(nodes, j)) && (Keyed(nodes, j) ==> nodes'[j].key == nodes[j].key);
    if j :| Keyed(nodes, j) && nodes[j].key == x {
      AtNode(nodes', o, hash, j);
      AtNode(nodes, o, hash, j);
    }
  }

  /** An empty hash part. */
  lemma EmptyChains(nodes: seq<Node>, hash: Hash, o: Order)
    requires |nodes| > 0 && |o.list| == |nodes| == |o.rank| && forall i :: 0 <= i < |nodes| ==> nodes[i] == FREE
    ensures ChainsOk(nodes, o, hash) && (forall x :: At(nodes, x) == Nil) && KeySet(nodes, |nodes|) == {}
  {
  }

  // ---------------------------------------------------------------- how many nodes are taken

  lemma {:induction false} KeySetSize(nodes: seq<Node>, n: nat)
    requires DistinctKeys(nodes) && n <= |nodes| && forall i :: 0 <= i < n ==> Keyed(nodes, i)
    ensures |KeySet(nodes, n)| == n
  {
    if n > 0 {
      KeySetSize(nodes, n - 1);
      assert Keyed(nodes, n - 1);
      assert KeySet(nodes, n) == KeySet(nodes, n - 1) + {nodes[n - 1].key};
      assert nodes[n - 1].key !in KeySet(nodes, n - 1);
    }
  }

  /** Fewer keys than nodes: some node is free. */
  lemma NotFull(nodes: seq<Node>, o: Order, hash: Hash)
    requires ChainsOk(nodes, o, hash) && |KeySet(nodes, |nodes|)| < |nodes|
    ensures exists i :: 0 <= i < |nodes| && !Keyed(nodes, i)
  {
    if forall i :: 0 <= i < |nodes| ==> Keyed(nodes, i) { KeySetSize(nodes, |nodes|); }
  }
}
