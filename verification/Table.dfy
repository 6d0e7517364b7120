/** Tables with an array part and a hash part. */
module Tables {
  import opened Basics
  import opened NodeFacts
  import opened SizeFacts
  import opened TableFacts

  /** Where the value of a key is kept. */
  datatype Slot = NoSlot | InArray(i: nat) | InNode(i: nat)

  function NodeSlot(n: int): Slot
    requires n >= -1
  {
    if n == -1 then NoSlot else InNode(n)
  }

  datatype NextResult = Invalid | Done | Entry(key: Value, val: Value)

  datatype Error = IndexNil | IndexNaN | Overflow
  datatype Result = Ok(slot: Slot) | Err(error: Error)

  class Table {
    var arr: seq<Value>      // the values of 1, 2, and so on
    var node: seq<Node>      // hash part; its size is a power of two
    var dummy: bool          // the hash part is the common dummy node
    var lastfree: int        // no node from here on is free
    const hash: Hash
    ghost var order: Order

    ghost predicate Valid()
      reads this
    {
      && ChainsOk(node, order, hash) && KeysOk(node, |arr|) && |arr| <= MAXASIZE && |node| <= MAXASIZE
      && (if dummy then node == [FREE] && lastfree <= 0 else FreeOk(node, lastfree) && lastfree <= |node|)
    }

    /** The table as a map: the value of every key, nil for absent keys. */
    ghost function Lookup(k: Value): Value
      reads this
    {
      ValueOf(arr, node, k)
    }

    ghost function Live(): set<Value>
      reads this
    {
      LiveKeys(arr, node)
    }

    /** There is a free node. */
    ghost predicate Room()
      reads this
    {
      !dummy && exists i :: 0 <= i < |node| && !Keyed(node, i)
    }

    ghost predicate SlotOf(k: Value, s: Slot)
      reads this
    {
      match s
      case NoSlot => !InPart(k, |arr|) && Absent(node, k)
      case InArray(i) => i < |arr| && k == Int(i + 1)
      case InNode(i) => Keyed(node, i) && node[i].key == k && !InPart(k, |arr|)
    }

    // -------------------------------------------------------------- lookup

    /** Search for a key in the chain of its main position. */
    method Search(key: Value) returns (n: int)
      requires Valid() && key != Nil
      ensures n >= -1 && (n == -1 ==> Absent(node, key))
      ensures n != -1 ==> Keyed(node, n) && node[n].key == key
    {
      n := MainPosition(hash, |node|, key);
      StartWalk(node, order, hash, key);
      while n != -1
        invariant n == -1 ==> Absent(node, key)
        invariant n != -1 ==> 0 <= n < |node| && Ahead(node, order, key, n)
        decreases n != -1, if n == -1 then {} else After(node, order, n)
      {
        if node[n].key == key && key != NaN {
          return;
        }
        StepWalk(node, order, hash, |arr|, key, n);
        n := node[n].next;
      }
    }

    /** luaH_get */
    method Find(key: Value) returns (s: Slot)
      requires Valid()
      ensures SlotOf(key, s)
    {
      match key {
        case Nil =>
          s := NoSlot;
        case Int(k) =>
          if 1 <= k <= |arr| {
            s := InArray(k - 1);
          } else {
            var n := Search(key);
            s := NodeSlot(n);
          }
        case _ =>
          var n := Search(key);
          s := NodeSlot(n);
      }
    }

    /** The value of a key. */
    method Get(key: Value) returns (v: Value)
      requires Valid()
      ensures v == Lookup(key)
    {
      hide PlaceOk, NextOk, DistinctRanks;
      var s := Find(key);
      match s {
        case NoSlot => v := Nil;
        case InArray(i) => v := arr[i];
        case InNode(i) =>
          v := node[i].val;
          AtNode(node, order, hash, i);
      }
    }

    /** The assignment of a value to the slot of a key. */
    method Store(s: Slot, v: Value, ghost k: Value)
      requires Valid() && SlotOf(k, s) && s != NoSlot
      modifies this`arr, this`node
      ensures Valid() && SlotOf(k, s) && |arr| == |old(arr)| && |node| == |old(node)|
      ensures forall x :: Lookup(x) == if x == k then v else old(Lookup(x))
      ensures KeySet(node, |node|) == old(KeySet(node, |node|)) && (forall i :: Keyed(node, i) <==> Keyed(old(node), i))
      ensures node == if s.InNode? then old(node)[s.i := old(node)[s.i].(val := v)] else old(node)
    {
      hide ChainsOk, At;
      match s {
        case InArray(i) =>
          arr := arr[i := v];
        case InNode(i) =>
          StoredChains(node, order, hash, i, v);
          StoredKeys(node, i, v);
          ghost var nodes := node;
          node := node[i := node[i].(val := v)];
          forall x ensures Lookup(x) == if x == k then v else old(Lookup(x)) {
            StoredValues(nodes, order, hash, i, v, x);
          }
      }
    }

    // -------------------------------------------------------------- insertion

    /** `key` was added to the nodes `nodes`; nothing else changed. */
    ghost predicate Takes(nodes: seq<Node>, key: Value)
      reads this
    {
      && |node| == |nodes|
      && (AllLive(nodes) ==> KeySet(node, |node|) == KeySet(nodes, |nodes|) + {key})
      && (AllLive(nodes) ==> forall i :: Keyed(node, i) && node[i].key != key ==> node[i].val != Nil)
    }

    /** getfreepos */
    method GetFreePos() returns (n: int)
      requires Valid()
      modifies this`lastfree
      ensures n >= -1 && (n == -1 <==> !old(Room())) && (n == -1 ==> Valid())
      ensures n != -1 ==> !dummy && n < |node| && node[n] == FREE && lastfree == n
      ensures n != -1 ==> forall i :: 0 <= i < |node| && !Keyed(node, i) && i != n ==> i < n
    {
      hide PlaceOk, NextOk, DistinctRanks, DistinctKeys, KeysOk;
      while lastfree > 0
        invariant !dummy ==> FreeOk(node, lastfree) && lastfree <= |node|
        invariant dummy ==> lastfree <= 0
      {
        lastfree := lastfree - 1;
        if node[lastfree].key == Nil {
          assert !Keyed(node, lastfree);
          return lastfree;
        }
      }
      lastfree := lastfree - 1;
      return -1;
    }

    /** The key takes its main position, which holds no value. */
    method Place(mp: nat, key: Value)
      requires Valid() && !dummy && key != Nil && key != NaN && !InPart(key, |arr|) && Absent(node, key)
      requires mp == MainPosition(hash, |node|, key) && node[mp].val == Nil
      modifies this`node, this`order
      ensures Valid() && SlotOf(key, InNode(mp)) && Takes(old(node), key)
      ensures forall x :: Lookup(x) == old(Lookup(x))
    {
      hide NextOk, PlaceOk, DistinctKeys, DistinctRanks, KeysOk, At, Added, Absent, AllLive, KeySet;
      ghost var nodes, o := node, order;
      PlacedChains(nodes, o, hash, mp, key);
      PlacedAdds(nodes, mp, key);
      order := PlacedOrder(node, order, mp);
      node := node[mp := node[mp].(key := key)];
      assert node == Placed(nodes, mp, key);
      assert forall i :: !Keyed(node, i) ==> !Keyed(nodes, i);
      Insertion(arr, nodes, o, node, order, hash, key);
    }

    /** The colliding node moves to `n`, and the key takes its main position. */
    method MoveAway(prev: nat, mp: nat, n: nat, key: Value)
      requires CanMove(node, order, hash, prev, mp, n, key) && KeysOk(node, |arr|) && |arr| <= MAXASIZE && |node| <= MAXASIZE
      requires key != NaN && !InPart(key, |arr|) && !dummy && lastfree == n
      requires forall i :: 0 <= i < |node| && !Keyed(node, i) && i != n ==> i < n
      modifies this`node, this`order
      ensures Valid() && SlotOf(key, InNode(mp)) && Takes(old(node), key)
      ensures forall x :: Lookup(x) == old(Lookup(x))
    {
      hide ChainsOk, KeysOk, At, Added, Absent, AllLive, KeySet, CanMove, MovedOrder;
      ghost var nodes, o := node, order;
      MoveFacts(arr, nodes, o, hash, prev, mp, n, key);
      order := MovedOrder(order, mp, n);
      node := node[prev := node[prev].(next := n)];
      node := node[n := node[mp]];
      node := node[mp := Node(key, Nil, -1)];
      assert node == Moved(nodes, prev, mp, n, key);
    }

    /** The key goes to `n`, right after the colliding node in its main position. */
    method ChainAfter(mp: nat, n: nat, key: Value)
      requires CanChain(node, order, hash, mp, n, key) && KeysOk(node, |arr|) && |arr| <= MAXASIZE && |node| <= MAXASIZE
      requires key != NaN && !InPart(key, |arr|) && !dummy && lastfree == n
      requires forall i :: 0 <= i < |node| && !Keyed(node, i) && i != n ==> i < n
      modifies this`node, this`order
      ensures Valid() && SlotOf(key, InNode(n)) && Takes(old(node), key)
      ensures forall x :: Lookup(x) == old(Lookup(x))
    {
      hide NextOk, PlaceOk, DistinctKeys, DistinctRanks, KeysOk, At, Added, Absent, AllLive, KeySet;
      ghost var nodes, o := node, order;
      ChainedChains(nodes, o, hash, mp, n, key);
      ChainedAdds(nodes, mp, n, key);
      order := ChainedOrder(node, order, mp, n);
      node := node[n := Node(key, Nil, node[mp].next)];
      node := node[mp := node[mp].(next := n)];
      assert node == Chained(nodes, mp, n, key);
      assert forall i :: !Keyed(node, i) ==> !Keyed(nodes, i) && i != n;
      Insertion(arr, nodes, o, node, order, hash, key);
    }

    /** The node before `mp` in its chain. */
    method Previous(mp: nat) returns (prev: nat)
      requires ChainsOk(node, order, hash) && Keyed(node, mp) && MainPosition(hash, |node|, node[mp].key) != mp
      ensures Keyed(node, prev) && node[prev].next == mp
    {
      hide NextOk, DistinctKeys, DistinctRanks;
      prev := MainPosition(hash, |node|, node[mp].key);
      assert PlaceOk(node, order, hash, mp);
      while node[prev].next != mp
        invariant Before(node, order, prev, mp)
        decreases After(node, order, prev)
      {
        NextBefore(node, order, hash, prev, mp);
        AfterNext(node, order, hash, prev);
        prev := node[prev].next;
      }
    }

    /** newkey: a new key, known to be absent, gets a slot; when no node is free the table is
        rehashed first. */
    method NewKey(key: Value) returns (r: Result)
      requires Valid() && key != Nil && key != NaN && !InPart(key, |arr|) && Absent(node, key)
      modifies this
      ensures r.Ok? ==> Valid() && r.slot != NoSlot && SlotOf(key, r.slot) && forall x :: Lookup(x) == old(Lookup(x))
      ensures r.Err? ==> r.error == Overflow && !old(Room()) && |old(Live())| >= MAXASIZE
      ensures old(Room()) ==> arr == old(arr) && !dummy && Takes(old(node), key)
      decreases if Room() then 0 else 1, 1
    {
      hide ChainsOk, KeysOk, At, Absent, AllLive, KeySet, CanMove, CanChain, PlaceOk, NextOk, LiveKeys, FreeOk;
      MainInside(node, order, hash, key);
      var mp := MainPosition(hash, |node|, key);
      if node[mp].val != Nil || dummy {
        var n := GetFreePos();
        if n == -1 {
          var ok := Rehash(key);
          if !ok {
            return Err(Overflow);
          }
          r := Set(key);
        } else {
          var at := Collide(mp, n, key);
          r := Ok(InNode(at));
        }
      } else {
        Place(mp, key);
        r := Ok(InNode(mp));
      }
    }

    /** The main position of the key is taken, and `n` is free. */
    method Collide(mp: nat, n: nat, key: Value) returns (at: nat)
      requires ChainsOk(node, order, hash) && KeysOk(node, |arr|) && |arr| <= MAXASIZE && |node| <= MAXASIZE
      requires key != Nil && key != NaN && !InPart(key, |arr|) && Absent(node, key) && !dummy && lastfree == n < |node| && node[n] == FREE
      requires forall i :: 0 <= i < |node| && !Keyed(node, i) && i != n ==> i < n
      requires mp == MainPosition(hash, |node|, key) && node[mp].val != Nil
      modifies this`node, this`order
      ensures Valid() && SlotOf(key, InNode(at)) && Takes(old(node), key)
      ensures forall x :: Lookup(x) == old(Lookup(x))
    {
      hide KeysOk, At, Absent, AllLive, KeySet, PlaceOk, NextOk, DistinctRanks, DistinctKeys;
      assert Keyed(node, mp);
      var othern := MainPosition(hash, |node|, node[mp].key);
      if othern != mp {
        var prev := Previous(mp);
        MoveAway(prev, mp, n, key);
        at := mp;
      } else {
        ChainAfter(mp, n, key);
        at := n;
      }
    }

    /** luaH_set: the slot of a key, made if need be. */
    method Set(key: Value) returns (r: Result)
      requires Valid()
      modifies this
      ensures key == Nil ==> r == Err(IndexNil) && unchanged(this)
      ensures key == NaN ==> r == Err(IndexNaN) && unchanged(this)
      ensures r.Ok? ==> key != Nil && key != NaN && Valid() && r.slot != NoSlot && SlotOf(key, r.slot) && forall x :: Lookup(x) == old(Lookup(x))
      ensures r.Err? && key != Nil && key != NaN ==> r.error == Overflow && !old(Room()) && |old(Live())| >= MAXASIZE
      ensures old(InPart(key, |arr|) || !Absent(node, key)) && key != Nil ==> r.Ok? && unchanged(this)
      ensures old(Room()) && key != Nil && key != NaN ==> arr == old(arr) && !dummy && (old(InPart(key, |arr|) || !Absent(node, key)) || Takes(old(node), key))
      decreases if Room() || InPart(key, |arr|) || !Absent(node, key) then 0 else 1, 2
    {
      hide ChainsOk, KeysOk, At, Absent, AllLive, KeySet, PlaceOk, NextOk, LiveKeys, FreeOk;
      KeyFacts(node, order, hash, |arr|, key);
      var p := Find(key);
      if p != NoSlot {
        if p.InNode? { NotAbsent(node, p.i); }
        return Ok(p);
      }
      if key == Nil {
        return Err(IndexNil);
      }
      if key == NaN {
        return Err(IndexNaN);
      }
      r := NewKey(key);
    }

    // -------------------------------------------------------------- rehash

    /** setarrayvector */
    method SetArrayVector(size: nat)
      requires |arr| <= size
      modifies this`arr
      ensures arr == old(arr) + seq(size - |old(arr)|, _ => Nil)
    {
      arr := arr + seq(size - |arr|, _ => Nil);
    }

    /** setnodevector: an empty hash part for `size` elements. */
    method SetNodeVector(size: nat) returns (ok: bool)
      requires |node| > 0
      modifies this`node, this`dummy, this`lastfree, this`order
      ensures ok <==> size <= MAXASIZE
      ensures !ok ==> unchanged(this)
      ensures ok ==> ChainsOk(node, order, hash) && size <= |node| <= MAXASIZE && (forall i :: 0 <= i < |node| ==> node[i] == FREE)
      ensures ok ==> (dummy <==> size == 0) && (if dummy then node == [FREE] && lastfree <= 0 else FreeOk(node, lastfree) && lastfree <= |node|)
      ensures ok ==> (forall x :: At(node, x) == Nil) && KeySet(node, |node|) == {} && AllLive(node)
    {
      MaxSize();
      if size == 0 {
        node, dummy, lastfree := [FREE], true, 0;
      } else {
        var lsize := CeilLog2(size);
        CeilLog2Below(size, MAXBITS);
        if lsize > MAXBITS {
          return false;
        }
        Pow2Mono(lsize, MAXBITS);
        node, dummy := seq(Pow2(lsize), _ => FREE), false;
        lastfree := |node|;
      }
      ok := true;
      order := Order(seq(|node|, _ => 0), seq(|node|, _ => 0.0), 0);
      EmptyChains(node, hash, order);
    }

    /** A key and its value are put into the resized table. */
    method Reinsert(key: Value, v: Value)
      requires Valid() && key != Nil && key != NaN && v != Nil && AllLive(node)
      requires InPart(key, |arr|) || (Absent(node, key) && Room())
      modifies this
      ensures Valid() && |arr| == |old(arr)| && |node| == |old(node)| && dummy == old(dummy) && AllLive(node)
      ensures forall x :: ValueOf(arr, node, x) == if x == key then v else old(ValueOf(arr, node, x))
      ensures KeySet(node, |node|) == old(KeySet(node, |node|)) + if InPart(key, |arr|) then {} else {key}
      decreases 0, 3
    {
      hide ChainsOk, KeysOk, At, Absent, KeySet, PlaceOk, NextOk, LiveKeys, FreeOk, ValueOf;
      ghost var nodes := node;
      var r := Set(key);
      ghost var nodes1 := node;
      Store(r.slot, v, key);
      StillLive(nodes1, node, r.slot, key, v);
      forall x ensures ValueOf(arr, node, x) == if x == key then v else old(ValueOf(arr, node, x)) {
        assert ValueOf(arr, node, x) == Lookup(x);
      }
    }

    lemma StillLive(nodes: seq<Node>, nodes': seq<Node>, s: Slot, key: Value, v: Value)
      requires Valid() && node == nodes' && SlotOf(key, s) && v != Nil
      requires s.InArray? ==> nodes' == nodes && AllLive(nodes)
      requires s.InNode? ==> Keyed(nodes, s.i) && nodes' == nodes[s.i := nodes[s.i].(val := v)]
      requires s.InNode? ==> forall i :: Keyed(nodes, i) && nodes[i].key != key ==> nodes[i].val != Nil
      requires s != NoSlot
      ensures AllLive(nodes')
    {
      hide NextOk, PlaceOk, DistinctRanks;
      if s.InNode? {
        forall i | Keyed(nodes', i) ensures nodes'[i].val != Nil { assert Keyed(nodes, i); }
      }
    }

    /** resize: every value goes to its place in an array part and a hash part of new sizes. */
    method Resize(nasize: nat, nhsize: nat) returns (ok: bool)
      requires Valid() && nasize <= MAXASIZE && |Rest(Live(), nasize)| <= nhsize
      modifies this
      ensures ok ==> Valid() && |arr| == nasize && (forall x :: Lookup(x) == old(Lookup(x)))
      ensures ok ==> AllLive(node) && KeySet(node, |node|) == old(Rest(Live(), nasize)) && |node| >= nhsize && (dummy <==> nhsize == 0)
      ensures !ok ==> nhsize > MAXASIZE
      decreases 0, 5
    {
      hide ChainsOk, KeysOk, At, Absent, KeySet, PlaceOk, NextOk, FreeOk, Rest, InRange, LiveKeys, AllLive, ValueOf, Moving;
      var oldasize := |arr|;
      var nold := node;
      ghost var a0, o0 := arr, order;
      MainInside(node, order, hash, Nil);
      if nasize > oldasize {
        SetArrayVector(nasize);
      }
      ok := SetNodeVector(nhsize);
      if !ok {
        return;
      }
      var vanishing := arr;
      if nasize < oldasize {
        arr := arr[..nasize];
      }
      EmptyKeys(node, |arr|);
      MovingStart(a0, nold, o0, hash, vanishing, arr, node, nasize);
      if nasize < oldasize {
        Vanish(vanishing, nasize, nhsize, a0, nold, o0);
      } else {
        assert {} + NodeKeys(nold, 0, |nold|) == NodeKeys(nold, 0, |nold|);
      }
      Rehang(nold, nasize, nhsize, a0, o0);
    }

    /** The first loop of resize: elements of the vanishing slice of the array. */
    method Vanish(vanishing: seq<Value>, nasize: nat, nhsize: nat, ghost a0: seq<Value>, ghost nold: seq<Node>, ghost o0: Order)
      requires Valid() && vanishing == a0 && nasize < |a0| && ChainsOk(nold, o0, hash) && KeysOk(nold, |a0|)
      requires |Rest(LiveKeys(a0, nold), nasize)| <= nhsize <= |node| && (dummy ==> nhsize == 0)
      requires Moving(a0, nold, arr, node, ArrayKeys(a0, nasize, |a0|) + NodeKeys(nold, 0, |nold|), nasize)
      modifies this
      ensures Valid() && |node| == |old(node)| && dummy == old(dummy)
      ensures Moving(a0, nold, arr, node, NodeKeys(nold, 0, |nold|), nasize)
      decreases 0, 4
    {
      hide ChainsOk, KeysOk, At, Absent, KeySet, PlaceOk, NextOk, FreeOk, Rest, InRange, LiveKeys, AllLive, ValueOf, Moving, ArrayKeys, NodeKeys;
      var i := nasize;
      while i < |vanishing|
        invariant nasize <= i <= |a0| && Valid() && |node| == |old(node)| && dummy == old(dummy)
        invariant Moving(a0, nold, arr, node, ArrayKeys(a0, i, |a0|) + NodeKeys(nold, 0, |nold|), nasize)
      {
        NextArrayKey(a0, nold, o0, hash, i);
        if vanishing[i] != Nil {
          ghost var todo, a1, n1 := ArrayKeys(a0, i, |a0|) + NodeKeys(nold, 0, |nold|), arr, node;
          MovingRoom(a0, nold, arr, node, order, hash, todo, nasize, nhsize, Int(i + 1));
          Reinsert(Int(i + 1), vanishing[i]);
          MovingStep(a0, nold, a1, n1, arr, node, todo, nasize, Int(i + 1), vanishing[i]);
        }
        i := i + 1;
      }
      NoArrayKeys(a0, nold);
    }

    /** The second loop of resize: elements of the old hash part. */
    method Rehang(nold: seq<Node>, nasize: nat, nhsize: nat, ghost a0: seq<Value>, ghost o0: Order)
      requires Valid() && ChainsOk(nold, o0, hash) && KeysOk(nold, |a0|)
      requires |Rest(LiveKeys(a0, nold), nasize)| <= nhsize <= |node| && (dummy ==> nhsize == 0)
      requires Moving(a0, nold, arr, node, NodeKeys(nold, 0, |nold|), nasize)
      modifies this
      ensures Valid() && |node| == |old(node)| && dummy == old(dummy) && |arr| == nasize
      ensures (forall x :: Lookup(x) == ValueOf(a0, nold, x)) && AllLive(node) && KeySet(node, |node|) == Rest(LiveKeys(a0, nold), nasize)
      decreases 0, 4
    {
      hide ChainsOk, KeysOk, At, Absent, KeySet, PlaceOk, NextOk, FreeOk, Rest, InRange, LiveKeys, AllLive, ValueOf, Moving, NodeKeys;
      var i := |nold| - 1;
      while i >= 0
        invariant -1 <= i < |nold| && Valid() && |node| == |old(node)| && dummy == old(dummy)
        invariant Moving(a0, nold, arr, node, NodeKeys(nold, 0, i + 1), nasize)
      {
        NextNodeKey(a0, nold, o0, hash, i);
        if nold[i].val != Nil {
          ghost var todo, a1, n1 := NodeKeys(nold, 0, i + 1), arr, node;
          MovingRoom(a0, nold, arr, node, order, hash, todo, nasize, nhsize, nold[i].key);
          Reinsert(nold[i].key, nold[i].val);
          MovingStep(a0, nold, a1, n1, arr, node, todo, nasize, nold[i].key, nold[i].val);
        }
        i := i - 1;
      }
      MovingDone(a0, nold, arr, node, nasize);
    }

    /** arrayindex: the index of a key that may live in the array part, -1 otherwise. */
    function ArrayIndex(key: Value): int {
      if key.Int? && -0x8000_0000 <= key.n < 0x8000_0000 then key.n else -1
    }

    /** countint */
    method CountInt(key: Value, nums: array<int>, ghost keys: set<Value>) returns (c: int)
      requires nums.Length == MAXBITS + 1 && Counted(nums[..], keys) && key !in keys
      modifies nums
      ensures Counted(nums[..], keys + {key})
      ensures |InRange(keys + {key}, MAXASIZE)| == |InRange(keys, MAXASIZE)| + c
    {
      hide Counted, InRange;
      CountedMore(nums[..], keys, key);
      var k := ArrayIndex(key);
      if 0 < k && k <= MAXASIZE {
        ghost var s := nums[..];
        nums[CeilLog2(k)] := nums[CeilLog2(k)] + 1;
        assert nums[..] == s[CeilLog2(k) := s[CeilLog2(k)] + 1];
        c := 1;
      } else {
        c := 0;
      }
    }

    /** numusearray: the elements of the array part, by slices. */
    method NumUseArray(nums: array<int>) returns (ause: int)
      requires Valid() && nums.Length == MAXBITS + 1 && Counted(nums[..], {})
      modifies nums
      ensures Counted(nums[..], ArrayKeys(arr, 0, |arr|)) && ause == |ArrayKeys(arr, 0, |arr|)|
    {
      hide ChainsOk, KeysOk, FreeOk, Counted, ArrayKeys;
      NoKeysYet(arr);
      MaxSize();
      ause := 0;
      var i, lg, ttlg := 1, 0, 1;
      while lg <= MAXBITS
        invariant 0 <= lg <= MAXBITS + 1 && ttlg == Pow2(lg) && 1 <= i <= |arr| + 1
        invariant i == |arr| + 1 || i == if lg == 0 then 1 else Pow2(lg - 1) + 1
        invariant Counted(nums[..], ArrayKeys(arr, 0, i - 1)) && ause == |ArrayKeys(arr, 0, i - 1)|
      {
        var lim := ttlg;
        if lim > |arr| {
          lim := |arr|;
          if i > lim {
            break;
          }
        }
        var lc;
        i, lc := CountSlice(nums, lg, i, lim);
        ause := ause + lc;
        lg, ttlg := lg + 1, ttlg * 2;
      }
    }

    /** The elements in the range `(2^(lg-1), 2^lg]`. */
    method CountSlice(nums: array<int>, lg: nat, i0: nat, lim: nat) returns (i: nat, lc: int)
      requires Valid() && nums.Length == MAXBITS + 1 && lg <= MAXBITS && 1 <= i0 && lim <= |arr| && lim <= Pow2(lg)
      requires i0 <= lim ==> i0 == if lg == 0 then 1 else Pow2(lg - 1) + 1
      requires i0 <= |arr| + 1 && Counted(nums[..], ArrayKeys(arr, 0, i0 - 1))
      modifies nums
      ensures i == if i0 <= lim then lim + 1 else i0
      ensures Counted(nums[..], ArrayKeys(arr, 0, i - 1)) && lc == |ArrayKeys(arr, 0, i - 1)| - |ArrayKeys(arr, 0, i0 - 1)|
    {
      hide ChainsOk, KeysOk, FreeOk, Counted, ArrayKeys;
      i, lc := i0, 0;
      ghost var s := nums[..];
      assert s[lg := s[lg] + lc] == s;
      while i <= lim
        invariant i0 <= i && (i0 <= lim ==> i <= lim + 1) && (i0 > lim ==> i == i0) && nums[..] == s
        invariant Counted(s[lg := s[lg] + lc], ArrayKeys(arr, 0, i - 1)) && lc == |ArrayKeys(arr, 0, i - 1)| - |ArrayKeys(arr, 0, i0 - 1)|
      {
        ArrayKeyNext(arr, i - 1);
        if arr[i - 1] != Nil {
          CountedMore(s[lg := s[lg] + lc], ArrayKeys(arr, 0, i - 1), Int(i));
          SliceIndex(i, lg, i0);
          assert s[lg := s[lg] + lc][lg := s[lg] + lc + 1] == s[lg := s[lg] + (lc + 1)];
          lc := lc + 1;
        }
        i := i + 1;
      }
      nums[lg] := nums[lg] + lc;
      assert nums[..] == s[lg := s[lg] + lc];
    }

    /** numusehash: the elements of the hash part, and how many of them may go to the array part. */
    method NumUseHash(nums: array<int>) returns (totaluse: int, ause: int)
      requires Valid() && nums.Length == MAXBITS + 1 && Counted(nums[..], ArrayKeys(arr, 0, |arr|))
      modifies nums
      ensures Counted(nums[..], Live()) && totaluse == |Live()| - |ArrayKeys(arr, 0, |arr|)|
      ensures ause == |InRange(Live(), MAXASIZE)| - |ArrayKeys(arr, 0, |arr|)|
    {
      hide ChainsOk, KeysOk, FreeOk, Counted, ArrayKeys, NodeKeys, InRange;
      ghost var a := ArrayKeys(arr, 0, |arr|);
      ArrayCandidates(arr);
      NoNodesYet(arr, node);
      totaluse, ause := 0, 0;
      var i := |node|;
      while i > 0
        invariant 0 <= i <= |node| && Counted(nums[..], a + NodeKeys(node, i, |node|))
        invariant totaluse == |a + NodeKeys(node, i, |node|)| - |a|
        invariant ause == |InRange(a + NodeKeys(node, i, |node|), MAXASIZE)| - |a|
      {
        i := i - 1;
        NodeKeyNext(arr, node, order, hash, i);
        if node[i].val != Nil {
          var c := CountInt(node[i].key, nums, a + NodeKeys(node, i + 1, |node|));
          ause := ause + c;
          totaluse := totaluse + 1;
        }
      }
    }

    /** rehash: the sizes become the optimal ones for the keys in use and the new one, for which
        there is room afterwards. */
    method Rehash(key: Value) returns (ok: bool)
      requires Valid() && key != Nil && key != NaN && !InPart(key, |arr|) && Absent(node, key)
      modifies this
      ensures ok ==> Valid() && (forall x :: Lookup(x) == old(Lookup(x))) && (InPart(key, |arr|) || (Room() && Absent(node, key)))
      ensures ok ==> Optimal(old(Live()) + {key}, |arr|)
      ensures !ok ==> |old(Live())| >= MAXASIZE
      decreases 1, 0
    {
      hide ChainsOk, KeysOk, FreeOk, Counted, ArrayKeys, NodeKeys, InRange, LiveKeys, ValueOf, Absent, Rest, KeySet, AllLive, Optimal;
      ghost var live := Live();
      NewKeyDead(arr, node, order, hash, key);
      var nums := new int[MAXBITS + 1](_ => 0);
      NothingCounted(nums[..]);
      var nasize := NumUseArray(nums);
      var totaluse := nasize;
      var t, a := NumUseHash(nums);
      nasize, totaluse := nasize + a, totaluse + t;
      var c := CountInt(key, nums, live);
      nasize, totaluse := nasize + c, totaluse + 1;
      var n, na := ComputeSizes(nums, nasize, live + {key});
      RestFits(live, key, n);
      ok := Resize(n, totaluse - na);
      if ok && !InPart(key, n) {
        RoomLeft(node, order, hash, live, n, key);
      }
    }

    /** A key gets a value: luaH_set and the assignment to the slot. */
    method Put(key: Value, v: Value) returns (r: Result)
      requires Valid()
      modifies this
      ensures r.Ok? ==> Valid() && forall x :: Lookup(x) == if x == key then v else old(Lookup(x))
      ensures key == Nil ==> r == Err(IndexNil) && unchanged(this)
      ensures key == NaN ==> r == Err(IndexNaN) && unchanged(this)
      ensures r.Err? && key != Nil && key != NaN ==> r.error == Overflow && |old(Live())| >= MAXASIZE
    {
      hide ChainsOk, KeysOk, FreeOk, LiveKeys, ValueOf, Absent, KeySet, AllLive;
      r := Set(key);
      if r.Ok? {
        Store(r.slot, v, key);
      }
    }

    /** luaH_new */
    constructor (hash: Hash)
      ensures Valid() && forall x :: Lookup(x) == Nil
    {
      this.hash := hash;
      arr, node, dummy, lastfree := [], [FREE], true, 0;
      order := Order([0], [0.0], 0);
      new;
      EmptyChains(node, hash, order);
    }

    /** luaH_resizearray: the array part grows; the hash part keeps its size. */
    method ResizeArray(nasize: nat) returns (ok: bool)
      requires Valid() && |arr| <= nasize <= MAXASIZE
      modifies this
      ensures ok && Valid() && |arr| == nasize && forall x :: Lookup(x) == old(Lookup(x))
    {
      hide ChainsOk, KeysOk, FreeOk, LiveKeys, ValueOf, KeySet, AllLive, Rest;
      var nsize := if dummy then 0 else |node|;
      RestInNodes(arr, node, nasize);
      ok := Resize(nasize, nsize);
    }

    // -------------------------------------------------------------- traversal

    ghost function KeyAt(i: int): Value
      requires 0 <= i < |arr| + |node|
      reads this
    {
      if i < |arr| then Int(i + 1) else node[i - |arr|].key
    }

    ghost function ValueAt(i: int): Value
      requires 0 <= i < |arr| + |node|
      reads this
    {
      if i < |arr| then arr[i] else node[i - |arr|].val
    }

    /** The place of a key in the order of traversal: array part before hash part, nil before both. */
    ghost predicate IndexOf(k: Value, i: int)
      reads this
    {
      if k == Nil then i == -1 else 0 <= i < |arr| + |node| && KeyAt(i) == k
    }

    /** findindex: -1 is the start; -2 stands for the error "invalid key to 'next'". */
    method FindIndex(key: Value) returns (i: int)
      requires Valid()
      ensures i != -2 ==> IndexOf(key, i)
      ensures i == -2 ==> key != Nil && !InPart(key, |arr|) && Absent(node, key)
    {
      hide ChainsOk;
      if key == Nil {
        return -1;
      }
      if key.Int? && 0 < key.n <= |arr| {
        return key.n - 1;
      }
      var n := Search(key);
      i := if n == -1 then -2 else n + |arr|;
    }

    /** luaH_next: the first entry after a key. */
    method Next(key: Value) returns (r: NextResult)
      requires Valid()
      ensures r == Invalid <==> key != Nil && !InPart(key, |arr|) && Absent(node, key)
      ensures r.Entry? ==> r.key != Nil && r.val == Lookup(r.key) != Nil
      ensures r.Entry? ==> exists i, j :: IndexOf(key, i) && IndexOf(r.key, j) && i < j && forall m :: i < m < j ==> ValueAt(m) == Nil
      ensures r == Done ==> exists i :: IndexOf(key, i) && forall m :: i < m < |arr| + |node| ==> ValueAt(m) == Nil
    {
      hide KeysOk, NextOk, PlaceOk, DistinctRanks, DistinctKeys, FreeOk;
      var start := FindIndex(key);
      if start == -2 {
        return Invalid;
      }
      IndexPresent(key, start);
      var i := start + 1;
      while i < |arr|
        invariant start < i <= |arr| + |node| && forall m :: start < m < i ==> ValueAt(m) == Nil
      {
        if arr[i] != Nil {
          EntryAt(i);
          return Entry(Int(i + 1), arr[i]);
        }
        i := i + 1;
      }
      var n := i - |arr|;
      while n < |node|
        invariant 0 <= n <= |node| && start < n + |arr| && forall m :: start < m < n + |arr| ==> ValueAt(m) == Nil
      {
        if node[n].val != Nil {
          EntryAt(n + |arr|);
          return Entry(node[n].key, node[n].val);
        }
        n := n + 1;
      }
      return Done;
    }

    lemma IndexPresent(k: Value, i: int)
      requires Valid() && IndexOf(k, i)
      ensures k == Nil || InPart(k, |arr|) || !Absent(node, k)
    {
      if k != Nil && i >= |arr| { assert Keyed(node, i - |arr|); }
    }

    lemma EntryAt(i: int)
      requires Valid() && 0 <= i < |arr| + |node| && ValueAt(i) != Nil
      ensures KeyAt(i) != Nil && IndexOf(KeyAt(i), i) && Lookup(KeyAt(i)) == ValueAt(i)
    {
      hide NextOk, PlaceOk, DistinctRanks;
      if i >= |arr| {
        assert Keyed(node, i - |arr|);
        AtNode(node, order, hash, i - |arr|);
      }
    }

    lemma IndexUnique(k: Value, i: int, j: int)
      requires Valid() && IndexOf(k, i) && IndexOf(k, j)
      ensures i == j
    {
      hide NextOk, PlaceOk, DistinctRanks;
      if k != Nil {
        if i >= |arr| { assert Keyed(node, i - |arr|); }
        if j >= |arr| { assert Keyed(node, j - |arr|); }
      }
    }

    /** Stores to existing fields: no key moves. */
    method StoreExisting(stores: seq<(Value, Value)>)
      requires Valid()
      modifies this`arr, this`node
      ensures Valid() && |arr| == |old(arr)| && |node| == |old(node)| && forall i :: 0 <= i < |node| ==> node[i].key == old(node)[i].key
      ensures forall x :: Field(|arr|, node, x) <==> old(Field(|arr|, node, x))
      ensures forall x :: Lookup(x) == if old(Field(|arr|, node, x)) then AfterStores(old(Lookup(x)), stores, x) else Nil
      ensures forall x :: old(Lookup(x)) != Nil && (forall i :: 0 <= i < |stores| ==> stores[i] != (x, Nil)) ==> Lookup(x) != Nil
    {
      hide ChainsOk, KeysOk, FreeOk, ValueOf, Absent, KeySet, AfterStores;
      ghost var a0, n0 := arr, node;
      NothingStored(stores);
      assert stores[..|stores|] == stores;
      var i := 0;
      while i < |stores|
        invariant 0 <= i <= |stores| && Valid() && |arr| == |a0| && |node| == |n0|
        invariant forall m :: 0 <= m < |node| ==> node[m].key == n0[m].key
        invariant forall x :: Lookup(x) == if Field(|a0|, n0, x) then AfterStores(ValueOf(a0, n0, x), stores[..i], x) else Nil
        invariant forall x :: ValueOf(a0, n0, x) != Nil && (forall m :: 0 <= m < i ==> stores[m] != (x, Nil)) ==> Lookup(x) != Nil
      {
        StoredNext(a0, n0, stores, i);
        var s := Find(stores[i].0);
        SlotField(stores[i].0, s);
        if s != NoSlot {
          Store(s, stores[i].1, stores[i].0);
        }
        i := i + 1;
      }
      SameFields(a0, n0);
    }

    lemma SlotField(k: Value, s: Slot)
      requires SlotOf(k, s)
      ensures s != NoSlot <==> Field(|arr|, node, k)
    {
    }

    lemma NothingStored(stores: seq<(Value, Value)>)
      requires Valid()
      ensures forall x :: Lookup(x) == if Field(|arr|, node, x) then AfterStores(Lookup(x), stores[..0], x) else Nil
    {
      forall x ensures Lookup(x) == if Field(|arr|, node, x) then AfterStores(Lookup(x), stores[..0], x) else Nil {
        if !Field(|arr|, node, x) { NoField(arr, node, x); }
      }
    }

    /** What the next store does to the values stored so far. */
    lemma StoredNext(a0: seq<Value>, n0: seq<Node>, stores: seq<(Value, Value)>, i: nat)
      requires i < |stores| && |arr| == |a0| && |node| == |n0| && forall m :: 0 <= m < |node| ==> node[m].key == n0[m].key
      ensures forall x :: AfterStores(ValueOf(a0, n0, x), stores[..i + 1], x) == if stores[i].0 == x then stores[i].1 else AfterStores(ValueOf(a0, n0, x), stores[..i], x)
      ensures Field(|a0|, n0, stores[i].0) <==> Field(|arr|, node, stores[i].0)
    {
      hide ValueOf, AfterStores;
      forall x ensures AfterStores(ValueOf(a0, n0, x), stores[..i + 1], x) == if stores[i].0 == x then stores[i].1 else AfterStores(ValueOf(a0, n0, x), stores[..i], x) {
        AfterOne(ValueOf(a0, n0, x), stores, i, x);
      }
      SameFields(a0, n0);
    }

    lemma SameFields(a0: seq<Value>, n0: seq<Node>)
      requires |arr| == |a0| && |node| == |n0| && forall m :: 0 <= m < |node| ==> node[m].key == n0[m].key
      ensures forall x :: Field(|arr|, node, x) <==> Field(|a0|, n0, x)
    {
      forall x ensures Absent(node, x) <==> Absent(n0, x) {
        forall i ensures (Keyed(node, i) && node[i].key == x) <==> (Keyed(n0, i) && n0[i].key == x) { }
      }
    }


    /** A key with a value that is never set to nil. */
    ghost predicate Stays(v: Value, stores: seq<seq<(Value, Value)>>, x: Value) {
      v != Nil && forall i, j :: 0 <= i < |stores| && 0 <= j < |stores[i]| ==> stores[i][j] != (x, Nil)
    }

    lemma ValueHere(i: int)
      requires Valid() && 0 <= i < |arr| + |node| && KeyAt(i) != Nil
      ensures Lookup(KeyAt(i)) == ValueAt(i)
    {
      hide NextOk, PlaceOk, DistinctRanks;
      if i >= |arr| {
        assert Keyed(node, i - |arr|);
        AtNode(node, order, hash, i - |arr|);
      }
    }

    lemma HasIndex(x: Value) returns (i: int)
      requires Valid() && Lookup(x) != Nil
      ensures 0 <= i < |arr| + |node| && KeyAt(i) == x && x != Nil
    {
      hide NextOk, PlaceOk, DistinctRanks;
      if InPart(x, |arr|) {
        i := x.n - 1;
      } else {
        var n :| Keyed(node, n) && node[n].key == x;
        i := n + |arr|;
      }
    }

    /** The keys up to position `pos` that keep their values were visited. */
    ghost predicate Covered(a0: seq<Value>, n0: seq<Node>, stores: seq<seq<(Value, Value)>>, pos: int, visited: seq<Value>)
      reads this
    {
      forall i :: 0 <= i < pos && i < |arr| + |node| && Stays(ValueOf(a0, n0, KeyAt(i)), stores, KeyAt(i)) ==> KeyAt(i) in visited
    }

    /** The keys that keep their values have values. */
    ghost predicate Lasting(a0: seq<Value>, n0: seq<Node>, stores: seq<seq<(Value, Value)>>)
      reads this
    {
      forall x :: Stays(ValueOf(a0, n0, x), stores, x) ==> Lookup(x) != Nil
    }

    lemma Passed(a0: seq<Value>, n0: seq<Node>, stores: seq<seq<(Value, Value)>>, pos: int, to: int, visited: seq<Value>)
      requires Valid() && -1 <= pos && to <= |arr| + |node|
      requires Lasting(a0, n0, stores) && Covered(a0, n0, stores, pos + 1, visited)
      requires forall i :: pos < i < to ==> ValueAt(i) == Nil
      ensures Covered(a0, n0, stores, to, visited)
    {
      hide ChainsOk, Stays, ValueOf;
      forall i | pos < i < to ensures !Stays(ValueOf(a0, n0, KeyAt(i)), stores, KeyAt(i)) {
        if KeyAt(i) != Nil { ValueHere(i); } else { NoNil(); }
      }
    }

    /** The step from the key at `pos` to the next entry passes only keys without values. */
    lemma StepTo(a0: seq<Value>, n0: seq<Node>, stores: seq<seq<(Value, Value)>>, key: Value, pos: int, k: Value, visited: seq<Value>) returns (next: int)
      requires Valid() && IndexOf(key, pos) && pos >= -1 && Lasting(a0, n0, stores) && Covered(a0, n0, stores, pos + 1, visited)
      requires exists i, j :: IndexOf(key, i) && IndexOf(k, j) && i < j && forall m :: i < m < j ==> ValueAt(m) == Nil
      requires k != Nil
      ensures pos < next && IndexOf(k, next) && Covered(a0, n0, stores, next + 1, visited + [k])
    {
      hide ChainsOk, Stays, ValueOf;
      var i, j :| IndexOf(key, i) && IndexOf(k, j) && i < j && forall m :: i < m < j ==> ValueAt(m) == Nil;
      IndexUnique(key, i, pos);
      next := j;
      Passed(a0, n0, stores, pos, next, visited);
    }

    lemma AllVisited(a0: seq<Value>, n0: seq<Node>, stores: seq<seq<(Value, Value)>>, key: Value, pos: int, visited: seq<Value>)
      requires Valid() && IndexOf(key, pos) && pos >= -1 && Lasting(a0, n0, stores) && Covered(a0, n0, stores, pos + 1, visited)
      requires exists i :: IndexOf(key, i) && forall m :: i < m < |arr| + |node| ==> ValueAt(m) == Nil
      ensures forall x :: Stays(ValueOf(a0, n0, x), stores, x) ==> x in visited
    {
      hide ChainsOk, Stays, ValueOf;
      var i :| IndexOf(key, i) && forall m :: i < m < |arr| + |node| ==> ValueAt(m) == Nil;
      IndexUnique(key, i, pos);
      Passed(a0, n0, stores, pos, |arr| + |node|, visited);
      forall x | Stays(ValueOf(a0, n0, x), stores, x) ensures x in visited {
        var p := HasIndex(x);
      }
    }

    lemma NoNil()
      requires Valid()
      ensures Lookup(Nil) == Nil
    {
    }

    lemma InOrder(visited: seq<Value>, at: seq<int>)
      requires Valid() && |at| == |visited|
      requires forall i :: 0 <= i < |at| ==> at[i] >= 0 && IndexOf(visited[i], at[i])
      requires forall i, j :: 0 <= i < j < |at| ==> at[i] < at[j]
      ensures forall i, j :: 0 <= i < j < |visited| ==> visited[i] != visited[j] && (InPart(visited[j], |arr|) ==> InPart(visited[i], |arr|))
    {
      hide ChainsOk;
      forall i, j | 0 <= i < j < |visited| ensures visited[i] != visited[j] && (InPart(visited[j], |arr|) ==> InPart(visited[i], |arr|)) {
        if visited[i] == visited[j] { IndexUnique(visited[i], at[i], at[j]); }
        if InPart(visited[j], |arr|) { IndexUnique(visited[j], at[j], visited[j].n - 1); }
      }
    }

    /** The values after the first `d` groups of stores. */
    ghost predicate Standing(a0: seq<Value>, n0: seq<Node>, stores: seq<seq<(Value, Value)>>, d: nat)
      reads this
    {
      && d <= |stores| && (forall x :: Field(|arr|, node, x) <==> Field(|a0|, n0, x))
      && forall x :: Lookup(x) == if Field(|a0|, n0, x) then AfterSteps(ValueOf(a0, n0, x), stores[..d], x) else Nil
    }

    /** `v` was the value of `k` after that many groups of stores. */
    ghost predicate Seen(a0: seq<Value>, n0: seq<Node>, stores: seq<seq<(Value, Value)>>, d: nat, k: Value, v: Value) {
      d <= |stores| && Field(|a0|, n0, k) && v != Nil && v == AfterSteps(ValueOf(a0, n0, k), stores[..d], k)
    }

    lemma SeenHere(a0: seq<Value>, n0: seq<Node>, stores: seq<seq<(Value, Value)>>, d: nat, k: Value)
      requires Standing(a0, n0, stores, d) && Lookup(k) != Nil
      ensures Seen(a0, n0, stores, d, k, Lookup(k))
    {
    }

    /** A traversal with `next`, from nil to the end, with stores to existing fields after every
        step: no key comes twice, the array part comes before the hash part, and a key whose
        value never becomes nil comes once; each comes with the value it had when it came. */
    method Traverse(stores: seq<seq<(Value, Value)>>) returns (visited: seq<Value>, values: seq<Value>)
      requires Valid()
      modifies this`arr, this`node
      ensures Valid() && forall i, j :: 0 <= i < j < |visited| ==> visited[i] != visited[j] && (InPart(visited[j], |arr|) ==> InPart(visited[i], |arr|))
      ensures forall x :: Stays(old(Lookup(x)), stores, x) ==> x in visited
      ensures |values| == |visited| && forall i :: 0 <= i < |visited| ==>
        values[i] != Nil && old(Field(|arr|, node, visited[i])) &&
        values[i] == AfterSteps(old(Lookup(visited[i])), stores[..Least(i, |stores|)], visited[i])
      ensures forall x :: Lookup(x) == if old(Field(|arr|, node, x)) then AfterSteps(old(Lookup(x)), stores[..Least(|visited|, |stores|)], x) else Nil
    {
      hide ChainsOk, KeysOk, FreeOk, ValueOf, Absent, KeySet, LiveKeys, Covered, Lasting, Field, AfterSteps, Table.Standing, Table.Seen;
      ghost var a0, n0 := arr, node;
      visited, values := [], [];
      ghost var at: seq<int> := [];
      var key := Nil;
      ghost var pos := -1;
      NothingPassed(stores);
      while true
        invariant Valid() && |arr| == |a0| && |node| == |n0|
        invariant IndexOf(key, pos) && -1 <= pos < |arr| + |node| && |at| == |visited| == |values|
        invariant forall i :: 0 <= i < |at| ==> 0 <= at[i] <= pos && IndexOf(visited[i], at[i])
        invariant forall i, j :: 0 <= i < j < |at| ==> at[i] < at[j]
        invariant Covered(a0, n0, stores, pos + 1, visited) && Lasting(a0, n0, stores)
        invariant Standing(a0, n0, stores, Least(|visited|, |stores|))
        invariant forall i :: 0 <= i < |visited| ==> Seen(a0, n0, stores, Least(i, |stores|), visited[i], values[i])
        decreases |arr| + |node| - pos
      {
        IndexPresent(key, pos);
        var r := Next(key);
        if r == Done {
          AllVisited(a0, n0, stores, key, pos, visited);
          InOrder(visited, at);
          Told(a0, n0, stores, visited, values);
          return;
        }
        ghost var next := StepTo(a0, n0, stores, key, pos, r.key, visited);
        SeenHere(a0, n0, stores, Least(|visited|, |stores|), r.key);
        key, pos := r.key, next;
        visited, values, at := visited + [key], values + [r.val], at + [pos];
        if |visited| <= |stores| {
          StoreSome(stores, |visited| - 1, a0, n0, pos + 1, visited);
        }
      }
    }

    lemma Told(a0: seq<Value>, n0: seq<Node>, stores: seq<seq<(Value, Value)>>, visited: seq<Value>, values: seq<Value>)
      requires |values| == |visited| && Standing(a0, n0, stores, Least(|visited|, |stores|))
      requires forall i :: 0 <= i < |visited| ==> Seen(a0, n0, stores, Least(i, |stores|), visited[i], values[i])
      ensures forall i :: 0 <= i < |visited| ==>
        values[i] != Nil && Field(|a0|, n0, visited[i]) && values[i] == AfterSteps(ValueOf(a0, n0, visited[i]), stores[..Least(i, |stores|)], visited[i])
      ensures forall x :: Lookup(x) == if Field(|a0|, n0, x) then AfterSteps(ValueOf(a0, n0, x), stores[..Least(|visited|, |stores|)], x) else Nil
    {
    }

    lemma NothingPassed(stores: seq<seq<(Value, Value)>>)
      requires Valid()
      ensures Covered(arr, node, stores, 0, []) && Lasting(arr, node, stores) && Standing(arr, node, stores, 0)
    {
      hide ChainsOk, Field, ValueOf;
      forall x ensures Lookup(x) == if Field(|arr|, node, x) then AfterSteps(Lookup(x), stores[..0], x) else Nil {
        if !Field(|arr|, node, x) { NoField(arr, node, x); }
      }
    }

    method StoreSome(stores: seq<seq<(Value, Value)>>, n: nat, ghost a0: seq<Value>, ghost n0: seq<Node>, ghost pos: int, ghost visited: seq<Value>)
      requires Valid() && n < |stores| && Covered(a0, n0, stores, pos, visited) && Lasting(a0, n0, stores) && Standing(a0, n0, stores, n)
      modifies this`arr, this`node
      ensures Valid() && |arr| == |old(arr)| && |node| == |old(node)|
      ensures forall k, i :: IndexOf(k, i) <==> old(IndexOf(k, i))
      ensures Covered(a0, n0, stores, pos, visited) && Lasting(a0, n0, stores) && Standing(a0, n0, stores, n + 1)
    {
      hide ChainsOk, KeysOk, FreeOk, ValueOf, Field, AfterSteps, AfterStores;
      forall x ensures AfterSteps(ValueOf(a0, n0, x), stores[..n + 1], x) == AfterStores(AfterSteps(ValueOf(a0, n0, x), stores[..n], x), stores[n], x) {
        AfterStep(ValueOf(a0, n0, x), stores, n, x);
      }
      StoreExisting(stores[n]);
      assert forall i :: 0 <= i < |arr| + |node| ==> KeyAt(i) == old(KeyAt(i));
    }

    // -------------------------------------------------------------- length

    /** `n` is 0 or the index of an element, and there is no element after it. */
    ghost predicate Boundary(n: int)
      reads this
    {
      n >= 0 && (n == 0 || Lookup(Int(n)) != Nil) && Lookup(Int(n + 1)) == Nil
    }

    /** luaH_getn */
    method GetN() returns (n: nat)
      requires Valid()
      ensures Boundary(n)
    {
      hide ChainsOk, KeysOk, FreeOk;
      var j := |arr|;
      if j > 0 && arr[j - 1] == Nil {
        var i := 0;
        while j - i > 1
          invariant 0 <= i < j <= |arr| && arr[j - 1] == Nil && (i > 0 ==> arr[i - 1] != Nil)
        {
          var m := (i + j) / 2;
          if arr[m - 1] == Nil { j := m; } else { i := m; }
        }
        return i;
      }
      if dummy {
        NothingInDummy(Int(j + 1));
        return j;
      }
      n := UnboundSearch(j);
    }

    lemma NothingInDummy(k: Value)
      requires node == [FREE]
      ensures At(node, k) == Nil
    {
    }

    /** No integer key is larger than the result. */
    lemma LastKey() returns (b: nat)
      requires Valid()
      ensures forall n :: n > b ==> Lookup(Int(n)) == Nil
    {
      hide NextOk, PlaceOk, DistinctRanks, DistinctKeys;
      b := |arr|;
      var i := 0;
      while i < |node|
        invariant 0 <= i <= |node| && b >= |arr|
        invariant forall m :: 0 <= m < i && node[m].key.Int? ==> node[m].key.n <= b
      {
        if node[i].key.Int? && node[i].key.n > b { b := node[i].key.n; }
        i := i + 1;
      }
    }

    /** unbound_search: `j0` is zero or a present index. */
    method UnboundSearch(j0: nat) returns (n: nat)
      requires Valid() && (j0 == 0 || Lookup(Int(j0)) != Nil) && j0 <= MAX_INT
      ensures Boundary(n)
    {
      hide ChainsOk, KeysOk, FreeOk, ValueOf;
      var i, j := j0, j0 + 1;
      var v := Get(Int(j));
      while v != Nil
        invariant 0 <= i < j <= MAX_INT + 1 && (i == 0 || Lookup(Int(i)) != Nil) && v == Lookup(Int(j))
        decreases 2 * MAX_INT - j
      {
        i := j;
        j := j * 2;
        if j > MAX_INT {
          n := LinearSearch();
          return;
        }
        v := Get(Int(j));
      }
      while j - i > 1
        invariant 0 <= i < j && (i == 0 || Lookup(Int(i)) != Nil) && Lookup(Int(j)) == Nil
      {
        var m := (i + j) / 2;
        v := Get(Int(m));
        if v == Nil { j := m; } else { i := m; }
      }
      n := i;
    }

    method LinearSearch() returns (n: nat)
      requires Valid()
      ensures Boundary(n)
    {
      hide ChainsOk, KeysOk, FreeOk, ValueOf;
      ghost var b := LastKey();
      var i := 1;
      var v := Get(Int(i));
      while v != Nil
        invariant i >= 1 && v == Lookup(Int(i)) && (i == 1 || Lookup(Int(i - 1)) != Nil)
        decreases b + 1 - i
      {
        i := i + 1;
        v := Get(Int(i));
      }
      n := i - 1;
    }

    // -------------------------------------------------------------- the table as a map

    /** The entries of the table. */
    ghost function Contents(): map<Value, Value>
      reads this
    {
      map k | k in Live() :: Lookup(k)
    }

    lemma ContentsAre(k: Value)
      requires Valid()
      ensures k in Contents() <==> Lookup(k) != Nil
    {
      LiveIff(arr, node, order, hash, k);
    }

    /** A store in Lua: the entries change like those of a map, an entry with value nil being
        no entry. */
    method SetTable(key: Value, v: Value) returns (r: Result)
      requires Valid()
      modifies this
      ensures r.Ok? ==> Valid() && Contents() == if v == Nil then old(Contents()) - {key} else old(Contents())[key := v]
      ensures r.Err? && key != Nil && key != NaN ==> r.error == Overflow && |old(Contents())| >= MAXASIZE
      ensures key == Nil || key == NaN ==> r.Err? && Contents() == old(Contents())
    {
      hide ChainsOk, KeysOk, FreeOk, LiveKeys, ValueOf;
      forall k ensures k in Contents() <==> Lookup(k) != Nil { ContentsAre(k); }
      assert Contents().Keys == Live();
      ghost var c0 := Contents();
      r := Put(key, v);
      if r.Ok? {
        forall k ensures k in Contents() <==> Lookup(k) != Nil { ContentsAre(k); }
      }
    }
  }
}
