/** One stock's book over the shared slot pool and the shared index. */
module OrderBookModel {
  import opened Exchange
  import opened Snapshots
  import opened Types
  import opened Matching
  import opened Chains
  import opened SideRep
  import opened SideUpdates
  import opened Volumes
  import opened OrderPoolModel
  import opened IndexValue
  import opened OrderMapModel
  import opened BookMem

  /** In-order iteration of a std::map: the best key strictly behind `after` (or the best of all). */
  method NextKey(side: Side, levels: map<u32, PriceLevel>, after: Option<u32>) returns (r: Option<u32>)
    ensures r.None? ==> forall p :: p in levels ==> after.Some? && !Ahead(side, after.value, p)
    ensures r.Some? ==>
              && r.value in levels
              && (after.Some? ==> Ahead(side, after.value, r.value))
              && forall p :: p in levels && (after.Some? ==> Ahead(side, after.value, p)) ==> !Ahead(side, p, r.value)
  {
    r := None;
    var todo := levels.Keys;
    while todo != {}
      invariant todo <= levels.Keys
      invariant r.None? ==> forall p :: p in levels && p !in todo ==> after.Some? && !Ahead(side, after.value, p)
      invariant r.Some? ==>
                  && r.value in levels
                  && (after.Some? ==> Ahead(side, after.value, r.value))
                  && forall p :: p in levels && p !in todo && (after.Some? ==> Ahead(side, after.value, p)) ==>
                       !Ahead(side, p, r.value)
      decreases todo
    {
      var p :| p in todo;
      todo := todo - {p};
      if (after.None? || Ahead(side, after.value, p)) && (r.None? || Ahead(side, p, r.value)) {
        r := Some(p);
      }
    }
  }

  /** The top of a book, from its orders: the best price and the total remaining at it, modulo 2^32. */
  ghost function Top(bids: seq<OrderData>, asks: seq<OrderData>): TopOfBook {
    TopOfBook(
      if bids == [] then 0 else bids[0].price, if bids == [] then 0 else SumAt(bids, bids[0].price) % TWO32,
      if asks == [] then 0 else asks[0].price, if asks == [] then 0 else SumAt(asks, asks[0].price) % TWO32)
  }

  /** The best price of a half, highest of the bids or lowest of the asks, and the volume at it modulo 2^32; zeros if empty. */
  ghost predicate BestOf(side: Side, q: seq<OrderData>, price: u32, volume: u32) {
    if q == [] then price == 0 && volume == 0
    else
      && (exists i :: 0 <= i < |q| && q[i].price == price)
      && (forall i :: 0 <= i < |q| ==> if side == Buy then q[i].price <= price else q[i].price >= price)
      && volume == VolumeAt(q, price) % 0x1_0000_0000
  }

  lemma TopIsBest(bids: seq<OrderData>, asks: seq<OrderData>)
    requires Sorted(Buy, bids) && Sorted(Sell, asks)
    ensures var top := Top(bids, asks);
      BestOf(Buy, bids, top.bidPrice, top.bidVolume) && BestOf(Sell, asks, top.askPrice, top.askVolume)
  {
    FirstIsBest(Buy, bids);
    FirstIsBest(Sell, asks);
  }

  lemma FirstIsBest(side: Side, q: seq<OrderData>)
    requires Sorted(side, q) && side != Invalid
    ensures q != [] ==> BestOf(side, q, q[0].price, SumAt(q, q[0].price) % TWO32)
  {
    if q != [] {
      SumIsVolume(q, q[0].price);
    }
    forall i | 0 <= i < |q| ensures if side == Buy then q[i].price <= q[0].price else q[i].price >= q[0].price {
      assert i > 0 ==> !Ahead(side, q[i].price, q[0].price);
    }
  }

  class OrderBook {
    ghost const locate: nat
    const pool: OrderPool
    const index: OrderMap
    var bids: map<u32, PriceLevel>
    var asks: map<u32, PriceLevel>
    ghost var bidQ: seq<nat>
    ghost var askQ: seq<nat>

    constructor (ghost locate: nat, pool: OrderPool, index: OrderMap)
      ensures this.locate == locate && this.pool == pool && this.index == index
      ensures bids == map[] && asks == map[] && bidQ == [] && askQ == []
    {
      this.locate, this.pool, this.index := locate, pool, index;
      bids, asks, bidQ, askQ := map[], map[], [], [];
    }

    ghost function M(): Mem
      reads this, pool, pool.storage
    {
      Mem(pool.storage[..], pool.owner, pool.headIdx, pool.free, bids, asks, bidQ, askQ)
    }

    /** One half of the book as orders in priority order. */
    ghost function Orders(side: Side): seq<OrderData>
      reads this, pool, pool.storage
    {
      OrdersOf(M(), side)
    }

    /** The book is well formed and the free count is exact; the index may be mid-update. */
    ghost predicate Sound()
      reads this, pool, pool.storage
    {
      MemOk(M(), locate) && pool.size == pool.storage.Length - |pool.free|
    }

    /** Every resting order of every book can be found. */
    ghost predicate AllIndexed()
      reads this, pool, pool.storage, index
    {
      IndexFull(M(), index.m)
    }

    ghost predicate Valid()
      reads this, pool, pool.storage, index, index.nodes, index.buckets, index.bucketLen, index.states
    {
      && pool !in index.Repr() && pool.storage !in index.Repr() && this !in index.Repr()
      && Sound() && index.Valid() && IndexSound(M(), index.m) && UniqueIds(M()) && Proper(M())
    }

    /** The slot writes of appending to level l. */
    method WriteTail(x: u32, order: Order, l: PriceLevel)
      requires x < pool.storage.Length <= NIL && (l.count > 0 ==> l.tailIdx < pool.storage.Length)
      modifies pool.storage
      ensures pool.storage[..] == AppendSlots(old(pool.storage[..]), x, order, l)
    {
      if l.count == 0 {
        pool.storage[x] := order.(prevIdx := NIL, nextIdx := NIL);
      } else {
        pool.storage[x] := order.(prevIdx := l.tailIdx, nextIdx := NIL);
        pool.storage[l.tailIdx] := pool.storage[l.tailIdx].(nextIdx := x);
      }
    }

    /** Append an allocated slot at the back of its price level. */
    method Link(x: u32, order: Order)
      requires Sound() && order.data.side != Invalid
      requires x < pool.storage.Length && x < |pool.owner| && pool.owner[x] == Loose
      modifies this`bids, this`asks, this`bidQ, this`askQ, pool`owner, pool.storage
      ensures Sound() && OthersSame(old(M()), M(), locate)
      ensures Orders(order.data.side) == Insert(old(Orders(order.data.side)), order.data)
      ensures Orders(Opposite(order.data.side)) == old(Orders(Opposite(order.data.side)))
      ensures pool.owner == old(pool.owner)[x := Resting(locate, order.data.side)]
      ensures pool.storage[x].data == order.data && OnlyAt(old(M()), M(), x)
    {
      hide MemOk, OrdersOf, RestPos, OthersSame, OnlyAt, Insert, AppendSlots, InsertAt;
      ghost var t := M();
      var side, p := order.data.side, order.data.price;
      LinkOk(t, locate, x, order);
      var l := LevelAt(if side == Buy then bids else asks, p);
      var l' := PriceLevel(l.headIdx, x, l.count + 1, Wrap32(l.totalQty + order.data.remainingQty));
      if l.count == 0 {
        l' := l'.(headIdx := x);
      }
      WriteTail(x, order, l);
      pool.owner := pool.owner[x := Resting(locate, side)];
      ghost var t' := LinkSlot(t, locate, x, order);
      if side == Buy {
        bids, bidQ := bids[p := l'], t'.bidQ;
      } else {
        asks, askQ := asks[p := l'], t'.askQ;
      }
      assert M() == t';
    }
  
    /** Pop a slot for a new order; the book itself does not change. */
    method TakeFromPool() returns (x: u32)
      requires Sound()
      modifies pool
      ensures Sound()
      ensures old(pool.free) == [] ==> x == NIL && unchanged(pool)
      ensures old(pool.free) != [] ==>
                && x < pool.storage.Length && x < |old(pool.owner)| && x == old(pool.free)[0]
                && !old(pool.owner)[x].Resting?
                && pool.owner == old(pool.owner)[x := Loose]
                && pool.free == old(pool.free)[1..]
                && OthersSame(old(M()), M(), locate) && OnlyAt(old(M()), M(), x)
                && Orders(Buy) == old(Orders(Buy)) && Orders(Sell) == old(Orders(Sell))
    {
      hide MemOk, OrdersOf, OthersSame, OnlyAt, PoolOk, HalfOk, InRange;
      ghost var t := M();
      MemShape(t, locate, Buy);
      if pool.free != [] {
        TakeOk(t, locate);
      }
      x := pool.Allocate();
      assert t.free != [] ==> M() == TakeSlot(t);
    }

    /** An index with as many nodes as the pool has slots, and none stranded, has a node whenever the pool has a slot. */
    lemma IndexHasRoom()
      requires Valid() && pool.free != []
      requires index.NoTrees() && index.nodes.Length >= pool.storage.Length
      ensures index.free != []
    {
      hide SideOk, UniqueIds;
      TakeOk(M(), locate);
      IndexSmaller(M(), index.m, pool.free[0]);
      RoomWithoutTrees(index.Snap());
    }

    /** Allocate a slot and link the order into it; the index is not told yet. */
    method Place(order: Order) returns (x: u32)
      requires Sound() && IndexSound(M(), index.m) && UniqueIds(M()) && FreshId(M(), order.data.orderId)
      requires order.data.side != Invalid
      modifies this`bids, this`asks, this`bidQ, this`askQ, pool, pool.storage
      ensures Sound() && OthersSame(old(M()), M(), locate) && UniqueIds(M()) && IndexSound(M(), index.m)
      ensures old(pool.free) == [] ==> x == NIL && M() == old(M())
      ensures old(pool.free) != [] ==>
                && x != NIL && order.data.orderId !in index.m && x < |old(pool.owner)|
                && pool.owner == old(pool.owner)[x := Resting(locate, order.data.side)]
                && (old(AllIndexed()) ==> IndexFull(M(), index.m[order.data.orderId := x]))
                && IndexSound(M(), index.m[order.data.orderId := x]) && OnlyAt(old(M()), M(), x) && x == old(pool.free)[0]
                && pool.storage[x].data == order.data
                && pool.free == old(pool.free)[1..]
                && Orders(order.data.side) == Insert(old(Orders(order.data.side)), order.data)
                && Orders(Opposite(order.data.side)) == old(Orders(Opposite(order.data.side)))
    {
      hide MemOk, OrdersOf, OthersSame, OnlyAt, Insert, IndexSound, UniqueIds, FreshId, IndexFull, HalfOk, InRange, PoolOk;
      ghost var t := M();
      MemShape(t, locate, Buy);
      x := TakeFromPool();
      ghost var t1 := M();
      if x == NIL {
        assert t1 == t;
        OthersRefl(t, locate);
        return;
      }
      Link(x, order);
      OthersTrans(t, t1, M(), locate);
      OnlyTrans(t, t1, M(), x);
      SharedInsert(t, M(), index.m, x, order.data.orderId);
    }

    /**
      Rest an order behind every order that keeps priority over it. The result of the index insert is ignored, as in
      the source: `indexed` says whether the id became findable, which is certain while no bucket is treeified.
     */
    method AddOrder(order: Order) returns (ok: bool, ghost indexed: bool)
      requires Valid() && FreshId(M(), order.data.orderId)
      modifies this, pool, pool.storage, index, index.nodes, index.buckets, index.bucketLen, index.states
      ensures Valid() && OthersSame(old(M()), M(), locate)
      ensures ok <==> order.data.side != Invalid && old(pool.free) != []
      ensures !ok ==> M() == old(M()) && index.m == old(index.m) && !indexed
      ensures ok ==>
                && old(pool.free) != [] && pool.free == old(pool.free)[1..]
                && OnlyAt(old(M()), M(), old(pool.free)[0]) && pool.storage[old(pool.free)[0]].data == order.data
                && Orders(order.data.side) == Insert(old(Orders(order.data.side)), order.data)
                && Orders(Opposite(order.data.side)) == old(Orders(Opposite(order.data.side)))
                && index.m.Keys == (if indexed then old(index.m).Keys + {order.data.orderId} else old(index.m).Keys)
      ensures ok && old(index.NoTrees()) && index.nodes.Length >= pool.storage.Length ==> indexed
      ensures ok && old(index.free) != [] ==> indexed
      ensures indexed == (ok && Accepts(old(index.Value()), order.data.orderId))
      ensures index.Value() == if ok then Bind(old(index.Value()), order.data.orderId) else old(index.Value())
      ensures old(AllIndexed()) && (ok ==> indexed) ==> AllIndexed()
    {
      hide MemOk, OrdersOf, OthersSame, OnlyAt, Insert, IndexSound, UniqueIds, FreshId, OrderMap.Valid, IndexFull, HalfOk,
           InRange, PoolOk, Accepts, Bind;
      if order.data.side == Invalid {
        MemShape(M(), locate, Buy);
        OthersRefl(M(), locate);
        return false, false;
      }
      if pool.free != [] && index.NoTrees() && index.nodes.Length >= pool.storage.Length {
        IndexHasRoom();
      }
      var x := Place(order);
      if x == NIL {
        return false, false;
      }
      ok := index.Insert(order.data.orderId, x);
      return true, ok;
    }

    ghost function Queue(side: Side): seq<nat>
      reads this
    {
      if side == Buy then bidQ else askQ
    }

    /** The slot writes of unlinking slot x. */
    method WriteJoin(x: u32)
      requires x < pool.storage.Length
      requires pool.storage[x].prevIdx == NIL || pool.storage[x].prevIdx < pool.storage.Length
      requires pool.storage[x].nextIdx == NIL || pool.storage[x].nextIdx < pool.storage.Length
      requires pool.storage[x].prevIdx != x
      modifies pool.storage
      ensures pool.storage[..] == UnlinkSlots(old(pool.storage[..]), x)
    {
      var prev, next := pool.storage[x].prevIdx, pool.storage[x].nextIdx;
      if prev != NIL {
        pool.storage[prev] := pool.storage[prev].(nextIdx := next);
      }
      if next != NIL {
        pool.storage[next] := pool.storage[next].(prevIdx := prev);
      }
    }

    /** The level update of unlinking order o in slot x: ends, count, volume, and erasing an emptied level. */
    method ShrinkLevel(x: u32, o: Order)
      requires var levels := if o.data.side == Buy then bids else asks;
               o.data.price in levels && levels[o.data.price].count > 0
      modifies this`bids, this`asks
      ensures var p := o.data.price;
        if o.data.side == Buy
        then bids == DropFrom(old(bids), p, UnlinkedLevel(old(bids)[p], x, o)) && asks == old(asks)
        else asks == DropFrom(old(asks), p, UnlinkedLevel(old(asks)[p], x, o)) && bids == old(bids)
    {
      var p := o.data.price;
      var l := if o.data.side == Buy then bids[p] else asks[p];
      if l.headIdx == x {
        l := l.(headIdx := o.nextIdx);
      }
      if l.tailIdx == x {
        l := l.(tailIdx := o.prevIdx);
      }
      l := l.(count := l.count - 1, totalQty := Wrap32(l.totalQty - o.data.remainingQty));
      if o.data.side == Buy {
        bids := if l.count == 0 then bids - {p} else bids[p := l];
      } else {
        asks := if l.count == 0 then asks - {p} else asks[p := l];
      }
    }

    /** Take slot x, at position k of its half, out of its list and level; the slot is not yet freed. */
    method Unlink(x: u32, ghost side: Side, ghost k: nat)
      requires Sound() && side != Invalid && k < |Queue(side)| && Queue(side)[k] == x
      modifies this`bids, this`asks, this`bidQ, this`askQ, pool`owner, pool.storage
      ensures Sound() && OthersSame(old(M()), M(), locate) && OnlyAt(old(M()), M(), x)
      ensures x < pool.storage.Length && pool.storage[x].data == old(pool.storage[x]).data
      ensures x < |old(pool.owner)| && old(pool.owner)[x] == Resting(locate, side)
      ensures pool.owner == old(pool.owner)[x := Loose]
      ensures k < |old(Orders(side))| && Orders(side) == RemoveAt(old(Orders(side)), k)
      ensures Orders(Opposite(side)) == old(Orders(Opposite(side)))
    {
      hide MemOk, OrdersOf, OthersSame, OnlyAt, UnlinkSlots, RemoveAt, DropFrom, UnlinkedLevel;
      ghost var t := M();
      UnlinkOk(t, locate, side, k);
      NotOwnPrev(t, locate, side, k);
      var o := pool.storage[x];
      WriteJoin(x);
      ShrinkLevel(x, o);
      ghost var t' := UnlinkSlot(t, x, k);
      bidQ, askQ := t'.bidQ, t'.askQ;
      pool.owner := pool.owner[x := Loose];
      assert M() == t';
    }

    /** Return an unlinked slot to the pool; the book itself does not change. */
    method GiveToPool(x: u32)
      requires Sound() && x < pool.storage.Length && x < |pool.owner| && pool.owner[x] == Loose
      modifies pool, pool.storage
      ensures Sound() && OthersSame(old(M()), M(), locate) && OnlyAt(old(M()), M(), x)
      ensures pool.free == [x as nat] + old(pool.free) && pool.owner == old(pool.owner)[x := Free]
      ensures Orders(Buy) == old(Orders(Buy)) && Orders(Sell) == old(Orders(Sell))
    {
      hide MemOk, OrdersOf, OthersSame, OnlyAt, PoolOk, HalfOk, InRange;
      ghost var t := M();
      MemShape(t, locate, Buy);
      GiveOk(t, locate, x);
      pool.Deallocate(x);
      assert M() == GiveSlot(t, x);
    }

    /** removeOrder by pointer: unlink, drop the index entry, free the slot. */
    method RemoveOrder(x: u32, ghost side: Side, ghost k: nat)
      requires Valid() && side != Invalid && k < |Queue(side)| && Queue(side)[k] == x
      modifies this, pool, pool.storage, index, index.nodes, index.buckets, index.bucketLen
      ensures Valid() && OthersSame(old(M()), M(), locate)
      ensures pool.free == [x as nat] + old(pool.free)
      ensures k < |old(Orders(side))| && Orders(side) == RemoveAt(old(Orders(side)), k)
      ensures Orders(Opposite(side)) == old(Orders(Opposite(side)))
      ensures index.m == old(index.m) - {old(Orders(side))[k].orderId}
      ensures index.Value() == Unbind(old(index.Value()), old(Orders(side))[k].orderId)
      ensures old(AllIndexed()) ==> AllIndexed()
    {
      hide MemOk, OrdersOf, OthersSame, OnlyAt, RemoveAt, IndexSound, UniqueIds, PoolOk, OrderMap.Valid, IndexFull, Unbind;
      ghost var t := M();
      OrderInSlot(t, locate, side, k);
      Unlink(x, side, k);
      ghost var t1 := M();
      index.Erase(pool.storage[x].data.orderId);
      GiveToPool(x);
      OthersTrans(t, t1, M(), locate);
      OnlyTrans(t, t1, M(), x);
      SharedRemove(t, M(), old(index.m), x);
    }
  
    /** Overwrite the order in slot x with a smaller remainder and adjust the level volume. */
    method Rewrite(x: u32, d: OrderData, ghost side: Side, ghost k: nat)
      requires Valid() && side != Invalid && k < |Queue(side)| && Queue(side)[k] == x && x < pool.storage.Length
      requires d.price == pool.storage[x].data.price && d.side == pool.storage[x].data.side
      requires d.orderId == pool.storage[x].data.orderId && d.remainingQty <= pool.storage[x].data.remainingQty
      modifies this`bids, this`asks, pool.storage
      ensures Valid() && OthersSame(old(M()), M(), locate)
      ensures k < |old(Orders(side))| && Orders(side) == old(Orders(side))[k := d]
      ensures Orders(Opposite(side)) == old(Orders(Opposite(side)))
      ensures old(AllIndexed()) ==> AllIndexed()
    {
      hide MemOk, OrdersOf, OthersSame, OnlyAt, IndexSound, UniqueIds, OrderMap.Valid, IndexFull;
      ghost var t := M();
      OrderInSlot(t, locate, side, k);
      ReduceOk(t, locate, side, k, d);
      var amount := pool.storage[x].data.remainingQty - d.remainingQty;
      if d.side == Buy {
        bids := bids[d.price := bids[d.price].(totalQty := Wrap32(bids[d.price].totalQty - amount))];
      } else {
        asks := asks[d.price := asks[d.price].(totalQty := Wrap32(asks[d.price].totalQty - amount))];
      }
      pool.storage[x] := pool.storage[x].(data := d);
      assert M() == ReduceSlot(t, x, d);
      SharedRewrite(t, M(), index.m, x);
    }

    /** A fill: remaining falls and filled rises by the same amount. */
    method ReduceOrderQty(x: u32, amount: u32, ghost side: Side, ghost k: nat)
      requires Valid() && side != Invalid && k < |Queue(side)| && Queue(side)[k] == x && x < pool.storage.Length
      requires amount <= pool.storage[x].data.remainingQty
      modifies this`bids, this`asks, pool.storage
      ensures Valid() && OthersSame(old(M()), M(), locate) && k < |old(Orders(side))|
      ensures Orders(side) == old(Orders(side))[k := Traded(old(Orders(side))[k], amount)]
      ensures Orders(Opposite(side)) == old(Orders(Opposite(side)))
      ensures old(AllIndexed()) ==> AllIndexed()
    {
      hide MemOk, OrdersOf, OthersSame, IndexSound, UniqueIds, OrderMap.Valid, IndexFull;
      OrderInSlot(M(), locate, side, k);
      var d := pool.storage[x].data;
      Rewrite(x, d.(remainingQty := d.remainingQty - amount, filledQty := Wrap32(d.filledQty + amount)), side, k);
    }

    /** A partial cancel: remaining falls, filled does not move. */
    method ReduceQtyCancel(x: u32, amount: u32, ghost side: Side, ghost k: nat)
      requires Valid() && side != Invalid && k < |Queue(side)| && Queue(side)[k] == x && x < pool.storage.Length
      requires amount <= pool.storage[x].data.remainingQty
      modifies this`bids, this`asks, pool.storage
      ensures Valid() && OthersSame(old(M()), M(), locate) && k < |old(Orders(side))|
      ensures Orders(side) == old(Orders(side))[k := Shrunk(old(Orders(side))[k], amount)]
      ensures Orders(Opposite(side)) == old(Orders(Opposite(side)))
      ensures old(AllIndexed()) ==> AllIndexed()
    {
      hide MemOk, OrdersOf, OthersSame, IndexSound, UniqueIds, OrderMap.Valid, IndexFull;
      OrderInSlot(M(), locate, side, k);
      var d := pool.storage[x].data;
      Rewrite(x, d.(remainingQty := d.remainingQty - amount), side, k);
    }

    /** A direct store to a resting order's status field. */
    method SetStatus(x: u32, status: Status, ghost side: Side, ghost k: nat)
      requires Valid() && side != Invalid && k < |Queue(side)| && Queue(side)[k] == x && x < pool.storage.Length
      modifies this`bids, this`asks, pool.storage
      ensures Valid() && OthersSame(old(M()), M(), locate) && k < |old(Orders(side))|
      ensures Orders(side) == old(Orders(side))[k := old(Orders(side))[k].(status := status)]
      ensures Orders(Opposite(side)) == old(Orders(Opposite(side)))
      ensures old(AllIndexed()) ==> AllIndexed()
    {
      hide MemOk, OrdersOf, OthersSame, IndexSound, UniqueIds, OrderMap.Valid, IndexFull;
      OrderInSlot(M(), locate, side, k);
      Rewrite(x, pool.storage[x].data.(status := status), side, k);
    }

    /** getBestBid / getBestAsk: the first order in priority order not owned by `exclude` (0 excludes nobody). */
    method GetBest(side: Side, exclude: u64) returns (r: Option<u32>)
      requires Sound() && side != Invalid
      ensures r.None? <==> FirstOther(exclude, Orders(side)) == |Orders(side)|
      ensures r.Some? ==>
                var k := FirstOther(exclude, Orders(side)); k < |Queue(side)| && r.value == Queue(side)[k]
    {
      hide MemOk, OrdersOf, Ahead, Sorted, Totals, FirstOther;
      ghost var t := M();
      ghost var v, Q := Orders(side), Queue(side);
      var levels := if side == Buy then bids else asks;
      var key := NextKey(side, levels, None);
      LevelsAndOrders(t, locate, side);
      FirstLevel(side, levels, v, key);
      ghost var k := 0;
      if exclude == 0 {
        FirstOtherIs(exclude, v, 0);
        if key.None? {
          return None;
        }
        LevelHead(t, locate, side, 0);
        return Some(levels[key.value].headIdx);
      }
      while key.Some?
        invariant 0 <= k <= |v|
        invariant key.None? <==> k == |v|
        invariant key.Some? ==> key.value == v[k].price && (k > 0 ==> v[k - 1].price != v[k].price)
        invariant forall i :: 0 <= i < k ==> Own(exclude, v[i])
        decreases |v| - k
      {
        LevelHead(t, locate, side, k);
        var idx := levels[key.value].headIdx;
        ghost var start := k;
        LevelStep(t, locate, side, k);
        while idx != NIL
          invariant start <= k <= |v| == |Q|
          invariant idx != NIL ==> k < |v| && idx == Q[k] && v[k].price == key.value
          invariant k > start ==> v[k - 1].price == key.value
          invariant idx == NIL ==> k > start && (k < |v| ==> v[k].price != key.value)
          invariant forall i :: 0 <= i < k ==> Own(exclude, v[i])
          decreases |v| - k
        {
          LevelStep(t, locate, side, k);
          if pool.storage[idx].data.userId != exclude {
            FirstOtherIs(exclude, v, k);
            return Some(idx);
          }
          idx := pool.storage[idx].nextIdx;
          k := k + 1;
        }
        var next := NextKey(side, levels, key);
        LaterLevel(side, levels, v, k, next);
        key := next;
      }
      FirstOtherIs(exclude, v, k);
      return None;
    }
  
    /** One side of a snapshot, appended to what is already written: best level first, each in queue order. */
    method SaveHalf(side: Side, stream: seq<Order>, seqSeen: u64, idSeen: u64)
      returns (out: seq<Order>, maxSeq: u64, maxId: u64)
      requires Sound() && side != Invalid
      requires seqSeen == MaxSeq(Datas(stream)) && idSeen == MaxId(Datas(stream))
      ensures Datas(out) == Datas(stream) + Orders(side)
      ensures maxSeq == MaxSeq(Datas(out)) && maxId == MaxId(Datas(out))
    {
      hide MemOk, OrdersOf, Ahead, Sorted, Totals, MaxSeq, MaxId, Datas;
      ghost var t := M();
      ghost var v, Q := Orders(side), Queue(side);
      var levels := if side == Buy then bids else asks;
      var key := NextKey(side, levels, None);
      LevelsAndOrders(t, locate, side);
      FirstLevel(side, levels, v, key);
      out, maxSeq, maxId := stream, seqSeen, idSeen;
      ghost var k := 0;
      while key.Some?
        invariant 0 <= k <= |v|
        invariant key.None? <==> k == |v|
        invariant key.Some? ==> key.value == v[k].price && (k > 0 ==> v[k - 1].price != v[k].price)
        invariant Datas(out) == Datas(stream) + v[..k] && maxSeq == MaxSeq(Datas(out)) && maxId == MaxId(Datas(out))
        decreases |v| - k
      {
        LevelHead(t, locate, side, k);
        var idx := levels[key.value].headIdx;
        ghost var start := k;
        LevelStep(t, locate, side, k);
        while idx != NIL
          invariant start <= k <= |v| == |Q|
          invariant idx != NIL ==> k < |v| && idx == Q[k] && v[k].price == key.value
          invariant k > start ==> v[k - 1].price == key.value
          invariant idx == NIL ==> k > start && (k < |v| ==> v[k].price != key.value)
          invariant Datas(out) == Datas(stream) + v[..k] && maxSeq == MaxSeq(Datas(out)) && maxId == MaxId(Datas(out))
          decreases |v| - k
        {
          LevelStep(t, locate, side, k);
          StreamStep(out, pool.storage[idx]);
          var o := pool.storage[idx].data;
          if o.sequence > maxSeq {
            maxSeq := o.sequence;
          }
          if o.orderId > maxId {
            maxId := o.orderId;
          }
          out := out + [pool.storage[idx]];
          idx := pool.storage[idx].nextIdx;
          k := k + 1;
          assert v[..k] == v[..k - 1] + [v[k - 1]];
        }
        var next := NextKey(side, levels, key);
        LaterLevel(side, levels, v, k, next);
        key := next;
      }
      assert v[..k] == v;
    }

    /** The order stream of a snapshot, and the largest id in it. */
    method SaveSnapshot() returns (stream: seq<Order>, maxId: u64)
      requires Sound()
      ensures Datas(stream) == Orders(Buy) + Orders(Sell) == Stream(Book(Orders(Buy), Orders(Sell)))
      ensures maxId == MaxId(Datas(stream))
    {
      hide MemOk, OrdersOf;
      assert Datas([]) == [];
      var maxSeq: u64;
      stream, maxSeq, maxId := SaveHalf(Buy, [], 0, 0);
      stream, maxSeq, maxId := SaveHalf(Sell, stream, maxSeq, maxId);
    }

    /** Volume a taker on `side` can reach, summed level by level in 32-bit arithmetic. */
    method AvailableQty(side: Side, price: u32) returns (total: u32)
      requires Sound()
      ensures total == ReachQty(side, price, Orders(Opposite(side))) % TWO32
    {
      hide MemOk, OrdersOf, Ahead, Sorted, Totals, ReachQty, Reaches, Wrap32;
      var opp := Opposite(side);
      ghost var t := M();
      ghost var v, Q := Orders(opp), Queue(opp);
      var levels := if opp == Buy then bids else asks;
      var key := NextKey(opp, levels, None);
      LevelsAndOrders(t, locate, opp);
      FirstLevel(opp, levels, v, key);
      total := 0;
      ghost var k := 0;
      NoneReach(side, price, v[..0]);
      while key.Some?
        invariant 0 <= k <= |v|
        invariant key.None? <==> k == |v|
        invariant key.Some? ==> key.value == v[k].price && (k > 0 ==> v[k - 1].price != v[k].price)
        invariant total == ReachQty(side, price, v[..k]) % TWO32
        decreases |v| - k
      {
        if !Reaches(side, price, key.value) {
          ReachStops(side, price, v, k);
          return;
        }
        LevelHead(t, locate, opp, k);
        var idx := levels[key.value].headIdx;
        ghost var start := k;
        LevelStep(t, locate, opp, k);
        while idx != NIL
          invariant start <= k <= |v| == |Q|
          invariant idx != NIL ==> k < |v| && idx == Q[k] && v[k].price == key.value
          invariant k > start ==> v[k - 1].price == key.value
          invariant idx == NIL ==> k > start && (k < |v| ==> v[k].price != key.value)
          invariant total == ReachQty(side, price, v[..k]) % TWO32
          decreases |v| - k
        {
          LevelStep(t, locate, opp, k);
          ReachSnoc(side, price, v, k);
          WrapAdd(ReachQty(side, price, v[..k]), v[k].remainingQty);
          total := Wrap32(total + pool.storage[idx].data.remainingQty);
          idx := pool.storage[idx].nextIdx;
          k := k + 1;
        }
        var next := NextKey(opp, levels, key);
        LaterLevel(opp, levels, v, k, next);
        key := next;
      }
      assert v[..k] == v;
    }

    /** Best price and its cached volume on each side, zero when a side is empty. */
    method GetTopOfBook() returns (top: TopOfBook)
      requires Sound()
      ensures top == Top(Orders(Buy), Orders(Sell))
      ensures BestOf(Buy, Orders(Buy), top.bidPrice, top.bidVolume) && BestOf(Sell, Orders(Sell), top.askPrice, top.askVolume)
    {
      hide MemOk, OrdersOf, Ahead, Sorted, SumAt, BestOf;
      top := TopOfBook(0, 0, 0, 0);
      LevelsAndOrders(M(), locate, Buy);
      LevelsAndOrders(M(), locate, Sell);
      var bid := NextKey(Buy, bids, None);
      FirstLevel(Buy, bids, Orders(Buy), bid);
      if bid.Some? {
        top := top.(bidPrice := bid.value, bidVolume := bids[bid.value].totalQty);
      }
      var ask := NextKey(Sell, asks, None);
      FirstLevel(Sell, asks, Orders(Sell), ask);
      if ask.Some? {
        top := top.(askPrice := ask.value, askVolume := asks[ask.value].totalQty);
      }
      TopIsBest(Orders(Buy), Orders(Sell));
    }
  }
}
