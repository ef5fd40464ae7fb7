/** The match loop of the engine over one book, proved to compute the walk. */
module MatchLoop {
  import opened Types
  import opened Matching
  import opened Chains
  import opened BookMem
  import opened IndexValue
  import opened OrderMapModel
  import opened OrderBookModel
  import opened Exchange
  import opened IndexRuns

  /** One trade against a resting order: quantities, status, and removal when it is used up. */
  method HitMaker(book: OrderBook, x: u32, qty: u32, ghost side: Side, ghost k: nat)
    requires book.Valid() && side != Invalid && k < |book.Queue(side)| && book.Queue(side)[k] == x
    requires k < |book.Orders(side)| && qty <= book.Orders(side)[k].remainingQty
    modifies book, book.pool, book.pool.storage
    modifies book.index, book.index.nodes, book.index.buckets, book.index.bucketLen
    ensures book.Valid() && OthersSame(old(book.M()), book.M(), book.locate)
    ensures book.Orders(side) == AfterHit(old(book.Orders(side)), k, qty)
    ensures book.Orders(Opposite(side)) == old(book.Orders(Opposite(side)))
    ensures |book.pool.free| + |book.Orders(side)| == old(|book.pool.free| + |book.Orders(side)|)
    ensures var f := Fill(old(book.Orders(side))[k], qty);
      && book.index.m.Keys == old(book.index.m.Keys) - Gone([f])
      && book.index.Value() == if qty == f.maker.remainingQty then Unbind(old(book.index.Value()), f.maker.orderId)
                               else old(book.index.Value())
    ensures old(book.AllIndexed()) ==> book.AllIndexed()
  {
    hide MemOk, OrdersOf, OthersSame, OrderBook.Valid, OrderBook.AllIndexed, Gone, AfterFill, Unbind;
    ghost var t0, v := book.M(), book.Orders(side);
    SlotOf(book, side, k);
    GoneOne(Fill(v[k], qty));
    book.ReduceOrderQty(x, qty, side, k);
    ghost var t1 := book.M();
    SlotOf(book, side, k);
    FilledStatus(v[k], qty);
    if book.pool.storage[x].data.remainingQty == 0 {
      book.SetStatus(x, Filled, side, k);
      ghost var t2 := book.M();
      book.RemoveOrder(x, side, k);
      OthersTrans(t0, t1, t2, book.locate);
      OthersTrans(t0, t2, book.M(), book.locate);
      assert RemoveAt(v[k := AfterFill(v[k], qty)], k) == RemoveAt(v, k);
    } else {
      book.SetStatus(x, PartiallyFilled, side, k);
      OthersTrans(t0, t1, book.M(), book.locate);
    }
  }

  /** Storing the status after the quantities gives the order after the fill. */
  lemma FilledStatus(o: OrderData, qty: u32)
    requires qty <= o.remainingQty
    ensures AfterFill(o, qty) == Traded(o, qty).(status := if Traded(o, qty).remainingQty == 0 then Filled else PartiallyFilled)
    ensures Traded(o, qty).remainingQty == o.remainingQty - qty
  {
  }

  lemma SlotOf(book: OrderBook, side: Side, k: nat)
    requires book.Valid() && side != Invalid && k < |book.Queue(side)|
    ensures book.Queue(side)[k] < book.pool.storage.Length && |book.Orders(side)| == |book.Queue(side)|
    ensures book.Orders(side)[k] == book.pool.storage[book.Queue(side)[k]].data
  {
    hide MemOk, OrdersOf, IndexSound, UniqueIds, OrderMap.Valid;
    OrderInSlot(book.M(), book.locate, side, k);
  }

  /** Where a match began: the opposite half, the taker and the index. */
  datatype Outset = Outset(opp: seq<OrderData>, order: OrderData, locate: nat, index: Index)

  /** Half way through a match: the walk from here on completes the walk from the start. */
  ghost predicate Midway(s: Outset, v: seq<OrderData>, taker: OrderData, out: seq<Response>, done: seq<Fill>, ix: Index) {
    && taker.userId == s.order.userId && taker.side == s.order.side && taker.price == s.order.price
    && out == Trades(s.locate, s.order.side, done)
    && ix == Dropped(s.index, done)
    && var w0, w := Walk(s.opp, s.order), Walk(v, taker);
       w.rest == w0.rest && w.taker == w0.taker && done + w.fills == w0.fills
  }

  lemma MidwayStarts(s: Outset)
    ensures Midway(s, s.opp, s.order, [], [], s.index)
  {
    assert [] + Walk(s.opp, s.order).fills == Walk(s.opp, s.order).fills;
  }

  lemma MidwayNext(s: Outset, v: seq<OrderData>, taker: OrderData, out: seq<Response>, done: seq<Fill>, ix: Index,
                   k: nat, ix': Index)
    requires Midway(s, v, taker, out, done, ix) && taker.remainingQty > 0
    requires k == FirstOther(taker.userId, v) < |v| && Reaches(taker.side, taker.price, v[k].price)
    requires var maker := v[k];
      ix' == if Min(taker.remainingQty, maker.remainingQty) == maker.remainingQty then Unbind(ix, maker.orderId) else ix
    ensures var maker := v[k]; var qty := Min(taker.remainingQty, maker.remainingQty);
      Midway(s, AfterHit(v, k, qty), AfterFill(taker, qty),
             out + [RspTrade(s.locate, maker.orderId, Opposite(taker.side), maker.price, qty)],
             done + [Fill(maker, qty)], ix')
  {
    hide Walk, AfterHit, AfterFill, Trades, Dropped, Unbind, Reaches, FirstOther, Own;
    var f := Fill(v[k], Min(taker.remainingQty, v[k].remainingQty));
    WalkOn(v, taker, done, k);
    TradesMore(s.locate, s.order.side, done, f);
    DroppedMore(s.index, done, f);
  }

  /** One more fill on the walk so far is one less on the walk to come. */
  lemma WalkOn(v: seq<OrderData>, taker: OrderData, done: seq<Fill>, k: nat)
    requires taker.remainingQty > 0
    requires k == FirstOther(taker.userId, v) < |v| && Reaches(taker.side, taker.price, v[k].price)
    ensures var f := Fill(v[k], Min(taker.remainingQty, v[k].remainingQty));
      var w, w' := Walk(v, taker), Walk(AfterHit(v, k, f.qty), AfterFill(taker, f.qty));
      w'.rest == w.rest && w'.taker == w.taker && (done + [f]) + w'.fills == done + w.fills
  {
    hide Walk, AfterHit, AfterFill, Reaches, Own;
    WalkStep(v, taker, k);
  }

  lemma MidwayEnds(s: Outset, v: seq<OrderData>, taker: OrderData, out: seq<Response>, done: seq<Fill>, ix: Index)
    requires Midway(s, v, taker, out, done, ix)
    requires taker.remainingQty == 0 ||
      var k := FirstOther(taker.userId, v); k == |v| || !Reaches(taker.side, taker.price, v[k].price)
    ensures var w := Walk(s.opp, s.order);
      v == w.rest && taker == w.taker && out == Trades(s.locate, s.order.side, w.fills) && ix == Dropped(s.index, w.fills)
  {
    hide Trades, Dropped, Reaches;
    if taker.remainingQty > 0 {
      WalkStep(v, taker, FirstOther(taker.userId, v));
    }
    assert done + [] == done;
  }

  lemma TradesMore(locate: nat, side: Side, done: seq<Fill>, f: Fill)
    ensures Trades(locate, side, done + [f]) ==
            Trades(locate, side, done) + [RspTrade(locate, f.maker.orderId, Opposite(side), f.maker.price, f.qty)]
  {
    hide Trades;
    TradesConcat(locate, side, done, [f]);
    TradesOne(locate, side, f);
  }

  lemma TradesOne(locate: nat, side: Side, f: Fill)
    ensures Trades(locate, side, [f]) == [RspTrade(locate, f.maker.orderId, Opposite(side), f.maker.price, f.qty)]
  {
    assert [f][1..] == [];
  }

  /** matchBuyOrder / matchSellOrder: the loop restarts at the best order each turn and computes exactly the walk. */
  method Match(book: OrderBook, locate: nat, order: OrderData) returns (taker: OrderData, out: seq<Response>)
    requires book.Valid()
    modifies book, book.pool, book.pool.storage
    modifies book.index, book.index.nodes, book.index.buckets, book.index.bucketLen
    ensures book.Valid() && OthersSame(old(book.M()), book.M(), book.locate)
    ensures var w := Walk(old(book.Orders(Opposite(order.side))), order);
      && book.Orders(Opposite(order.side)) == w.rest
      && taker == w.taker
      && out == Trades(locate, order.side, w.fills)
      && book.index.m.Keys == old(book.index.m.Keys) - Gone(w.fills)
      && book.index.Value() == Dropped(old(book.index.Value()), w.fills)
    ensures var opp := Opposite(order.side);
      && book.Orders(Opposite(opp)) == old(book.Orders(Opposite(opp)))
      && |book.pool.free| + |book.Orders(opp)| == old(|book.pool.free| + |book.Orders(opp)|)
    ensures old(book.AllIndexed()) ==> book.AllIndexed()
  {
    hide MemOk, OrdersOf, OthersSame, OrderBook.Valid, OrderBook.AllIndexed, Gone, AfterFill, Walk, AfterHit, Trades,
         Reaches, FirstOther, Dropped, Unbind, Midway;
    var opp := Opposite(order.side);
    ghost var t0, s := book.M(), Outset(book.Orders(opp), order, locate, book.index.Value());
    ghost var done: seq<Fill> := [];
    taker, out := order, [];
    OthersBegin(book);
    MidwayStarts(s);
    while taker.remainingQty > 0
      invariant book.Valid() && OthersSame(t0, book.M(), book.locate)
      invariant Midway(s, book.Orders(opp), taker, out, done, book.index.Value()) && taker.side == order.side
      invariant book.Orders(Opposite(opp)) == old(book.Orders(Opposite(opp)))
      invariant |book.pool.free| + |book.Orders(opp)| == old(|book.pool.free| + |book.Orders(opp)|)
      invariant old(book.AllIndexed()) ==> book.AllIndexed()
      decreases |book.Orders(opp)| + if taker.remainingQty > 0 then 1 else 0
    {
      ValidSound(book);
      ghost var v, ix, k := book.Orders(opp), book.index.Value(), FirstOther(taker.userId, book.Orders(opp));
      var best := book.GetBest(opp, taker.userId);
      if best.None? {
        break;
      }
      SlotOf(book, opp, k);
      var maker := book.pool.storage[best.value].data;
      if !Reaches(taker.side, taker.price, maker.price) {
        break;
      }
      var qty := Min(taker.remainingQty, maker.remainingQty);
      FillExhausts(taker, maker);
      HitShrinks(v, k, qty);
      ghost var t1 := book.M();
      HitMaker(book, best.value, qty, opp, k);
      OthersTrans(t0, t1, book.M(), book.locate);
      MidwayNext(s, v, taker, out, done, ix, k, book.index.Value());
      out := out + [RspTrade(locate, maker.orderId, opp, maker.price, qty)];
      taker := AfterFill(taker, qty);
      done := done + [Fill(maker, qty)];
    }
    MidwayEnds(s, book.Orders(opp), taker, out, done, book.index.Value());
    DroppedKeys(s.index, Walk(s.opp, s.order).fills);
  }

  lemma OthersBegin(book: OrderBook)
    requires book.Valid()
    ensures OthersSame(book.M(), book.M(), book.locate)
  {
    MemShape(book.M(), book.locate, Buy);
  }

  lemma HitShrinks(v: seq<OrderData>, k: nat, qty: u32)
    requires k < |v|
    ensures |AfterHit(v, k, qty)| == if AfterFill(v[k], qty).remainingQty == 0 then |v| - 1 else |v|
  {
  }

  lemma ValidSound(book: OrderBook)
    requires book.Valid()
    ensures book.Sound()
  {
  }
}
