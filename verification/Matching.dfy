/**
  One half of a book as a value: orders best price first, arrival order within a price.
  `Walk` is the reference for the match loops of the engine.
 */
module Matching {
  import opened Types
  import opened Chains

  /** In the half `side` of a book, price p is matched strictly before price q. */
  predicate Ahead(side: Side, p: u32, q: u32) {
    if side == Buy then p > q else p < q
  }

  /** The half a taker on `side` trades against; everything but Buy takes the sell path. */
  function Opposite(side: Side): Side {
    if side == Buy then Sell else Buy
  }

  /** A taker on `side` with this limit accepts the resting price p. */
  predicate Reaches(side: Side, limit: u32, p: u32) {
    if side == Buy then p <= limit else limit <= p
  }

  /** Self-trade prevention: user 0 excludes nobody. */
  predicate Own(user: u64, maker: OrderData) {
    user != 0 && maker.userId == user
  }

  ghost predicate Sorted(side: Side, q: seq<OrderData>) {
    forall i, j :: 0 <= i < j < |q| ==> !Ahead(side, q[j].price, q[i].price)
  }

  /** A half holds orders of its own side only, best price first. */
  ghost predicate Half(side: Side, q: seq<OrderData>) {
    Sorted(side, q) && forall i :: 0 <= i < |q| ==> q[i].side == side
  }

  // ── resting an order ──

  /** Number of leading orders that keep priority over a newcomer at price p. */
  function RestPos(side: Side, q: seq<OrderData>, p: u32): (k: nat)
    ensures k <= |q|
    ensures forall i :: 0 <= i < k ==> !Ahead(side, p, q[i].price)
    ensures k < |q| ==> Ahead(side, p, q[k].price)
  {
    if q == [] || Ahead(side, p, q[0].price) then 0 else 1 + RestPos(side, q[1..], p)
  }

  function Insert(q: seq<OrderData>, o: OrderData): seq<OrderData> {
    var k := RestPos(o.side, q, o.price);
    q[..k] + [o] + q[k..]
  }

  /** Position of the first order with this id, or |q|. */
  function IndexOf(q: seq<OrderData>, id: u64): (k: nat)
    ensures k <= |q|
    ensures k < |q| ==> q[k].orderId == id
    ensures forall i :: 0 <= i < k ==> q[i].orderId != id
  {
    if q == [] || q[0].orderId == id then 0 else 1 + IndexOf(q[1..], id)
  }

  /** Position of the first order that is not the user's own, or |v|. */
  ghost function FirstOther(user: u64, v: seq<OrderData>): (k: nat)
    ensures k <= |v|
    ensures forall i :: 0 <= i < k ==> Own(user, v[i])
    ensures k < |v| ==> !Own(user, v[k])
  {
    if v == [] || !Own(user, v[0]) then 0 else 1 + FirstOther(user, v[1..])
  }

  lemma FirstOtherIs(user: u64, v: seq<OrderData>, k: nat)
    requires k <= |v| && (forall i :: 0 <= i < k ==> Own(user, v[i])) && (k < |v| ==> !Own(user, v[k]))
    ensures FirstOther(user, v) == k
  {
    hide Own;
  }

  // ── trading ──

  /** One trade: the maker as it was before, and the traded quantity. */
  datatype Fill = Fill(maker: OrderData, qty: u32)

  datatype Walked = Walked(fills: seq<Fill>, rest: seq<OrderData>, taker: OrderData)

  /** 32-bit effect of trading qty on an order's quantities. */
  function Traded(o: OrderData, qty: u32): OrderData {
    o.(remainingQty := Wrap32(o.remainingQty - qty), filledQty := Wrap32(o.filledQty + qty))
  }

  /** An order, maker or taker, after trading qty. */
  function AfterFill(o: OrderData, qty: u32): (r: OrderData)
    ensures r.userId == o.userId && r.orderId == o.orderId && r.side == o.side && r.price == o.price
    ensures r.originalQty == o.originalQty && r.sequence == o.sequence
  {
    var o' := Traded(o, qty);
    o'.(status := if o'.remainingQty == 0 then Filled else PartiallyFilled)
  }

  /** An order after a partial cancel of qty. */
  function Shrunk(o: OrderData, qty: u32): OrderData {
    o.(remainingQty := Wrap32(o.remainingQty - qty))
  }

  /** Walk the opposite half in priority order, skipping the taker's own orders. */
  function Walk(opp: seq<OrderData>, taker: OrderData): (w: Walked)
    ensures |w.rest| <= |opp|
  {
    if opp == [] || taker.remainingQty == 0 then Walked([], opp, taker)
    else if Own(taker.userId, opp[0]) then
      var w := Walk(opp[1..], taker);
      w.(rest := [opp[0]] + w.rest)
    else if !Reaches(taker.side, taker.price, opp[0].price) then Walked([], opp, taker)
    else
      var q := Min(taker.remainingQty, opp[0].remainingQty);
      var taker' := AfterFill(taker, q);
      var maker' := AfterFill(opp[0], q);
      if maker'.remainingQty == 0 then
        var w := Walk(opp[1..], taker');
        w.(fills := [Fill(opp[0], q)] + w.fills)
      else
        Walked([Fill(opp[0], q)], [maker'] + opp[1..], taker')
  }

  /** The half after trading with its order k: the maker is reduced in place, or removed when used up. */
  function AfterHit(opp: seq<OrderData>, k: nat, qty: u32): seq<OrderData>
    requires k < |opp|
  {
    var maker := AfterFill(opp[k], qty);
    if maker.remainingQty == 0 then RemoveAt(opp, k) else opp[k := maker]
  }

  /** One turn of the match loop, which restarts from the front each time, is one step of the walk. */
  lemma {:induction false} WalkStep(opp: seq<OrderData>, taker: OrderData, k: nat)
    requires taker.remainingQty > 0 && k <= |opp|
    requires forall i :: 0 <= i < k ==> Own(taker.userId, opp[i])
    requires k < |opp| ==> !Own(taker.userId, opp[k])
    ensures k == |opp| || !Reaches(taker.side, taker.price, opp[k].price) ==> Walk(opp, taker) == Walked([], opp, taker)
    ensures k < |opp| && Reaches(taker.side, taker.price, opp[k].price) ==>
      var q := Min(taker.remainingQty, opp[k].remainingQty);
      var w := Walk(AfterHit(opp, k, q), AfterFill(taker, q));
      Walk(opp, taker) == w.(fills := [Fill(opp[k], q)] + w.fills)
  {
    hide Own, Reaches, AfterFill, AfterHit;
    if k > 0 {
      assert Own(taker.userId, opp[0]);
      WalkStep(opp[1..], taker, k - 1);
      if k < |opp| && Reaches(taker.side, taker.price, opp[k].price) {
        var q := Min(taker.remainingQty, opp[k].remainingQty);
        AfterHitTail(opp, k, q);
        SkipOwn(opp[0], AfterHit(opp[1..], k - 1, q), AfterFill(taker, q), taker);
      }
    } else if opp != [] && Reaches(taker.side, taker.price, opp[0].price) {
      var q := Min(taker.remainingQty, opp[0].remainingQty);
      FillExhausts(taker, opp[0]);
      HitFront(opp, q);
    }
  }

  /** A walk passes over an own order at the front (even when the taker is already done). */
  lemma SkipOwn(o: OrderData, tail: seq<OrderData>, taker: OrderData, before: OrderData)
    requires Own(before.userId, o) && taker.userId == before.userId
    ensures Walk([o] + tail, taker) == var w := Walk(tail, taker); w.(rest := [o] + w.rest)
  {
    assert ([o] + tail)[1..] == tail;
  }

  lemma HitFront(opp: seq<OrderData>, q: u32)
    requires opp != []
    ensures var maker := AfterFill(opp[0], q);
      AfterHit(opp, 0, q) == if maker.remainingQty == 0 then opp[1..] else [maker] + opp[1..]
  {
    hide AfterFill;
  }

  /** A trade of the smaller remainder uses up the taker or the maker. */
  lemma FillExhausts(taker: OrderData, maker: OrderData)
    ensures var q := Min(taker.remainingQty, maker.remainingQty);
      && AfterFill(taker, q).remainingQty == taker.remainingQty - q
      && AfterFill(maker, q).remainingQty == maker.remainingQty - q
      && (AfterFill(taker, q).remainingQty == 0 || AfterFill(maker, q).remainingQty == 0)
  {
  }

  lemma AfterHitTail(opp: seq<OrderData>, k: nat, q: u32)
    requires 0 < k < |opp|
    ensures AfterHit(opp, k, q) == [opp[0]] + AfterHit(opp[1..], k - 1, q)
  {
    hide AfterFill;
    var o, tail := AfterFill(opp[k], q), opp[1..];
    assert tail[k - 1] == opp[k];
    if o.remainingQty == 0 {
      RemoveTail(opp, k);
    } else {
      assert opp[k := o] == [opp[0]] + tail[k - 1 := o];
    }
  }

  lemma RemoveTail<T>(q: seq<T>, k: nat)
    requires 0 < k < |q|
    ensures RemoveAt(q, k) == [q[0]] + RemoveAt(q[1..], k - 1)
  {
    assert q[..k] == [q[0]] + q[1..][..k - 1];
    assert q[1..][k..] == q[k + 1..];
  }

  predicate SameTaker(a: OrderData, b: OrderData) {
    b == a.(remainingQty := b.remainingQty, filledQty := b.filledQty, status := b.status)
  }

  lemma {:induction false} WalkKeepsTaker(opp: seq<OrderData>, taker: OrderData)
    ensures SameTaker(taker, Walk(opp, taker).taker)
  {
    if opp != [] {
      WalkKeepsTaker(opp[1..], taker);
      WalkKeepsTaker(opp[1..], AfterFill(taker, Min(taker.remainingQty, opp[0].remainingQty)));
    }
  }

  // ── reachable volume ──

  /** Total remaining quantity a taker on `side` with this limit can reach. */
  ghost function ReachQty(side: Side, limit: u32, v: seq<OrderData>): nat {
    if v == [] then 0
    else (if Reaches(side, limit, v[0].price) then v[0].remainingQty else 0) + ReachQty(side, limit, v[1..])
  }

  lemma {:induction false} ReachConcat(side: Side, limit: u32, a: seq<OrderData>, b: seq<OrderData>)
    ensures ReachQty(side, limit, a + b) == ReachQty(side, limit, a) + ReachQty(side, limit, b)
  {
    if a == [] {
      assert a + b == b;
    } else {
      assert (a + b)[1..] == a[1..] + b;
      ReachConcat(side, limit, a[1..], b);
    }
  }

  lemma ReachSnoc(side: Side, limit: u32, v: seq<OrderData>, k: nat)
    requires k < |v|
    ensures ReachQty(side, limit, v[..k + 1]) ==
            ReachQty(side, limit, v[..k]) + (if Reaches(side, limit, v[k].price) then v[k].remainingQty else 0)
  {
    assert v[..k + 1] == v[..k] + [v[k]];
    ReachConcat(side, limit, v[..k], [v[k]]);
  }

  lemma {:induction false} NoneReach(side: Side, limit: u32, v: seq<OrderData>)
    requires forall i :: 0 <= i < |v| ==> !Reaches(side, limit, v[i].price)
    ensures ReachQty(side, limit, v) == 0
  {
    if v != [] {
      NoneReach(side, limit, v[1..]);
    }
  }

  /** In a sorted half nothing behind an unreachable price is reachable. */
  lemma ReachStops(side: Side, limit: u32, v: seq<OrderData>, k: nat)
    requires Sorted(Opposite(side), v) && k < |v| && !Reaches(side, limit, v[k].price)
    ensures ReachQty(side, limit, v) == ReachQty(side, limit, v[..k])
  {
    assert v == v[..k] + v[k..];
    ReachConcat(side, limit, v[..k], v[k..]);
    forall i | 0 <= i < |v[k..]| ensures !Reaches(side, limit, v[k..][i].price) {
      assert i > 0 ==> !Ahead(Opposite(side), v[k + i].price, v[k].price);
    }
    NoneReach(side, limit, v[k..]);
  }
}
