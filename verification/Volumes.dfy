/**
  Volumes of a half, said with plain comparisons of prices and users: what an order on one side may trade with, and how
  much of it there is. The limits and walks of the engine are tied to these.
 */
module Volumes {
  import opened Types
  import opened Matching
  import opened WalkFacts
  import opened Exchange
  import opened SideRep

  /** A buy takes asks at or below its price, a sell takes bids at or above it; a market order takes any. */
  ghost predicate Within(side: Side, price: u32, market: bool, o: OrderData) {
    market || (if side == Buy then o.price <= price else o.price >= price)
  }

  /** Not the user's own order; user 0 owns nothing. */
  ghost predicate Another(user: u64, o: OrderData) {
    user == 0 || o.userId != user
  }

  /** The half that orders on `side` trade with. */
  ghost function Faced(b: Book, side: Side): seq<OrderData> {
    if side == Buy then b.asks else b.bids
  }

  /** Everything within the price, the user's own orders included. */
  ghost function Volume(v: seq<OrderData>, side: Side, price: u32, market: bool): nat {
    if v == [] then 0
    else (if Within(side, price, market, v[0]) then v[0].remainingQty else 0) + Volume(v[1..], side, price, market)
  }

  /** What other users offer within the price. */
  ghost function OthersVolume(v: seq<OrderData>, user: u64, side: Side, price: u32, market: bool): nat {
    if v == [] then 0
    else (if Within(side, price, market, v[0]) && Another(user, v[0]) then v[0].remainingQty else 0)
         + OthersVolume(v[1..], user, side, price, market)
  }

  /** Some other user's order, of whatever quantity, is within the price. */
  ghost predicate Met(v: seq<OrderData>, user: u64, side: Side, price: u32, market: bool) {
    exists i :: 0 <= i < |v| && Within(side, price, market, v[i]) && Another(user, v[i])
  }

  /** The total remaining at exactly this price. */
  ghost function VolumeAt(v: seq<OrderData>, price: u32): nat {
    if v == [] then 0 else (if v[0].price == price then v[0].remainingQty else 0) + VolumeAt(v[1..], price)
  }

  // ── ties ──

  lemma FacedIs(b: Book, side: Side)
    requires side != Invalid
    ensures Faced(b, side) == Half2(b, Opposite(side))
  {
  }

  /** The limit an order is matched at reaches exactly the prices within its own: all of them for a market order. */
  lemma LimitMeans(side: Side, price: u32, tif: Tif, o: OrderData)
    requires side != Invalid
    ensures Reaches(side, LimitOf(side, price, tif), o.price) <==>
            Within(side, price, price == 0 && (tif == Ioc || tif == Fok), o)
  {
  }

  lemma PlainLimit(side: Side, price: u32, o: OrderData)
    requires side != Invalid
    ensures Reaches(side, price, o.price) <==> Within(side, price, false, o)
  {
  }

  lemma {:induction false} ReachIsVolume(side: Side, limit: u32, v: seq<OrderData>, price: u32, market: bool)
    requires forall o: OrderData :: Reaches(side, limit, o.price) <==> Within(side, price, market, o)
    ensures ReachQty(side, limit, v) == Volume(v, side, price, market)
  {
    hide Reaches, Within;
    if v != [] {
      ReachIsVolume(side, limit, v[1..], price, market);
    }
  }

  lemma {:induction false} TakeIsVolume(taker: OrderData, v: seq<OrderData>, price: u32, market: bool)
    requires forall o: OrderData :: Reaches(taker.side, taker.price, o.price) <==> Within(taker.side, price, market, o)
    ensures TakeQty(taker, v) == OthersVolume(v, taker.userId, taker.side, price, market)
  {
    hide Reaches, Within;
    if v != [] {
      TakeIsVolume(taker, v[1..], price, market);
    }
  }

  /** A walk makes a trade, if only of nothing, exactly when some other user's order is within the price. */
  lemma {:induction false} WalkMeets(v: seq<OrderData>, taker: OrderData, price: u32, market: bool)
    requires Sorted(Opposite(taker.side), v) && taker.remainingQty > 0
    requires forall o: OrderData :: Reaches(taker.side, taker.price, o.price) <==> Within(taker.side, price, market, o)
    ensures Walk(v, taker).fills != [] <==> Met(v, taker.userId, taker.side, price, market)
  {
    hide Within, AfterFill;
    if v == [] {
    } else if Own(taker.userId, v[0]) {
      WalkMeets(v[1..], taker, price, market);
      MetCons(v, taker.userId, taker.side, price, market);
    } else if !Reaches(taker.side, taker.price, v[0].price) {
      NoneBeyond(taker, v);
    } else {
      MetCons(v, taker.userId, taker.side, price, market);
    }
  }

  lemma MetCons(v: seq<OrderData>, user: u64, side: Side, price: u32, market: bool)
    requires v != []
    ensures Met(v, user, side, price, market) <==>
            (Within(side, price, market, v[0]) && Another(user, v[0])) || Met(v[1..], user, side, price, market)
  {
    hide Within, Another;
    if Met(v[1..], user, side, price, market) {
      var i :| 0 <= i < |v[1..]| && Within(side, price, market, v[1..][i]) && Another(user, v[1..][i]);
      assert v[i + 1] == v[1..][i];
    }
    if Met(v, user, side, price, market) {
      var i :| 0 <= i < |v| && Within(side, price, market, v[i]) && Another(user, v[i]);
      assert i > 0 ==> v[1..][i - 1] == v[i];
    }
  }

  lemma {:induction false} VolumeMeets(v: seq<OrderData>, user: u64, side: Side, price: u32, market: bool)
    ensures OthersVolume(v, user, side, price, market) > 0 ==> Met(v, user, side, price, market)
  {
    hide Within, Another, Met;
    if v != [] {
      VolumeMeets(v[1..], user, side, price, market);
      MetCons(v, user, side, price, market);
    }
  }

  lemma {:induction false} SumIsVolume(v: seq<OrderData>, price: u32)
    ensures SumAt(v, price) == VolumeAt(v, price)
  {
    if v != [] {
      SumIsVolume(v[1..], price);
    }
  }
}
