/** What the greedy walk does, said without the walk. */
module WalkFacts {
  import opened Types
  import opened Matching

  // ── who trades with whom ──

  /** Every trade is with another user, at a price the taker accepts, for no more than the maker has. */
  ghost predicate FairFill(taker: OrderData, f: Fill) {
    && !Own(taker.userId, f.maker)
    && Reaches(taker.side, taker.price, f.maker.price)
    && f.qty <= f.maker.remainingQty
  }

  lemma {:induction false} FillsAreFair(opp: seq<OrderData>, taker: OrderData)
    ensures forall i :: 0 <= i < |Walk(opp, taker).fills| ==> FairFill(taker, Walk(opp, taker).fills[i])
    ensures forall i :: 0 <= i < |Walk(opp, taker).fills| ==> Walk(opp, taker).fills[i].maker in opp
  {
    if opp != [] && taker.remainingQty > 0 {
      var q := Min(taker.remainingQty, opp[0].remainingQty);
      var taker' := AfterFill(taker, q);
      FillsAreFair(opp[1..], taker);
      FillsAreFair(opp[1..], taker');
      forall f | FairFill(taker', f) ensures FairFill(taker, f) {
      }
    }
  }

  // ── where the walk ends ──

  /** No order of q is both another user's and within the taker's limit. */
  ghost predicate NoneToTake(taker: OrderData, q: seq<OrderData>) {
    forall i :: 0 <= i < |q| ==> Own(taker.userId, q[i]) || !Reaches(taker.side, taker.price, q[i].price)
  }

  lemma NoneToTakeCons(taker: OrderData, o: OrderData, q: seq<OrderData>)
    requires NoneToTake(taker, q) && Own(taker.userId, o)
    ensures NoneToTake(taker, [o] + q)
  {
  }

  lemma NoneToTakeSame(a: OrderData, b: OrderData, q: seq<OrderData>)
    requires NoneToTake(a, q) && a.side == b.side && a.price == b.price && a.userId == b.userId
    ensures NoneToTake(b, q)
  {
  }

  lemma NoneBeyond(taker: OrderData, v: seq<OrderData>)
    requires Sorted(Opposite(taker.side), v) && v != [] && !Reaches(taker.side, taker.price, v[0].price)
    ensures forall i :: 0 <= i < |v| ==> !Reaches(taker.side, taker.price, v[i].price)
  {
    forall i | 0 <= i < |v| ensures !Reaches(taker.side, taker.price, v[i].price) {
      assert i > 0 ==> !Ahead(Opposite(taker.side), v[i].price, v[0].price);
    }
  }

  /** A walk stops only when the taker is done or nothing it may take is in reach. */
  lemma {:induction false} WalkStops(opp: seq<OrderData>, taker: OrderData)
    requires Sorted(Opposite(taker.side), opp)
    ensures Walk(opp, taker).taker.remainingQty > 0 ==> NoneToTake(taker, Walk(opp, taker).rest)
  {
    hide NoneToTake, AfterFill;
    if opp == [] || taker.remainingQty == 0 {
      assert opp == [] ==> NoneToTake(taker, opp) by { NoneOfNone(taker); }
    } else if Own(taker.userId, opp[0]) {
      WalkStops(opp[1..], taker);
      if Walk(opp, taker).taker.remainingQty > 0 {
        NoneToTakeCons(taker, opp[0], Walk(opp[1..], taker).rest);
      }
    } else if !Reaches(taker.side, taker.price, opp[0].price) {
      NoneBeyond(taker, opp);
      BeyondIsNone(taker, opp);
    } else {
      var q := Min(taker.remainingQty, opp[0].remainingQty);
      FillExhausts(taker, opp[0]);
      WalkStops(opp[1..], AfterFill(taker, q));
      if Walk(opp, taker).taker.remainingQty > 0 {
        NoneToTakeSame(AfterFill(taker, q), taker, Walk(opp[1..], AfterFill(taker, q)).rest);
      }
    }
  }

  lemma NoneOfNone(taker: OrderData)
    ensures NoneToTake(taker, [])
  {
  }

  lemma BeyondIsNone(taker: OrderData, v: seq<OrderData>)
    requires forall i :: 0 <= i < |v| ==> !Reaches(taker.side, taker.price, v[i].price)
    ensures NoneToTake(taker, v)
  {
  }

  // ── what is left ──

  /** o' is what remains of o: the same order, possibly with part of it traded. */
  ghost predicate RemnantOf(o: OrderData, o': OrderData) {
    && SameTaker(o, o')
    && o'.remainingQty <= o.remainingQty
    && (o'.remainingQty == 0 ==> o.remainingQty == 0)
  }

  lemma RemnantAfterFill(o: OrderData, q: u32)
    requires q < o.remainingQty
    ensures RemnantOf(o, AfterFill(o, q))
  {
  }

  /** at[i] is where the i-th order of `left` stood in `v`: the order is kept, and each one left is a remnant. */
  ghost predicate Embeds(v: seq<OrderData>, left: seq<OrderData>, at: seq<nat>) {
    && |at| == |left|
    && (forall i :: 0 <= i < |at| ==> at[i] < |v| && RemnantOf(v[at[i]], left[i]))
    && (forall i, j :: 0 <= i < j < |at| ==> at[i] < at[j])
  }

  lemma EmbedsSame(v: seq<OrderData>)
    ensures Embeds(v, v, seq(|v|, i => i))
  {
  }

  /** One more order in front, kept or dropped. */
  lemma EmbedsCons(o: OrderData, v: seq<OrderData>, left: seq<OrderData>, at: seq<nat>, o': OrderData)
    requires Embeds(v, left, at) && RemnantOf(o, o')
    ensures Embeds([o] + v, left, Shifted(at)) && Embeds([o] + v, [o'] + left, [0] + Shifted(at))
  {
  }

  ghost function Shifted(at: seq<nat>): (r: seq<nat>)
    ensures |r| == |at| && forall i :: 0 <= i < |at| ==> r[i] == at[i] + 1
  {
    seq(|at|, i requires 0 <= i < |at| => at[i] + 1)
  }

  /** Time priority survives a match: the orders left are remnants of orders that were there, in the same order. */
  lemma {:induction false} RestKeepsOrder(opp: seq<OrderData>, taker: OrderData) returns (at: seq<nat>)
    ensures Embeds(opp, Walk(opp, taker).rest, at)
  {
    hide Embeds, Reaches, Own, RemnantOf, AfterFill;
    if opp == [] || taker.remainingQty == 0 || (!Own(taker.userId, opp[0]) && !Reaches(taker.side, taker.price, opp[0].price)) {
      at := seq(|opp|, i => i);
      EmbedsSame(opp);
    } else {
      assert opp == [opp[0]] + opp[1..];
      RemnantSame(opp[0]);
      if Own(taker.userId, opp[0]) {
        at := RestKeepsOrder(opp[1..], taker);
        EmbedsCons(opp[0], opp[1..], Walk(opp[1..], taker).rest, at, opp[0]);
        at := [0] + Shifted(at);
      } else {
        var q := Min(taker.remainingQty, opp[0].remainingQty);
        FillExhausts(taker, opp[0]);
        if AfterFill(opp[0], q).remainingQty == 0 {
          at := RestKeepsOrder(opp[1..], AfterFill(taker, q));
          EmbedsCons(opp[0], opp[1..], Walk(opp[1..], AfterFill(taker, q)).rest, at, opp[0]);
          at := Shifted(at);
        } else {
          RemnantAfterFill(opp[0], q);
          at := seq(|opp| - 1, i => i);
          EmbedsSame(opp[1..]);
          EmbedsCons(opp[0], opp[1..], opp[1..], at, AfterFill(opp[0], q));
          at := [0] + Shifted(at);
        }
      }
    }
  }

  lemma RemnantSame(o: OrderData)
    ensures RemnantOf(o, o)
  {
  }

  /** Each order left by a walk is the remnant of an order that was there. */
  lemma RestIsRemnant(opp: seq<OrderData>, taker: OrderData, i: nat) returns (j: nat)
    requires i < |Walk(opp, taker).rest|
    ensures j < |opp| && RemnantOf(opp[j], Walk(opp, taker).rest[i])
  {
    hide Walk, RemnantOf;
    var at := RestKeepsOrder(opp, taker);
    j := at[i];
  }

  /** A walk leaves a half of a book. */
  lemma {:induction false} WalkKeepsHalf(side: Side, opp: seq<OrderData>, taker: OrderData)
    requires Half(side, opp)
    ensures Half(side, Walk(opp, taker).rest)
  {
    if opp == [] || taker.remainingQty == 0 {
    } else if Own(taker.userId, opp[0]) {
      WalkKeepsHalf(side, opp[1..], taker);
      PrependKeepsHalf(side, opp, opp[1..], taker);
    } else if Reaches(taker.side, taker.price, opp[0].price) {
      var q := Min(taker.remainingQty, opp[0].remainingQty);
      WalkKeepsHalf(side, opp[1..], AfterFill(taker, q));
    }
  }

  lemma PrependKeepsHalf(side: Side, opp: seq<OrderData>, tail: seq<OrderData>, taker: OrderData)
    requires Half(side, opp) && opp != [] && tail == opp[1..] && Half(side, Walk(tail, taker).rest)
    ensures Half(side, [opp[0]] + Walk(tail, taker).rest)
  {
    var rest := Walk(tail, taker).rest;
    forall i | 0 <= i < |rest| ensures !Ahead(side, rest[i].price, opp[0].price) {
      var j := RestIsRemnant(tail, taker, i);
      assert tail[j] == opp[j + 1];
    }
  }

  // ── quantities ──

  ghost function Traded32(fills: seq<Fill>): nat {
    if fills == [] then 0 else fills[0].qty + Traded32(fills[1..])
  }

  ghost function SumRemaining(q: seq<OrderData>): nat {
    if q == [] then 0 else q[0].remainingQty + SumRemaining(q[1..])
  }

  ghost function SumFilled(q: seq<OrderData>): nat {
    if q == [] then 0 else q[0].filledQty + SumFilled(q[1..])
  }

  /** Fills and remainder never exceed the order, so 32-bit addition of a fill cannot wrap. */
  ghost predicate Sane(o: OrderData) {
    o.filledQty + o.remainingQty <= o.originalQty
  }

  ghost predicate AllSane(q: seq<OrderData>) {
    forall i :: 0 <= i < |q| ==> Sane(q[i])
  }

  /** The final state of the makers a walk used up, in the order they went. */
  ghost function GoneOrders(fills: seq<Fill>): seq<OrderData> {
    if fills == [] then []
    else
      var o := AfterFill(fills[0].maker, fills[0].qty);
      (if o.remainingQty == 0 then [o] else []) + GoneOrders(fills[1..])
  }

  lemma FillIsExact(o: OrderData, q: u32)
    requires Sane(o) && q <= o.remainingQty
    ensures Sane(AfterFill(o, q))
    ensures AfterFill(o, q).remainingQty == o.remainingQty - q && AfterFill(o, q).filledQty == o.filledQty + q
  {
  }

  lemma SumCons(o: OrderData, q: seq<OrderData>)
    ensures SumRemaining([o] + q) == o.remainingQty + SumRemaining(q)
    ensures SumFilled([o] + q) == o.filledQty + SumFilled(q)
  {
    assert ([o] + q)[1..] == q;
  }

  lemma FillsCons(f: Fill, fills: seq<Fill>)
    ensures Traded32([f] + fills) == f.qty + Traded32(fills)
    ensures GoneOrders([f] + fills) ==
            (if AfterFill(f.maker, f.qty).remainingQty == 0 then [AfterFill(f.maker, f.qty)] else []) + GoneOrders(fills)
  {
    assert ([f] + fills)[1..] == fills;
  }

  /** What a walk takes from the makers is exactly what it gives the taker, in remainders and in fills. */
  ghost predicate Balanced(opp: seq<OrderData>, taker: OrderData, w: Walked) {
    && SumRemaining(w.rest) + Traded32(w.fills) == SumRemaining(opp)
    && SumFilled(w.rest) + SumFilled(GoneOrders(w.fills)) == SumFilled(opp) + Traded32(w.fills)
    && w.taker.remainingQty + Traded32(w.fills) == taker.remainingQty
    && w.taker.filledQty == taker.filledQty + Traded32(w.fills)
    && AllSane(w.rest) && AllSane(GoneOrders(w.fills)) && Sane(w.taker)
  }

  lemma {:induction false} WalkBalances(opp: seq<OrderData>, taker: OrderData)
    requires AllSane(opp) && Sane(taker)
    ensures Balanced(opp, taker, Walk(opp, taker))
  {
    hide AfterFill, Own, Reaches, Sane;
    if opp == [] || taker.remainingQty == 0 {
    } else if Own(taker.userId, opp[0]) {
      WalkBalances(opp[1..], taker);
      SumCons(opp[0], Walk(opp[1..], taker).rest);
    } else if Reaches(taker.side, taker.price, opp[0].price) {
      var q := Min(taker.remainingQty, opp[0].remainingQty);
      FillIsExact(taker, q);
      FillIsExact(opp[0], q);
      var taker', maker' := AfterFill(taker, q), AfterFill(opp[0], q);
      WalkBalances(opp[1..], taker');
      if maker'.remainingQty == 0 {
        BalanceGone(opp, taker, taker', q, Walk(opp[1..], taker'));
      } else {
        BalancePartial(opp, taker, q);
      }
    }
  }

  lemma BalancePartial(opp: seq<OrderData>, taker: OrderData, q: u32)
    requires opp != [] && AllSane(opp) && Sane(taker) && q == taker.remainingQty < opp[0].remainingQty
    ensures Balanced(opp, taker, Walked([Fill(opp[0], q)], [AfterFill(opp[0], q)] + opp[1..], AfterFill(taker, q)))
  {
    hide AfterFill;
    FillIsExact(taker, q);
    FillIsExact(opp[0], q);
    SumCons(AfterFill(opp[0], q), opp[1..]);
    FillsCons(Fill(opp[0], q), []);
    assert [Fill(opp[0], q)] == [Fill(opp[0], q)] + [];
  }

  lemma BalanceGone(opp: seq<OrderData>, taker: OrderData, taker': OrderData, q: u32, w: Walked)
    requires opp != [] && Balanced(opp[1..], taker', w)
    requires q == opp[0].remainingQty <= taker.remainingQty && Sane(opp[0])
    requires taker'.remainingQty == taker.remainingQty - q && taker'.filledQty == taker.filledQty + q
    ensures Balanced(opp, taker, w.(fills := [Fill(opp[0], q)] + w.fills))
  {
    FillIsExact(opp[0], q);
    var maker' := AfterFill(opp[0], q);
    FillsCons(Fill(opp[0], q), w.fills);
    SumCons(maker', GoneOrders(w.fills));
  }

  // ── how much can be filled ──

  /** Reachable volume that is not the taker's own. */
  ghost function TakeQty(taker: OrderData, v: seq<OrderData>): nat {
    if v == [] then 0
    else (if Reaches(taker.side, taker.price, v[0].price) && !Own(taker.userId, v[0]) then v[0].remainingQty else 0)
         + TakeQty(taker, v[1..])
  }

  lemma {:induction false} NothingInReach(taker: OrderData, v: seq<OrderData>)
    requires forall i :: 0 <= i < |v| ==> !Reaches(taker.side, taker.price, v[i].price)
    ensures TakeQty(taker, v) == 0
  {
    if v != [] {
      NothingInReach(taker, v[1..]);
    }
  }

  lemma {:induction false} TakeQtySame(a: OrderData, b: OrderData, v: seq<OrderData>)
    requires a.side == b.side && a.price == b.price && a.userId == b.userId
    ensures TakeQty(a, v) == TakeQty(b, v)
  {
    if v != [] {
      TakeQtySame(a, b, v[1..]);
    }
  }

  /** The walk fills as much of the taker as the reachable volume of others allows, and no less. */
  lemma {:induction false} WalkFillsAll(opp: seq<OrderData>, taker: OrderData)
    requires Sorted(Opposite(taker.side), opp)
    ensures Walk(opp, taker).taker.remainingQty ==
            if TakeQty(taker, opp) >= taker.remainingQty then 0 else taker.remainingQty - TakeQty(taker, opp)
  {
    if opp == [] || taker.remainingQty == 0 {
    } else if Own(taker.userId, opp[0]) {
      WalkFillsAll(opp[1..], taker);
    } else if !Reaches(taker.side, taker.price, opp[0].price) {
      NoneBeyond(taker, opp);
      NothingInReach(taker, opp);
    } else {
      var q := Min(taker.remainingQty, opp[0].remainingQty);
      FillExhausts(taker, opp[0]);
      TakeQtySame(taker, AfterFill(taker, q), opp[1..]);
      WalkFillsAll(opp[1..], AfterFill(taker, q));
    }
  }

  /** The taker's status says how the walk went. */
  lemma {:induction false} WalkStatus(opp: seq<OrderData>, taker: OrderData)
    ensures var w := Walk(opp, taker);
      && (w.fills == [] ==> w.taker == taker && w.rest == opp)
      && (w.fills != [] ==> w.taker.status == if w.taker.remainingQty == 0 then Filled else PartiallyFilled)
      && (w.taker.remainingQty > 0 ==> |w.rest| + |w.fills| == |opp|)
  {
    if opp == [] || taker.remainingQty == 0 {
    } else if Own(taker.userId, opp[0]) {
      WalkStatus(opp[1..], taker);
    } else if Reaches(taker.side, taker.price, opp[0].price) {
      var q := Min(taker.remainingQty, opp[0].remainingQty);
      FillExhausts(taker, opp[0]);
      WalkStatus(opp[1..], AfterFill(taker, q));
    }
  }

  // ── exactly which trades ──

  /** The orders of another user within the taker's limit, in priority order. */
  ghost function Eligible(taker: OrderData, v: seq<OrderData>): seq<OrderData> {
    if v == [] then []
    else (if Reaches(taker.side, taker.price, v[0].price) && !Own(taker.userId, v[0]) then [v[0]] else [])
         + Eligible(taker, v[1..])
  }

  /** Take from each order in turn the smaller of what it has and what is still needed. */
  ghost function Greedy(v: seq<OrderData>, need: u32): seq<Fill> {
    if v == [] || need == 0 then []
    else
      var q := Min(need, v[0].remainingQty);
      [Fill(v[0], q)] + Greedy(v[1..], need - q)
  }

  lemma {:induction false} EligibleSame(a: OrderData, b: OrderData, v: seq<OrderData>)
    requires a.side == b.side && a.price == b.price && a.userId == b.userId
    ensures Eligible(a, v) == Eligible(b, v)
  {
    if v != [] {
      EligibleSame(a, b, v[1..]);
    }
  }

  lemma {:induction false} NoneEligible(taker: OrderData, v: seq<OrderData>)
    requires forall i :: 0 <= i < |v| ==> !Reaches(taker.side, taker.price, v[i].price)
    ensures Eligible(taker, v) == []
  {
    if v != [] {
      NoneEligible(taker, v[1..]);
    }
  }

  /** The trades of a walk are exactly the greedy takes from the eligible orders. */
  lemma {:induction false} WalkIsGreedy(opp: seq<OrderData>, taker: OrderData)
    requires Sorted(Opposite(taker.side), opp)
    ensures Walk(opp, taker).fills == Greedy(Eligible(taker, opp), taker.remainingQty)
  {
    hide Own, Reaches;
    if opp == [] || taker.remainingQty == 0 {
    } else if Own(taker.userId, opp[0]) {
      WalkIsGreedy(opp[1..], taker);
      assert Eligible(taker, opp) == Eligible(taker, opp[1..]);
    } else if !Reaches(taker.side, taker.price, opp[0].price) {
      NoneBeyond(taker, opp);
      NoneEligible(taker, opp);
    } else {
      var q := Min(taker.remainingQty, opp[0].remainingQty);
      FillExhausts(taker, opp[0]);
      EligibleSame(taker, AfterFill(taker, q), opp[1..]);
      WalkIsGreedy(opp[1..], AfterFill(taker, q));
      assert Eligible(taker, opp) == [opp[0]] + Eligible(taker, opp[1..]);
    }
  }

  /**
    What is left when `need` shares are taken greedily: own and unreachable orders untouched, each eligible order lowered
    by its take, used-up ones dropped.
   */
  ghost function Leftover(taker: OrderData, v: seq<OrderData>, need: u32): seq<OrderData> {
    if v == [] || need == 0 then v
    else if !Reaches(taker.side, taker.price, v[0].price) || Own(taker.userId, v[0]) then [v[0]] + Leftover(taker, v[1..], need)
    else
      var q := Min(need, v[0].remainingQty);
      (if q == v[0].remainingQty then [] else [AfterFill(v[0], q)]) + Leftover(taker, v[1..], need - q)
  }

  lemma {:induction false} LeftoverSame(a: OrderData, b: OrderData, v: seq<OrderData>, need: u32)
    requires a.side == b.side && a.price == b.price && a.userId == b.userId
    ensures Leftover(a, v, need) == Leftover(b, v, need)
  {
    if v != [] && need > 0 {
      LeftoverSame(a, b, v[1..], need);
      LeftoverSame(a, b, v[1..], need - Min(need, v[0].remainingQty));
    }
  }

  lemma {:induction false} LeftoverBeyond(taker: OrderData, v: seq<OrderData>, need: u32)
    requires forall i :: 0 <= i < |v| ==> !Reaches(taker.side, taker.price, v[i].price)
    ensures Leftover(taker, v, need) == v
  {
    if v != [] {
      LeftoverBeyond(taker, v[1..], need);
    }
  }

  /** The orders a walk leaves are exactly that leftover. */
  lemma {:induction false} WalkLeaves(opp: seq<OrderData>, taker: OrderData)
    requires Sorted(Opposite(taker.side), opp)
    ensures Walk(opp, taker).rest == Leftover(taker, opp, taker.remainingQty)
  {
    hide Own, Reaches, AfterFill;
    if opp == [] || taker.remainingQty == 0 {
    } else if Own(taker.userId, opp[0]) {
      WalkLeaves(opp[1..], taker);
    } else if !Reaches(taker.side, taker.price, opp[0].price) {
      NoneBeyond(taker, opp);
      LeftoverBeyond(taker, opp, taker.remainingQty);
    } else {
      var q := Min(taker.remainingQty, opp[0].remainingQty);
      FillExhausts(taker, opp[0]);
      LeftoverSame(taker, AfterFill(taker, q), opp[1..], taker.remainingQty - q);
      WalkLeaves(opp[1..], AfterFill(taker, q));
    }
  }
}
