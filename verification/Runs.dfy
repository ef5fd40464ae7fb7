/** Whole runs of the exchange: what every sequence of commands keeps. */
module Runs {
  import opened Types
  import opened Matching
  import opened Chains
  import opened WalkFacts
  import opened Exchange
  import opened SideRep
  import opened SideUpdates

  datatype Command =
    | CmdAdd(locate: nat, ref: u64, side: Side, price: u32, qty: u32, user: u64, tif: Tif)
    | CmdCancel(locate: nat, ref: u64, user: u64)
    | CmdCancelShares(locate: nat, ref: u64, shares: u32, user: u64)
    | CmdReplace(locate: nat, oldRef: u64, newRef: u64, side: Side, price: u32, qty: u32, user: u64)

  ghost function Step(st: State, c: Command, ins: bool): (r: Outcome)
    requires |st.books| == MAX_LOCATE
    ensures |r.state.books| == MAX_LOCATE
  {
    match c
    case CmdAdd(l, ref, side, price, qty, user, tif) => Add(st, l, ref, side, price, qty, user, tif, ins)
    case CmdCancel(l, ref, user) => Cancel(st, l, ref, user)
    case CmdCancelShares(l, ref, shares, user) => CancelShares(st, l, ref, shares, user)
    case CmdReplace(l, oldRef, newRef, side, price, qty, user) => Replace(st, l, oldRef, newRef, side, price, qty, user, ins)
  }

  /** A command together with whether the index accepted the id it rested, if it rested one. */
  type Input = (Command, bool)

  ghost function After(st: State, inputs: seq<Input>): (st': State)
    requires |st.books| == MAX_LOCATE
    ensures |st'.books| == MAX_LOCATE
    decreases |inputs|
  {
    if inputs == [] then st else After(Step(st, inputs[0].0, inputs[0].1).state, inputs[1..])
  }

  // ── the invariant of one book ──

  /** A bid at or above an ask: both the same (nonzero) user's, or one of them is a zero-quantity order. */
  ghost predicate Compatible(bid: OrderData, ask: OrderData) {
    bid.price >= ask.price ==>
      || (bid.userId == ask.userId && bid.userId != 0)
      || bid.remainingQty == 0 || ask.remainingQty == 0
  }

  ghost predicate Uncrossed(b: Book) {
    forall i, j :: 0 <= i < |b.bids| && 0 <= j < |b.asks| ==> Compatible(b.bids[i], b.asks[j])
  }

  ghost predicate GoodBook(b: Book) {
    Half(Buy, b.bids) && Half(Sell, b.asks) && Uncrossed(b) && AllSane(b.bids) && AllSane(b.asks)
  }

  ghost predicate Good(st: State) {
    |st.books| == MAX_LOCATE && forall l :: 0 <= l < MAX_LOCATE ==> GoodBook(st.books[l])
  }

  /** Seen from either side: the taker's half against the other. */
  ghost predicate CompatibleOn(side: Side, o: OrderData, opp: OrderData) {
    if side == Buy then Compatible(o, opp) else Compatible(opp, o)
  }

  lemma GoodHalves(b: Book, side: Side)
    requires GoodBook(b) && side != Invalid
    ensures Half(side, Half2(b, side)) && AllSane(Half2(b, side))
    ensures forall i, j :: 0 <= i < |Half2(b, side)| && 0 <= j < |Half2(b, Opposite(side))| ==>
              CompatibleOn(side, Half2(b, side)[i], Half2(b, Opposite(side))[j])
  {
  }

  lemma HalvesGood(b: Book, side: Side)
    requires side != Invalid
    requires Half(side, Half2(b, side)) && AllSane(Half2(b, side))
    requires Half(Opposite(side), Half2(b, Opposite(side))) && AllSane(Half2(b, Opposite(side)))
    requires forall i, j :: 0 <= i < |Half2(b, side)| && 0 <= j < |Half2(b, Opposite(side))| ==>
               CompatibleOn(side, Half2(b, side)[i], Half2(b, Opposite(side))[j])
    ensures GoodBook(b)
  {
  }

  lemma RemnantCompatible(side: Side, o: OrderData, o': OrderData, x: OrderData)
    requires CompatibleOn(side, o, x) && RemnantOf(o, o')
    ensures CompatibleOn(side, o', x)
  {
  }

  /** o is what is left of some order of v. */
  ghost predicate LeftOf(v: seq<OrderData>, o: OrderData) {
    exists j :: 0 <= j < |v| && RemnantOf(v[j], o)
  }

  /** A half replaced by remnants of some of its own orders keeps the book good. */
  lemma ShrinkHalf(b: Book, side: Side, q: seq<OrderData>)
    requires GoodBook(b) && side != Invalid && Half(side, q) && AllSane(q)
    requires forall i :: 0 <= i < |q| ==> LeftOf(Half2(b, side), q[i])
    ensures GoodBook(WithHalf(b, side, q))
  {
    hide GoodBook, Half, AllSane, RemnantOf, CompatibleOn;
    var b' := WithHalf(b, side, q);
    GoodHalves(b, side);
    GoodHalves(b, Opposite(side));
    forall i, k | 0 <= i < |q| && 0 <= k < |Half2(b', Opposite(side))|
      ensures CompatibleOn(side, q[i], Half2(b', Opposite(side))[k])
    {
      var v := Half2(b, side);
      assert LeftOf(v, q[i]);
      var j :| 0 <= j < |v| && RemnantOf(v[j], q[i]);
      RemnantCompatible(side, v[j], q[i], Half2(b, Opposite(side))[k]);
    }
    HalvesGood(b', side);
  }

  lemma WalkKeepsGood(b: Book, taker: OrderData)
    requires GoodBook(b) && Sane(taker)
    ensures var opp := Opposite(taker.side); GoodBook(WithHalf(b, opp, Walk(Half2(b, opp), taker).rest))
  {
    hide GoodBook, Half, AllSane, Walk;
    var opp := Opposite(taker.side);
    var v := Half2(b, opp);
    GoodHalves(b, opp);
    WalkKeepsHalf(opp, v, taker);
    WalkBalances(v, taker);
    var rest := Walk(v, taker).rest;
    forall i | 0 <= i < |rest| ensures LeftOf(v, rest[i]) {
      var j := RestIsRemnant(v, taker, i);
    }
    ShrinkHalf(b, opp, rest);
  }

  /** What is left of a taker can rest: everything it crosses is its own (or one of the two is a zero-quantity order). */
  lemma TakerCompatible(b: Book, taker: OrderData)
    requires GoodBook(b)
    ensures var w := Walk(Half2(b, Opposite(taker.side)), taker);
      forall i :: 0 <= i < |w.rest| ==> CompatibleOn(taker.side, w.taker, w.rest[i])
  {
    hide Walk, Half, AllSane;
    var v := Half2(b, Opposite(taker.side));
    GoodHalves(b, Opposite(taker.side));
    HalfSorted(Opposite(taker.side), v);
    WalkStops(v, taker);
    WalkKeepsTaker(v, taker);
  }

  lemma RestKeepsGood(b: Book, o: OrderData)
    requires GoodBook(b) && Sane(o) && o.side != Invalid
    requires forall j :: 0 <= j < |Half2(b, Opposite(o.side))| ==> CompatibleOn(o.side, o, Half2(b, Opposite(o.side))[j])
    ensures GoodBook(WithHalf(b, o.side, Insert(Half2(b, o.side), o)))
  {
    hide GoodBook, Half, CompatibleOn, RestPos;
    var v := Half2(b, o.side);
    GoodHalves(b, o.side);
    GoodHalves(b, Opposite(o.side));
    var k := RestPos(o.side, v, o.price);
    var v' := InsertAt(v, k, o);
    InsertHalf(o.side, v, o, v');
    forall i | 0 <= i < |v'| ensures v'[i] == o || exists j :: 0 <= j < |v| && v'[i] == v[j] {
      if i != k {
        assert v'[i] == v[if i < k then i else i - 1];
      }
    }
    HalvesGood(WithHalf(b, o.side, v'), o.side);
  }

  lemma ExecuteKeepsGood(st: State, l: nat, taker: OrderData, tif: Tif, ins: bool)
    requires Good(st) && l < MAX_LOCATE && Sane(taker)
    ensures Good(Execute(st, l, taker, tif, ins).state)
  {
    hide GoodBook, Walk, CompatibleOn, Insert, Sane;
    var b, w := st.books[l], WalkIn(st, l, taker);
    WalkKeepsGood(b, taker);
    TakerCompatible(b, taker);
    GoodHalves(b, Opposite(taker.side));
    WalkBalances(Half2(b, Opposite(taker.side)), taker);
    WalkKeepsTaker(Half2(b, Opposite(taker.side)), taker);
    if CanRest(AfterWalk(st, l, taker), w.taker) {
      RestKeepsGood(AfterWalk(st, l, taker).books[l], w.taker);
    }
  }

  lemma RemoveKeepsGood(st: State, l: nat, id: u64)
    requires Good(st) && l < MAX_LOCATE && Found(st, l, id)
    ensures Good(Remove(st, l, id))
  {
    hide GoodBook, Half;
    var (side, k) := Locate(st.books[l], id);
    var v := Half2(st.books[l], side);
    GoodHalves(st.books[l], side);
    RemoveIsRemoved(v, k);
    RemoveHalf(side, v, k, RemoveAt(v, k));
    forall i | 0 <= i < |RemoveAt(v, k)| ensures LeftOf(v, RemoveAt(v, k)[i]) {
      assert RemnantOf(v[if i < k then i else i + 1], RemoveAt(v, k)[i]);
    }
    ShrinkHalf(st.books[l], side, RemoveAt(v, k));
  }

  lemma ShrunkIsRemnant(o: OrderData, shares: u32)
    requires Sane(o) && shares < o.remainingQty
    ensures RemnantOf(o, Shrunk(o, shares)) && Sane(Shrunk(o, shares))
  {
  }

  lemma ShrinkOrderKeepsGood(b: Book, side: Side, k: nat, o: OrderData)
    requires GoodBook(b) && side != Invalid && k < |Half2(b, side)| && RemnantOf(Half2(b, side)[k], o) && Sane(o)
    ensures GoodBook(WithHalf(b, side, Half2(b, side)[k := o]))
  {
    hide GoodBook, Half;
    var v := Half2(b, side);
    var v' := v[k := o];
    GoodHalves(b, side);
    SameShapeHalf(side, v, v');
    forall i | 0 <= i < |v'| ensures LeftOf(v, v'[i]) {
      assert RemnantOf(v[i], v'[i]);
    }
    ShrinkHalf(b, side, v');
  }

  lemma CancelSharesKeepsGood(st: State, l: nat, id: u64, shares: u32)
    requires Good(st) && l < MAX_LOCATE && Found(st, l, id) && shares < OrderIn(st.books[l], id).remainingQty
    ensures Good(st.(books := st.books[l := Replaced(st.books[l], id, Shrunk(OrderIn(st.books[l], id), shares))]))
  {
    hide GoodBook, Half, RemnantOf, Shrunk, Sane;
    var (side, k) := Locate(st.books[l], id);
    var o := OrderIn(st.books[l], id);
    GoodHalves(st.books[l], side);
    ShrunkIsRemnant(o, shares);
    ShrinkOrderKeepsGood(st.books[l], side, k, Shrunk(o, shares));
  }

  /** Every command keeps every book good. */
  lemma StepKeepsGood(st: State, c: Command, ins: bool)
    requires Good(st)
    ensures Good(Step(st, c, ins).state)
  {
    hide GoodBook, Execute, Refusal, Locate;
    match c
    case CmdAdd(l, ref, side, price, qty, user, tif) =>
      if Refusal(st, l, ref, side, price, qty, user, tif).None? {
        RefusalInRange(st, l, ref, side, price, qty, user, tif);
        var st1 := st.(nextSeq := Wrap64(st.nextSeq + 1));
        ExecuteKeepsGood(st1, l, NewOrder(user, ref, side, LimitOf(side, price, tif), qty, st.nextSeq), tif, ins);
      }
    case CmdCancel(l, ref, user) =>
      if Found(st, l, ref) {
        RemoveKeepsGood(st, l, ref);
      }
    case CmdCancelShares(l, ref, shares, user) =>
      if Found(st, l, ref) {
        RemoveKeepsGood(st, l, ref);
        if shares < OrderIn(st.books[l], ref).remainingQty {
          CancelSharesKeepsGood(st, l, ref, shares);
        }
      }
    case CmdReplace(l, oldRef, newRef, side, price, qty, user) =>
      if Found(st, l, oldRef) {
        RemoveKeepsGood(st, l, oldRef);
        var st1 := Remove(st, l, oldRef).(nextSeq := Wrap64(st.nextSeq + 1));
        ExecuteKeepsGood(st1, l, NewOrder(newRef, newRef, side, price, qty, st.nextSeq), Day, ins);
      }
  }

  /**
    In every reachable state: halves sorted best price first, fills and remainders within the order, and a resting bid
    at or above a resting ask only between orders of one nonzero user or with a zero-quantity order.
   */
  lemma {:induction false} RunsStayGood(st: State, inputs: seq<Input>)
    requires Good(st)
    ensures Good(After(st, inputs))
    decreases |inputs|
  {
    hide Good, Step;
    GoodShape(st);
    if inputs != [] {
      StepKeepsGood(st, inputs[0].0, inputs[0].1);
      RunsStayGood(Step(st, inputs[0].0, inputs[0].1).state, inputs[1..]);
    }
  }

  lemma GoodShape(st: State)
    requires Good(st)
    ensures |st.books| == MAX_LOCATE
  {
  }

  lemma OpeningGood(free: nat)
    ensures Good(Opening(free))
  {
  }
}
