/** What a caller can conclude from an answer: pool exhaustion, traded quantity, crossing, and the shape of responses. */
module Outcomes {
  import opened Types
  import opened Matching
  import opened WalkFacts
  import opened Exchange
  import opened Chains
  import opened Runs
  import opened Ledger

  // ── POOL_FULL ──

  /** Settling answers POOL_FULL only when the order cannot rest. */
  lemma SettlePoolFull(st: State, l: nat, taker: OrderData, tif: Tif, ins: bool)
    requires l < |st.books|
    ensures RspError(PoolFull) in Settle(st, l, taker, tif, ins).out <==>
            taker.status != Filled && tif == Day && !CanRest(st, taker)
    ensures RspError(PoolFull) in Settle(st, l, taker, tif, ins).out ==> Settle(st, l, taker, tif, ins) == Error(st, PoolFull)
  {
  }

  lemma {:induction false} TradesAreTrades(l: nat, side: Side, fills: seq<Fill>)
    ensures forall i :: 0 <= i < |fills| ==> Trades(l, side, fills)[i].RspTrade?
  {
    if fills != [] {
      TradesAreTrades(l, side, fills[1..]);
    }
  }

  /** Trading frees a slot whenever a remainder is left, so a remainder finds a slot unless nothing traded. */
  lemma ExecutePoolFull(st: State, l: nat, taker: OrderData, tif: Tif, ins: bool)
    requires l < |st.books| && taker.side != Invalid && taker.status == Open
    requires RspError(PoolFull) in Execute(st, l, taker, tif, ins).out
    ensures st.free == 0 && Execute(st, l, taker, tif, ins).out == [RspError(PoolFull)]
    ensures Execute(st, l, taker, tif, ins).state == st
  {
    hide Walk, Settle, Trades, Gone;
    var opp, w := Half2(st.books[l], Opposite(taker.side)), WalkIn(st, l, taker);
    WalkStatus(opp, taker);
    WalkKeepsTaker(opp, taker);
    TradesAreTrades(l, taker.side, w.fills);
    SettlePoolFull(AfterWalk(st, l, taker), l, w.taker, tif, ins);
    NothingGone();
  }

  lemma NothingGone()
    ensures Gone([]) == {} && forall l: nat, side :: Trades(l, side, []) == []
  {
  }

  /** An add answered POOL_FULL has traded nothing and changed no book. */
  lemma PoolFullChangesNothing(st: State, l: nat, ref: u64, side: Side, price: u32, qty: u32, user: u64, tif: Tif, ins: bool)
    requires |st.books| == MAX_LOCATE
    requires RspError(PoolFull) in Add(st, l, ref, side, price, qty, user, tif, ins).out
    ensures st.free == 0
    ensures Add(st, l, ref, side, price, qty, user, tif, ins).out == [RspError(PoolFull)]
    ensures var st' := Add(st, l, ref, side, price, qty, user, tif, ins).state;
      st'.books == st.books && st'.free == st.free && st'.indexed == st.indexed
  {
    hide Execute;
    var st1 := st.(nextSeq := Wrap64(st.nextSeq + 1));
    ExecutePoolFull(st1, l, NewOrder(user, ref, side, LimitOf(side, price, tif), qty, st.nextSeq), tif, ins);
  }

  /** A replace with a proper side never answers POOL_FULL: the old order's slot is free by then. */
  lemma ReplaceNeverPoolFull(st: State, l: nat, oldRef: u64, newRef: u64, side: Side, price: u32, qty: u32, user: u64, ins: bool)
    requires |st.books| == MAX_LOCATE && side != Invalid
    ensures RspError(PoolFull) !in Replace(st, l, oldRef, newRef, side, price, qty, user, ins).out
  {
    hide Execute, Locate;
    if Found(st, l, oldRef) {
      var st1 := Remove(st, l, oldRef).(nextSeq := Wrap64(st.nextSeq + 1));
      var taker := NewOrder(newRef, newRef, side, price, qty, st.nextSeq);
      if RspError(PoolFull) in Execute(st1, l, taker, Day, ins).out {
        ExecutePoolFull(st1, l, taker, Day, ins);
      }
    }
  }

  // ── what is traded ──

  /** What an execution reports as traded is what its walk traded. */
  lemma ExecuteTrades(st: State, l: nat, taker: OrderData, tif: Tif, ins: bool)
    requires l < |st.books|
    ensures TradedIn(Execute(st, l, taker, tif, ins).out) == Traded32(WalkIn(st, l, taker).fills)
  {
    hide Walk, AfterWalk, Rest, TradedIn, Traded32;
    var w := WalkIn(st, l, taker);
    var done := Settle(AfterWalk(st, l, taker), l, w.taker, tif, ins);
    TradedConcat(Trades(l, taker.side, w.fills), done.out);
    TradesReportFills(l, taker.side, w.fills);
    SettleTradesNothing(AfterWalk(st, l, taker), l, w.taker, tif, ins);
  }

  /** The first order of an empty exchange rests alone. */
  lemma FirstAdd(free: nat, ref: u64, side: Side, price: u32, qty: u32, user: u64)
    requires free > 0 && side != Invalid && ref > 0 && price > 0 && qty > 0 && user > 0
    ensures var o := NewOrder(user, ref, side, price, qty, 1);
      After(Opening(free), [(CmdAdd(0, ref, side, price, qty, user, Day), true)]) ==
      State(Opening(free).books[0 := WithHalf(EMPTY_BOOK, side, [o])], free - 1, {ref}, 2, 1)
  {
    var input := (CmdAdd(0, ref, side, price, qty, user, Day), true);
    var o := NewOrder(user, ref, side, price, qty, 1);
    assert Walk([], o) == Walked([], [], o);
    assert Insert([], o) == [o];
    NothingGone();
    var st1 := Opening(free).(nextSeq := 2);
    assert AfterWalk(st1, 0, o).books == st1.books;
    assert [input][1..] == [];
  }

  // ── books never cross between users ──

  ghost predicate PositiveHalf(q: seq<OrderData>) {
    forall i :: 0 <= i < |q| ==> q[i].remainingQty > 0
  }

  /** No zero-quantity order rests. */
  ghost predicate Positive(st: State) {
    forall l :: 0 <= l < |st.books| ==> PositiveHalf(st.books[l].bids) && PositiveHalf(st.books[l].asks)
  }

  lemma PositiveWith(st: State, st': State, l: nat, side: Side, q: seq<OrderData>)
    requires Positive(st) && l < |st.books| && side != Invalid && PositiveHalf(q)
    requires st'.books == st.books[l := WithHalf(st.books[l], side, q)]
    ensures Positive(st')
  {
  }

  lemma ExecuteKeepsPositive(st: State, l: nat, taker: OrderData, tif: Tif, ins: bool)
    requires Positive(st) && l < |st.books| && taker.remainingQty > 0
    ensures Positive(Execute(st, l, taker, tif, ins).state)
  {
    hide Walk, Insert, Positive;
    var opp, w, st1 := Opposite(taker.side), WalkIn(st, l, taker), AfterWalk(st, l, taker);
    var v := Half2(st.books[l], opp);
    PositiveOf(st, l, opp);
    WalkStatus(v, taker);
    WalkKeepsTaker(v, taker);
    forall i | 0 <= i < |w.rest| ensures w.rest[i].remainingQty > 0 {
      var j := RestIsRemnant(v, taker, i);
    }
    PositiveWith(st, st1, l, opp, w.rest);
    if w.taker.status != Filled && CanRest(st1, w.taker) {
      var q := Half2(st1.books[l], w.taker.side);
      PositiveOf(st1, l, w.taker.side);
      InsertPositive(q, w.taker);
      PositiveWith(st1, Rest(st1, l, w.taker, ins), l, w.taker.side, Insert(q, w.taker));
    }
  }

  lemma PositiveOf(st: State, l: nat, side: Side)
    requires Positive(st) && l < |st.books|
    ensures PositiveHalf(Half2(st.books[l], side))
  {
  }

  lemma InsertPositive(q: seq<OrderData>, o: OrderData)
    requires PositiveHalf(q) && o.remainingQty > 0
    ensures PositiveHalf(Insert(q, o))
  {
    var k := RestPos(o.side, q, o.price);
    forall i | 0 <= i < |Insert(q, o)| ensures Insert(q, o)[i].remainingQty > 0 {
      assert Insert(q, o)[i] == if i < k then q[i] else if i == k then o else q[i - 1];
    }
  }

  lemma RemoveKeepsPositive(st: State, l: nat, id: u64)
    requires Positive(st) && Found(st, l, id)
    ensures Positive(Remove(st, l, id))
  {
    hide Positive;
    var (side, k) := Locate(st.books[l], id);
    PositiveOf(st, l, side);
    PositiveWith(st, Remove(st, l, id), l, side, RemoveAt(Half2(st.books[l], side), k));
  }

  lemma ShrinkKeepsPositive(st: State, l: nat, id: u64, shares: u32)
    requires Positive(st) && Found(st, l, id) && shares < OrderIn(st.books[l], id).remainingQty
    ensures Positive(st.(books := st.books[l := Replaced(st.books[l], id, Shrunk(OrderIn(st.books[l], id), shares))]))
  {
    hide Positive;
    var (side, k) := Locate(st.books[l], id);
    var q, o := Half2(st.books[l], side), Shrunk(OrderIn(st.books[l], id), shares);
    PositiveOf(st, l, side);
    PositiveWith(st, st.(books := st.books[l := Replaced(st.books[l], id, o)]), l, side, q[k := o]);
  }

  lemma PositiveAgree(st: State, st': State)
    requires st'.books == st.books && Positive(st)
    ensures Positive(st')
  {
  }

  lemma StepKeepsPositive(st: State, c: Command, ins: bool)
    requires |st.books| == MAX_LOCATE && Positive(st) && (c.CmdReplace? ==> c.qty > 0)
    ensures Positive(Step(st, c, ins).state)
  {
    hide Positive, Execute, Locate, ReachQty, Remove, Shrunk;
    match c
    case CmdAdd(l, ref, side, price, qty, user, tif) =>
      if Refusal(st, l, ref, side, price, qty, user, tif).None? {
        var st1 := st.(nextSeq := Wrap64(st.nextSeq + 1));
        PositiveAgree(st, st1);
        ExecuteKeepsPositive(st1, l, NewOrder(user, ref, side, LimitOf(side, price, tif), qty, st.nextSeq), tif, ins);
      }
    case CmdCancel(l, ref, user) =>
      if Found(st, l, ref) {
        RemoveKeepsPositive(st, l, ref);
      }
    case CmdCancelShares(l, ref, shares, user) =>
      if Found(st, l, ref) {
        RemoveKeepsPositive(st, l, ref);
        if shares < OrderIn(st.books[l], ref).remainingQty {
          ShrinkKeepsPositive(st, l, ref, shares);
        }
      }
    case CmdReplace(l, oldRef, newRef, side, price, qty, user) =>
      if Found(st, l, oldRef) {
        RemoveKeepsPositive(st, l, oldRef);
        var st0 := Remove(st, l, oldRef);
        var st1 := st0.(nextSeq := Wrap64(st.nextSeq + 1));
        PositiveAgree(st0, st1);
        ExecuteKeepsPositive(st1, l, NewOrder(newRef, newRef, side, price, qty, st.nextSeq), Day, ins);
      }
  }

  lemma OpeningPositive(free: nat)
    ensures Positive(Opening(free))
  {
  }

  ghost predicate PositiveReplaces(inputs: seq<Input>) {
    forall i :: 0 <= i < |inputs| && inputs[i].0.CmdReplace? ==> inputs[i].0.qty > 0
  }

  lemma {:induction false} RunsStayPositive(st: State, inputs: seq<Input>)
    requires |st.books| == MAX_LOCATE && Positive(st) && PositiveReplaces(inputs)
    ensures Positive(After(st, inputs))
    decreases |inputs|
  {
    hide Positive, Step;
    if inputs != [] {
      StepKeepsPositive(st, inputs[0].0, inputs[0].1);
      RunsStayPositive(Step(st, inputs[0].0, inputs[0].1).state, inputs[1..]);
    }
  }

  /**
    From an empty exchange, after any commands whose replaces have positive quantity, a resting bid at or above a
    resting ask of the same book belongs to the same, nonzero, user.
   */
  lemma NeverCrossed(free: nat, inputs: seq<Input>, l: nat, i: nat, j: nat)
    requires PositiveReplaces(inputs) && l < MAX_LOCATE
    requires var b := After(Opening(free), inputs).books[l];
      i < |b.bids| && j < |b.asks| && b.bids[i].price >= b.asks[j].price
    ensures var b := After(Opening(free), inputs).books[l];
      b.bids[i].userId == b.asks[j].userId != 0
  {
    OpeningGood(free);
    RunsStayGood(Opening(free), inputs);
    RunsStayPositive(Opening(free), inputs);
    var st := After(Opening(free), inputs);
    assert GoodBook(st.books[l]);
    assert Compatible(st.books[l].bids[i], st.books[l].asks[j]);
  }

  /** No trade pairs a nonzero user with itself, and every trade is at the resting order's price within the limit. */
  lemma NoSelfTrade(st: State, l: nat, taker: OrderData, i: nat)
    requires l < |st.books| && i < |WalkIn(st, l, taker).fills|
    ensures var f := WalkIn(st, l, taker).fills[i];
      && (taker.userId != 0 ==> f.maker.userId != taker.userId)
      && f.maker in Half2(st.books[l], Opposite(taker.side))
      && Trades(l, taker.side, WalkIn(st, l, taker).fills)[i] ==
         RspTrade(l, f.maker.orderId, Opposite(taker.side), f.maker.price, f.qty)
      && Reaches(taker.side, taker.price, f.maker.price)
  {
    FillsAreFair(Half2(st.books[l], Opposite(taker.side)), taker);
    assert FairFill(taker, WalkIn(st, l, taker).fills[i]);
    TradeAt(l, taker.side, WalkIn(st, l, taker).fills, i);
  }

  lemma {:induction false} TradeAt(l: nat, side: Side, fills: seq<Fill>, i: nat)
    requires i < |fills|
    ensures Trades(l, side, fills)[i] ==
            RspTrade(l, fills[i].maker.orderId, Opposite(side), fills[i].maker.price, fills[i].qty)
  {
    if i > 0 {
      TradeAt(l, side, fills[1..], i - 1);
    }
  }

  // ── exactly when a replace crosses the book ──

  /** Two orders of opposite sides, the first on `side`, do not cross between users. */
  ghost predicate Apart(side: Side, x: OrderData, y: OrderData) {
    Reaches(side, x.price, y.price) ==> x.userId == y.userId != 0
  }

  ghost predicate Facing(side: Side, p: seq<OrderData>, q: seq<OrderData>) {
    forall i, j :: 0 <= i < |p| && 0 <= j < |q| ==> Apart(side, p[i], q[j])
  }

  /** A bid at or above an ask is the same nonzero user's. */
  ghost predicate UncrossedUsers(b: Book) {
    Facing(Buy, b.bids, b.asks)
  }

  lemma FacingFlips(p: seq<OrderData>, q: seq<OrderData>)
    ensures Facing(Buy, p, q) <==> Facing(Sell, q, p)
  {
    if Facing(Buy, p, q) {
      forall i, j | 0 <= i < |q| && 0 <= j < |p| ensures Apart(Sell, q[i], p[j]) {
        assert Apart(Buy, p[j], q[i]);
      }
    }
    if Facing(Sell, q, p) {
      forall i, j | 0 <= i < |p| && 0 <= j < |q| ensures Apart(Buy, p[i], q[j]) {
        assert Apart(Sell, q[j], p[i]);
      }
    }
  }

  lemma UncrossedOn(b: Book, side: Side)
    requires side != Invalid
    ensures UncrossedUsers(b) <==> Facing(side, Half2(b, side), Half2(b, Opposite(side)))
  {
    hide Facing;
    FacingFlips(b.bids, b.asks);
  }

  lemma GoodUncrossed(st: State, l: nat)
    requires Good(st) && Positive(st) && l < MAX_LOCATE
    ensures UncrossedUsers(st.books[l])
  {
    var b := st.books[l];
    assert GoodBook(b);
    forall i, j | 0 <= i < |b.bids| && 0 <= j < |b.asks| ensures Apart(Buy, b.bids[i], b.asks[j]) {
      assert Compatible(b.bids[i], b.asks[j]);
    }
  }

  lemma FacingInsert(side: Side, q: seq<OrderData>, opp: seq<OrderData>, o: OrderData)
    requires Facing(side, q, opp)
    ensures Facing(side, Insert(q, o), opp) <==> forall j :: 0 <= j < |opp| ==> Apart(side, o, opp[j])
  {
    hide Apart;
    var k, q' := RestPos(o.side, q, o.price), Insert(q, o);
    assert q'[k] == o;
    if forall j :: 0 <= j < |opp| ==> Apart(side, o, opp[j]) {
      forall i, j | 0 <= i < |q'| && 0 <= j < |opp| ensures Apart(side, q'[i], opp[j]) {
        assert q'[i] == if i < k then q[i] else if i == k then o else q[i - 1];
      }
    }
    if Facing(side, q', opp) {
      forall j | 0 <= j < |opp| ensures Apart(side, o, opp[j]) {
        assert Apart(side, q'[k], opp[j]);
      }
    }
  }

  /** Resting an order keeps a book uncrossed exactly when the order crosses nobody else's. */
  lemma InsertUncrossed(b: Book, o: OrderData)
    requires UncrossedUsers(b) && o.side != Invalid
    ensures UncrossedUsers(WithHalf(b, o.side, Insert(Half2(b, o.side), o))) <==>
            forall j :: 0 <= j < |Half2(b, Opposite(o.side))| ==> Apart(o.side, o, Half2(b, Opposite(o.side))[j])
  {
    hide Apart, UncrossedUsers, Facing, Insert;
    var q, opp := Half2(b, o.side), Half2(b, Opposite(o.side));
    UncrossedOn(b, o.side);
    UncrossedOn(WithHalf(b, o.side, Insert(q, o)), o.side);
    FacingInsert(o.side, q, opp, o);
  }

  /** A zero-quantity replace of a found, owned order, onto a price that some other user's order already meets. */
  ghost predicate ZeroOntoOthers(st: State, l: nat, oldRef: u64, newRef: u64, side: Side, price: u32, qty: u32, user: u64) {
    && Found(st, l, oldRef) && OrderIn(st.books[l], oldRef).userId == user && side != Invalid && qty == 0
    && var opp := Half2(Without(st.books[l], oldRef), Opposite(side));
       exists j :: 0 <= j < |opp| && Reaches(side, price, opp[j].price) && !(opp[j].userId == newRef != 0)
  }

  /** A zero-quantity order meets nobody: it rests as it came, or not at all without a side. */
  lemma ZeroRests(st: State, l: nat, taker: OrderData, ins: bool)
    requires l < |st.books| && taker.remainingQty == 0 && taker.status == Open && st.free > 0
    ensures Execute(st, l, taker, Day, ins).state.books ==
            if taker.side == Invalid then st.books
            else st.books[l := WithHalf(st.books[l], taker.side, Insert(Half2(st.books[l], taker.side), taker))]
  {
    hide Insert;
    var v := Half2(st.books[l], Opposite(taker.side));
    assert Walk(v, taker) == Walked([], v, taker);
    assert AfterWalk(st, l, taker).books == st.books;
  }

  /** A half whose orders have the same prices and users, or fewer orders, crosses no more. */
  lemma FacingFewer(side: Side, p: seq<OrderData>, q: seq<OrderData>, q': seq<OrderData>, at: seq<nat>)
    requires Facing(side, p, q) && |at| == |q'|
    requires forall j :: 0 <= j < |q'| ==> at[j] < |q| && q'[j].price == q[at[j]].price && q'[j].userId == q[at[j]].userId
    ensures Facing(side, p, q')
  {
    forall i, j | 0 <= i < |p| && 0 <= j < |q'| ensures Apart(side, p[i], q'[j]) {
      assert Apart(side, p[i], q[at[j]]);
    }
  }

  /** Book b with one half thinned out. */
  lemma ThinnedUncrossed(b: Book, side: Side, q: seq<OrderData>, at: seq<nat>)
    requires UncrossedUsers(b) && side != Invalid && |at| == |q|
    requires forall j :: 0 <= j < |q| ==>
      at[j] < |Half2(b, side)| && q[j].price == Half2(b, side)[at[j]].price && q[j].userId == Half2(b, side)[at[j]].userId
    ensures UncrossedUsers(WithHalf(b, side, q))
  {
    hide Facing, UncrossedUsers;
    UncrossedOn(b, Opposite(side));
    UncrossedOn(WithHalf(b, side, q), Opposite(side));
    FacingFewer(Opposite(side), Half2(b, Opposite(side)), Half2(b, side), q, at);
  }

  lemma WalkUncrossed(b: Book, taker: OrderData)
    requires UncrossedUsers(b)
    ensures var opp := Opposite(taker.side);
      UncrossedUsers(WithHalf(b, opp, Walk(Half2(b, opp), taker).rest))
  {
    hide UncrossedUsers, Walk;
    var opp := Opposite(taker.side);
    var v := Half2(b, opp);
    var w := Walk(v, taker);
    var at := RestKeepsOrder(v, taker);
    ThinnedUncrossed(b, opp, w.rest, at);
  }

  /** Matching a positive order and resting what it could not trade crosses nobody. */
  lemma ExecuteUncrossed(st: State, l: nat, taker: OrderData, tif: Tif, ins: bool)
    requires l < |st.books| && GoodBook(st.books[l]) && UncrossedUsers(st.books[l]) && taker.remainingQty > 0
    ensures UncrossedUsers(Execute(st, l, taker, tif, ins).state.books[l])
  {
    hide UncrossedUsers, Walk, Insert, Apart, GoodBook;
    var b, opp := st.books[l], Opposite(taker.side);
    var w := WalkIn(st, l, taker);
    WalkUncrossed(b, taker);
    GoodHalves(b, opp);
    WalkStops(Half2(b, opp), taker);
    WalkStatus(Half2(b, opp), taker);
    WalkKeepsTaker(Half2(b, opp), taker);
    if w.taker.status != Filled && taker.side != Invalid {
      NoneApart(w.taker, w.rest);
      InsertUncrossed(WithHalf(b, opp, w.rest), w.taker);
    }
  }

  lemma NoneApart(o: OrderData, q: seq<OrderData>)
    requires NoneToTake(o, q)
    ensures forall j :: 0 <= j < |q| ==> Apart(o.side, o, q[j])
  {
  }

  lemma RemoveUncrossed(st: State, l: nat, id: u64)
    requires Found(st, l, id) && UncrossedUsers(st.books[l])
    ensures UncrossedUsers(Remove(st, l, id).books[l])
  {
    hide UncrossedUsers, Locate;
    LocateIs(st.books[l], id);
    var (side, k) := Locate(st.books[l], id);
    var q := Half2(st.books[l], side);
    ThinnedUncrossed(st.books[l], side, RemoveAt(q, k), seq(|q| - 1, i => if i < k then i else i + 1));
  }

  lemma ShrinkUncrossed(st: State, l: nat, id: u64, shares: u32)
    requires Found(st, l, id) && UncrossedUsers(st.books[l])
    ensures UncrossedUsers(Replaced(st.books[l], id, Shrunk(OrderIn(st.books[l], id), shares)))
  {
    hide UncrossedUsers, Locate;
    LocateIs(st.books[l], id);
    var (side, k) := Locate(st.books[l], id);
    var q := Half2(st.books[l], side);
    ThinnedUncrossed(st.books[l], side, q[k := Shrunk(q[k], shares)], seq(|q|, i => i));
  }

  /**
    In every good state, a replace leaves an uncrossed book uncrossed between users if and only if it is not a
    zero-quantity replace onto another user's price.
   */
  lemma ReplaceUncrossed(st: State, l: nat, oldRef: u64, newRef: u64, side: Side, price: u32, qty: u32, user: u64, ins: bool)
    requires Good(st) && l < MAX_LOCATE && UncrossedUsers(st.books[l])
    ensures UncrossedUsers(Replace(st, l, oldRef, newRef, side, price, qty, user, ins).state.books[l]) <==>
            !ZeroOntoOthers(st, l, oldRef, newRef, side, price, qty, user)
  {
    hide GoodBook, UncrossedUsers, Execute, Locate, Without;
    if Found(st, l, oldRef) && OrderIn(st.books[l], oldRef).userId == user {
      if qty > 0 {
        var st1 := Remove(st, l, oldRef).(nextSeq := Wrap64(st.nextSeq + 1));
        RemoveKeepsGood(st, l, oldRef);
        RemoveUncrossed(st, l, oldRef);
        ExecuteUncrossed(st1, l, NewOrder(newRef, newRef, side, price, qty, st.nextSeq), Day, ins);
      } else {
        ZeroReplace(st, l, oldRef, newRef, side, price, user, ins);
      }
    }
  }

  lemma ZeroReplace(st: State, l: nat, oldRef: u64, newRef: u64, side: Side, price: u32, user: u64, ins: bool)
    requires |st.books| == MAX_LOCATE && l < MAX_LOCATE && UncrossedUsers(st.books[l])
    requires Found(st, l, oldRef) && OrderIn(st.books[l], oldRef).userId == user
    ensures UncrossedUsers(Replace(st, l, oldRef, newRef, side, price, 0, user, ins).state.books[l]) <==>
            !ZeroOntoOthers(st, l, oldRef, newRef, side, price, 0, user)
  {
    hide UncrossedUsers, Execute, Locate, Without, Insert, Reaches;
    var st0 := Remove(st, l, oldRef);
    var st1 := st0.(nextSeq := Wrap64(st.nextSeq + 1));
    var taker := NewOrder(newRef, newRef, side, price, 0, st.nextSeq);
    RemoveUncrossed(st, l, oldRef);
    ZeroRests(st1, l, taker, ins);
    if side != Invalid {
      InsertUncrossed(st0.books[l], taker);
    }
  }

  // ── exactly which runs cross a book ──

  /** The only command that crosses a book: a zero-quantity replace onto another user's price. */
  ghost predicate Crosses(st: State, c: Command) {
    c.CmdReplace? && ZeroOntoOthers(st, c.locate, c.oldRef, c.newRef, c.side, c.price, c.qty, c.user)
  }

  ghost predicate AllUncrossed(st: State) {
    forall l :: 0 <= l < |st.books| ==> UncrossedUsers(st.books[l])
  }

  /** A command changes no book but its own. */
  lemma StepLocal(st: State, c: Command, ins: bool)
    requires |st.books| == MAX_LOCATE
    ensures forall l :: 0 <= l < MAX_LOCATE && l != c.locate ==> Step(st, c, ins).state.books[l] == st.books[l]
  {
    hide Execute, Locate, Refusal, Without, Replaced;
    match c
    case CmdAdd(l, ref, side, price, qty, user, tif) =>
      RefusalInRange(st, l, ref, side, price, qty, user, tif);
      if l < MAX_LOCATE {
        var st1 := st.(nextSeq := Wrap64(st.nextSeq + 1));
        ExecuteLocal(st1, l, NewOrder(user, ref, side, LimitOf(side, price, tif), qty, st.nextSeq), tif, ins);
      }
    case CmdCancel(_, _, _) =>
    case CmdCancelShares(_, _, _, _) =>
    case CmdReplace(l, oldRef, newRef, side, price, qty, user) =>
      if Found(st, l, oldRef) {
        var st1 := Remove(st, l, oldRef).(nextSeq := Wrap64(st.nextSeq + 1));
        ExecuteLocal(st1, l, NewOrder(newRef, newRef, side, price, qty, st.nextSeq), Day, ins);
      }
  }

  lemma ExecuteLocal(st: State, l: nat, taker: OrderData, tif: Tif, ins: bool)
    requires l < |st.books|
    ensures forall i :: 0 <= i < |st.books| && i != l ==> Execute(st, l, taker, tif, ins).state.books[i] == st.books[i]
  {
    hide Walk, Insert, Gone, Trades;
  }

  /** A command leaves its own book uncrossed between users if and only if it is not that one. */
  lemma StepUncrossedAt(st: State, c: Command, ins: bool)
    requires Good(st) && c.locate < MAX_LOCATE && UncrossedUsers(st.books[c.locate])
    ensures UncrossedUsers(Step(st, c, ins).state.books[c.locate]) <==> !Crosses(st, c)
  {
    hide GoodBook, UncrossedUsers, Execute, Locate, ZeroOntoOthers, Replace, ReachQty;
    match c
    case CmdAdd(l, ref, side, price, qty, user, tif) =>
      if Refusal(st, l, ref, side, price, qty, user, tif).None? {
        var st1 := st.(nextSeq := Wrap64(st.nextSeq + 1));
        ExecuteUncrossed(st1, l, NewOrder(user, ref, side, LimitOf(side, price, tif), qty, st.nextSeq), tif, ins);
      }
    case CmdCancel(l, ref, user) =>
      if Found(st, l, ref) {
        RemoveUncrossed(st, l, ref);
      }
    case CmdCancelShares(l, ref, shares, user) =>
      if Found(st, l, ref) {
        RemoveUncrossed(st, l, ref);
        ShrinkUncrossed(st, l, ref, shares);
      }
    case CmdReplace(l, oldRef, newRef, side, price, qty, user) =>
      ReplaceUncrossed(st, l, oldRef, newRef, side, price, qty, user, ins);
  }

  /** A command leaves every book uncrossed between users if and only if it is not that one. */
  lemma StepUncrossed(st: State, c: Command, ins: bool)
    requires Good(st) && AllUncrossed(st)
    ensures AllUncrossed(Step(st, c, ins).state) <==> !Crosses(st, c)
  {
    hide GoodBook, UncrossedUsers, Step;
    StepLocal(st, c, ins);
    if c.locate < MAX_LOCATE {
      StepUncrossedAt(st, c, ins);
    }
  }

  /** No state along the run has a book crossed between users. */
  ghost predicate UncrossedThroughout(st: State, inputs: seq<Input>)
    requires |st.books| == MAX_LOCATE
    decreases |inputs|
  {
    AllUncrossed(st) && (inputs != [] ==> UncrossedThroughout(Step(st, inputs[0].0, inputs[0].1).state, inputs[1..]))
  }

  /** No command along the run is a zero-quantity replace onto another user's price. */
  ghost predicate NoCrossing(st: State, inputs: seq<Input>)
    requires |st.books| == MAX_LOCATE
    decreases |inputs|
  {
    inputs != [] ==> !Crosses(st, inputs[0].0) && NoCrossing(Step(st, inputs[0].0, inputs[0].1).state, inputs[1..])
  }

  /** Over every run, the books stay uncrossed between users if and only if no such replace is made. */
  lemma {:induction false} RunsUncrossed(st: State, inputs: seq<Input>)
    requires Good(st) && AllUncrossed(st)
    ensures UncrossedThroughout(st, inputs) <==> NoCrossing(st, inputs)
    decreases |inputs|
  {
    hide GoodBook, AllUncrossed, Step, Crosses;
    if inputs != [] {
      var (c, ins) := inputs[0];
      StepUncrossed(st, c, ins);
      StepKeepsGood(st, c, ins);
      if !Crosses(st, c) {
        RunsUncrossed(Step(st, c, ins).state, inputs[1..]);
      } else {
        NotThroughout(Step(st, c, ins).state, inputs[1..]);
      }
    }
  }

  lemma NotThroughout(st: State, inputs: seq<Input>)
    requires |st.books| == MAX_LOCATE && !AllUncrossed(st)
    ensures !UncrossedThroughout(st, inputs)
  {
  }

  lemma OpeningUncrossed(free: nat, inputs: seq<Input>)
    ensures UncrossedThroughout(Opening(free), inputs) <==> NoCrossing(Opening(free), inputs)
  {
    OpeningGood(free);
    RunsUncrossed(Opening(free), inputs);
  }

  /** The failing case is real: two adds and a zero-quantity replace leave the book crossed between two users. */
  lemma ZeroReplaceCrosses()
    ensures var adds := [(CmdAdd(0, 1, Buy, 10, 5, 1, Day), true), (CmdAdd(0, 2, Sell, 20, 5, 2, Day), true)];
      var st := After(Opening(2), adds);
      LegalRun(Opening(2), adds) && UncrossedUsers(st.books[0]) &&
      !UncrossedUsers(Replace(st, 0, 2, 3, Sell, 10, 0, 2, true).state.books[0])
  {
    hide Replace, UncrossedUsers, Good, Positive, After, LegalRun, ZeroOntoOthers;
    var adds := [(CmdAdd(0, 1, Buy, 10, 5, 1, Day), true), (CmdAdd(0, 2, Sell, 20, 5, 2, Day), true)];
    var st := After(Opening(2), adds);
    TwoAdds();
    OpeningGood(2);
    OpeningPositive(2);
    RunsStayGood(Opening(2), adds);
    RunsStayPositive(Opening(2), adds);
    GoodUncrossed(st, 0);
    ReplaceUncrossed(st, 0, 2, 3, Sell, 10, 0, 2, true);
    AskOntoBid(st);
  }

  lemma AskOntoBid(st: State)
    requires |st.books| == MAX_LOCATE && st.indexed == {1, 2}
    requires st.books[0] == Book([NewOrder(1, 1, Buy, 10, 5, 1)], [NewOrder(2, 2, Sell, 20, 5, 2)])
    ensures ZeroOntoOthers(st, 0, 2, 3, Sell, 10, 0, 2)
  {
    var bid := NewOrder(1, 1, Buy, 10, 5, 1);
    assert Locate(st.books[0], 2) == (Sell, 0);
    assert Without(st.books[0], 2) == Book([bid], []);
    assert Half2(Without(st.books[0], 2), Buy)[0] == bid;
  }

  lemma TwoAdds()
    ensures var adds := [(CmdAdd(0, 1, Buy, 10, 5, 1, Day), true), (CmdAdd(0, 2, Sell, 20, 5, 2, Day), true)];
      var st := After(Opening(2), adds);
      && LegalRun(Opening(2), adds) && st.indexed == {1, 2} && |st.books| == MAX_LOCATE
      && st.books[0] == Book([NewOrder(1, 1, Buy, 10, 5, 1)], [NewOrder(2, 2, Sell, 20, 5, 2)])
  {
    var first, second := (CmdAdd(0, 1, Buy, 10, 5, 1, Day), true), (CmdAdd(0, 2, Sell, 20, 5, 2, Day), true);
    FirstAdd(2, 1, Buy, 10, 5, 1);
    var st1 := Step(Opening(2), first.0, true).state;
    assert [first][1..] == [] && After(st1, []) == st1;
    SecondAdd(st1);
    var st2 := Step(st1, second.0, true).state;
    assert {1} + {2} == {1, 2};
    hide Step, Permitted;
    assert [first, second][1..] == [second] && [second][1..] == [];
    assert After(Opening(2), [first, second]) == After(st1, [second]) == After(st2, []) == st2;
    assert LegalRun(st2, []) && LegalRun(st1, [second]);
  }

  lemma SecondAdd(st: State)
    requires |st.books| == MAX_LOCATE && st.books[0] == Book([NewOrder(1, 1, Buy, 10, 5, 1)], []) && st.free > 0
    requires st.nextSeq == 2 && (forall l :: 1 <= l < MAX_LOCATE ==> st.books[l] == EMPTY_BOOK)
    ensures var c := CmdAdd(0, 2, Sell, 20, 5, 2, Day); var st' := Step(st, c, true).state;
      && Permitted(st, c) && st'.indexed == st.indexed + {2}
      && st'.books[0] == Book([NewOrder(1, 1, Buy, 10, 5, 1)], [NewOrder(2, 2, Sell, 20, 5, 2)])
  {
    var bid, ask := NewOrder(1, 1, Buy, 10, 5, 1), NewOrder(2, 2, Sell, 20, 5, 2);
    assert Walk([bid], ask) == Walked([], [bid], ask);
    assert Insert([], ask) == [ask];
    NothingGone();
  }

  // ── the shape of responses ──

  /** Trade frames, then exactly one frame that is not a trade. */
  ghost predicate TradesThenOne(out: seq<Response>) {
    && out != []
    && !out[|out| - 1].RspTrade?
    && forall i :: 0 <= i < |out| - 1 ==> out[i].RspTrade?
  }

  lemma ExecuteAnswersOnce(st: State, l: nat, taker: OrderData, ins: bool)
    requires l < |st.books|
    ensures TradesThenOne(Execute(st, l, taker, Day, ins).out)
  {
    hide Walk, AfterWalk, Trades, CanRest;
    TradesAreTrades(l, taker.side, WalkIn(st, l, taker).fills);
  }

  /** Every command but an IOC or FOK add answers with trades and then exactly one other frame. */
  lemma AnswersOnce(st: State, c: Command, ins: bool)
    requires |st.books| == MAX_LOCATE && (c.CmdAdd? ==> c.tif == Day)
    ensures TradesThenOne(Step(st, c, ins).out)
  {
    hide Execute, Locate, Refusal;
    match c
    case CmdAdd(l, ref, side, price, qty, user, tif) =>
      if Refusal(st, l, ref, side, price, qty, user, tif).None? {
        RefusalInRange(st, l, ref, side, price, qty, user, tif);
        var st1 := st.(nextSeq := Wrap64(st.nextSeq + 1));
        ExecuteAnswersOnce(st1, l, NewOrder(user, ref, side, LimitOf(side, price, tif), qty, st.nextSeq), ins);
      }
    case CmdCancel(l, ref, user) =>
    case CmdCancelShares(l, ref, shares, user) =>
    case CmdReplace(l, oldRef, newRef, side, price, qty, user) =>
      if Found(st, l, oldRef) {
        var st1 := Remove(st, l, oldRef).(nextSeq := Wrap64(st.nextSeq + 1));
        ExecuteAnswersOnce(st1, l, NewOrder(newRef, newRef, side, price, qty, st.nextSeq), ins);
      }
  }
}
