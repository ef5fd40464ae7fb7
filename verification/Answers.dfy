/**
  What each command answers and does to the books, said with the fields of orders alone: volumes within a price, places in
  a half, and the answer frame by frame. No limit price, walk or lookup of the engine is named in these statements.
 */
module Answers {
  import opened Types
  import opened Matching
  import opened WalkFacts
  import opened Exchange
  import opened SideUpdates
  import opened Runs
  import opened Ledger
  import opened Indexing
  import opened Outcomes
  import opened Volumes

  // ── how an order ends ──

  /** The frame that ends an order of `qty` when others offer `v`; `room` says whether a slot can be had. */
  ghost function LastFrame(id: u64, qty: u32, v: nat, tif: Tif, room: bool): Response {
    if v >= qty > 0 then RspFilled(id)
    else if tif == Ioc then RspError(MktNoLiquidity)
    else if tif == Fok then RspError(FokNoFullFill)
    else if room then RspOk(id)
    else RspError(PoolFull)
  }

  /**
    All that others offer is traded, up to the quantity. Then one frame ends the answer, except that an IOC which traded
    something, but not all, ends with its trades. An order that met nobody gets no other frame.
   */
  ghost predicate EndsAs(out: seq<Response>, id: u64, qty: u32, v: nat, met: bool, tif: Tif, room: bool) {
    && TradedIn(out) == (if v < qty then v else qty)
    && (!met ==> |out| == 1)
    && if tif == Ioc && 0 < v < qty then forall i :: 0 <= i < |out| ==> out[i].RspTrade?
       else TradesThenOne(out) && out[|out| - 1] == LastFrame(id, qty, v, tif, room)
  }

  /** q' is q with o behind every order of an equal or better price and before every order of a worse one. */
  ghost predicate Joins(side: Side, q: seq<OrderData>, q': seq<OrderData>, o: OrderData, k: nat) {
    && k <= |q| && q' == q[..k] + [o] + q[k..]
    && (forall i :: 0 <= i < k ==> if side == Buy then q[i].price >= o.price else q[i].price <= o.price)
    && (forall i :: k <= i < |q| ==> if side == Buy then q[i].price < o.price else q[i].price > o.price)
  }

  /** The terms an order comes in with: its own side, price and user, as the caller named them. */
  datatype Terms = Terms(user: u64, side: Side, price: u32, market: bool)

  ghost predicate Meant(taker: OrderData, t: Terms) {
    && taker.userId == t.user && taker.side == t.side != Invalid
    && taker == NewOrder(taker.userId, taker.orderId, taker.side, taker.price, taker.originalQty, taker.sequence)
    && forall o: OrderData :: Reaches(taker.side, taker.price, o.price) <==> Within(t.side, t.price, t.market, o)
  }

  ghost function Offered(b: Book, t: Terms): nat {
    OthersVolume(Faced(b, t.side), t.user, t.side, t.price, t.market)
  }

  ghost predicate Faces(b: Book, t: Terms) {
    Met(Faced(b, t.side), t.user, t.side, t.price, t.market)
  }

  /** What a walk does to an order that comes in on these terms. */
  lemma WalkEnds(b: Book, taker: OrderData, t: Terms)
    requires GoodBook(b) && Meant(taker, t)
    ensures var v, w := Offered(b, t), Walk(Half2(b, Opposite(taker.side)), taker);
      && Traded32(w.fills) == (if v < taker.remainingQty then v else taker.remainingQty)
      && w.taker == taker.(remainingQty := taker.remainingQty - Traded32(w.fills), filledQty := Traded32(w.fills),
                           status := w.taker.status)
      && (w.taker.status == Filled <==> v >= taker.remainingQty > 0)
      && w.taker.status == (if v >= taker.remainingQty > 0 then Filled
                            else if taker.remainingQty > 0 && Faces(b, t) then PartiallyFilled else Open)
      && (w.fills != [] <==> taker.remainingQty > 0 && Faces(b, t))
      && (w.taker.remainingQty > 0 ==> |w.rest| + |w.fills| == |Half2(b, Opposite(taker.side))|)
      && (w.fills == [] ==> w.rest == Half2(b, Opposite(taker.side)))
  {
    hide GoodBook, Walk, Traded32, SumRemaining, SumFilled, GoneOrders, OthersVolume, TakeQty, Met, Reaches, Within;
    var opp := Half2(b, Opposite(taker.side));
    FacedIs(b, taker.side);
    GoodHalves(b, Opposite(taker.side));
    HalfSorted(Opposite(taker.side), opp);
    WalkFillsAll(opp, taker);
    WalkStatus(opp, taker);
    WalkKeepsTaker(opp, taker);
    WalkBalances(opp, taker);
    TakeIsVolume(taker, opp, t.price, t.market);
    VolumeMeets(opp, t.user, t.side, t.price, t.market);
    if taker.remainingQty > 0 {
      WalkMeets(opp, taker, t.price, t.market);
    } else {
      assert Walk(opp, taker) == Walked([], opp, taker) by { DoneWalk(opp, taker); }
      NoFills();
    }
  }

  lemma DoneWalk(opp: seq<OrderData>, taker: OrderData)
    requires taker.remainingQty == 0
    ensures Walk(opp, taker) == Walked([], opp, taker)
  {
  }

  lemma NoFills()
    ensures Traded32([]) == 0
  {
  }

  /** A slot can be had: one is free, or a trade frees one. */
  ghost predicate Room(st: State, b: Book, qty: u32, t: Terms) {
    st.free > 0 || (qty > 0 && Faces(b, t))
  }

  /** The answer to an order, from the volume others offer on its terms. */
  lemma ExecuteEnds(st: State, l: nat, taker: OrderData, tif: Tif, ins: bool, t: Terms)
    requires l < |st.books| && GoodBook(st.books[l]) && Meant(taker, t)
    requires taker.remainingQty > 0 || tif == Day
    ensures var b := st.books[l];
      EndsAs(Execute(st, l, taker, tif, ins).out, taker.orderId, taker.remainingQty, Offered(b, t),
             taker.remainingQty > 0 && Faces(b, t), tif, Room(st, b, taker.remainingQty, t))
  {
    hide GoodBook, Walk, Trades, TradedIn, Traded32, OthersVolume, Met, Rest, Reaches, Within, Gone;
    var w := WalkIn(st, l, taker);
    WalkEnds(st.books[l], taker, t);
    ExecuteTrades(st, l, taker, tif, ins);
    TradesAreTrades(l, taker.side, w.fills);
    NoFills();
  }

  /** The order joins its half exactly when it is a DAY order that is not filled and finds a slot. */
  lemma ExecuteRests(st: State, l: nat, taker: OrderData, tif: Tif, ins: bool, t: Terms) returns (k: nat)
    requires l < |st.books| && GoodBook(st.books[l]) && Meant(taker, t)
    ensures var (b, b') := (st.books[l], Execute(st, l, taker, tif, ins).state.books[l]);
      var v, qty, q := Offered(b, t), taker.remainingQty, Half2(b, t.side);
      if tif == Day && !(v >= qty > 0) && Room(st, b, qty, t)
      then Joins(t.side, q, Half2(b', t.side), Remainder(taker, b, t), k)
      else Half2(b', t.side) == q
  {
    hide GoodBook, Walk, Trades, Traded32, OthersVolume, Met, Reaches, Within, Gone, Insert;
    var b, st1, w := st.books[l], AfterWalk(st, l, taker), WalkIn(st, l, taker);
    WalkEnds(b, taker, t);
    k := RestPos(t.side, Half2(b, t.side), taker.price);
    GoodHalves(b, t.side);
    if !(Offered(b, t) >= taker.remainingQty > 0) {
      assert w.taker == Remainder(taker, b, t);
    }
    InsertJoins(t.side, Half2(b, t.side), w.taker);
  }

  /** What is left of an order when all that others offer is traded. */
  ghost function Remainder(taker: OrderData, b: Book, t: Terms): OrderData {
    var v := Offered(b, t);
    taker.(remainingQty := if v < taker.remainingQty then taker.remainingQty - v else 0,
           filledQty := if v < taker.remainingQty then v else taker.remainingQty,
           status := if taker.remainingQty > 0 && Faces(b, t) then PartiallyFilled else Open)
  }

  lemma InsertJoins(side: Side, q: seq<OrderData>, o: OrderData)
    requires Half(side, q) && o.side == side != Invalid
    ensures Joins(side, q, Insert(q, o), o, RestPos(side, q, o.price))
  {
    var k := RestPos(side, q, o.price);
    forall i | k <= i < |q| ensures if side == Buy then q[i].price < o.price else q[i].price > o.price {
      assert i > k ==> !Ahead(side, q[i].price, q[k].price);
    }
  }

  // ── adds ──

  /** What every add has to satisfy: only a market order, an IOC or FOK, may leave its price out. */
  ghost predicate WellFormed(ref: u64, price: u32, qty: u32, user: u64, tif: Tif) {
    ref != 0 && qty != 0 && user != 0 && (price != 0 || tif == Ioc || tif == Fok)
  }

  ghost function TermsOf(side: Side, price: u32, user: u64, tif: Tif): Terms {
    Terms(user, side, price, price == 0 && (tif == Ioc || tif == Fok))
  }

  /** A fill-or-kill is let through on the 32-bit sum of everything within its price, its user's own orders included. */
  ghost predicate PassesFok(b: Book, side: Side, price: u32, qty: u32) {
    Volume(Faced(b, side), side, price, price == 0) % 0x1_0000_0000 >= qty
  }

  /** The add gets as far as matching. */
  ghost predicate Executed(st: State, l: nat, ref: u64, side: Side, price: u32, qty: u32, user: u64, tif: Tif) {
    && l < |st.books| && side != Invalid && WellFormed(ref, price, qty, user, tif)
    && (tif == Fok ==> PassesFok(st.books[l], side, price, qty))
  }

  /** Why an add that is not executed is refused, with no trace of it; an executed one is logged with the price it matches at. */
  lemma AddRefused(st: State, l: nat, ref: u64, side: Side, price: u32, qty: u32, user: u64, tif: Tif, ins: bool)
    requires |st.books| == MAX_LOCATE
    ensures var r := Add(st, l, ref, side, price, qty, user, tif, ins);
      if Executed(st, l, ref, side, price, qty, user, tif) then
        r.log == [WalEntry(1, if side == Buy then 1 else 2, l,
                           if price != 0 then price else if side == Buy then 0xFFFF_FFFF else 0,
                           qty, user, ref, Wrap64(st.nextSeq + 1))]
      else
        && r.state == st && r.log == []
        && r.out == [RspError(if l >= MAX_LOCATE then InvalidCommandType
                              else if side == Invalid then InvalidSide
                              else if !WellFormed(ref, price, qty, user, tif) then InvalidPriceQtyUser
                              else FokNoFullFill)]
  {
    hide Execute, ReachQty, Reaches, Volume, Within;
    if l < MAX_LOCATE && side != Invalid && tif == Fok {
      FacedIs(st.books[l], side);
      forall o: OrderData ensures Reaches(side, LimitOf(side, price, tif), o.price) <==> Within(side, price, price == 0, o) {
        LimitMeans(side, price, tif, o);
      }
      ReachIsVolume(side, LimitOf(side, price, tif), Faced(st.books[l], side), price, price == 0);
    }
  }

  lemma AddMeant(ref: u64, side: Side, price: u32, qty: u32, user: u64, tif: Tif, sequence: u64)
    requires side != Invalid
    ensures Meant(NewOrder(user, ref, side, LimitOf(side, price, tif), qty, sequence), TermsOf(side, price, user, tif))
  {
    hide Reaches, Within, LimitOf;
    forall o: OrderData
      ensures Reaches(side, LimitOf(side, price, tif), o.price) <==>
              Within(side, price, price == 0 && (tif == Ioc || tif == Fok), o)
    {
      LimitMeans(side, price, tif, o);
    }
  }

  /** The order an add leaves in its half when others offer v. */
  ghost function Resting(user: u64, ref: u64, side: Side, price: u32, qty: u32, v: nat, sequence: u64, met: bool): OrderData
    requires v <= qty
  {
    OrderData(user, ref, side, price, qty, qty - v, v, sequence, if met then PartiallyFilled else Open)
  }

  /**
    An executed add trades all that others offer within its price, up to its quantity. A DAY order that is not filled then
    rests behind every order of an equal or better price, if a slot can be had; nothing else joins its half.
   */
  lemma AddAnswers(st: State, l: nat, ref: u64, side: Side, price: u32, qty: u32, user: u64, tif: Tif, ins: bool)
    returns (k: nat)
    requires Good(st) && Executed(st, l, ref, side, price, qty, user, tif)
    ensures var r, b, t := Add(st, l, ref, side, price, qty, user, tif, ins), st.books[l], TermsOf(side, price, user, tif);
      var v, q, q' := Offered(b, t), Half2(b, side), Half2(r.state.books[l], side);
      && EndsAs(r.out, ref, qty, v, Faces(b, t), tif, Room(st, b, qty, t))
      && (if tif == Day && v < qty && Room(st, b, qty, t)
          then Joins(side, q, q', Resting(user, ref, side, price, qty, v, st.nextSeq, Faces(b, t)), k)
          else q' == q)
      && (forall i :: 0 <= i < |st.books| && i != l ==> r.state.books[i] == st.books[i])
  {
    hide GoodBook, Execute, EndsAs, Joins, Offered, Faces, LimitOf, Volume;
    AddRefused(st, l, ref, side, price, qty, user, tif, ins);
    var t, st1 := TermsOf(side, price, user, tif), st.(nextSeq := Wrap64(st.nextSeq + 1));
    var taker := NewOrder(user, ref, side, LimitOf(side, price, tif), qty, st.nextSeq);
    assert Refusal(st, l, ref, side, price, qty, user, tif).None? by { NotRefused(st, l, ref, side, price, qty, user, tif); }
    AddMeant(ref, side, price, qty, user, tif, st.nextSeq);
    ExecuteEnds(st1, l, taker, tif, ins, t);
    k := ExecuteRests(st1, l, taker, tif, ins, t);
    ExecuteLocal(st1, l, taker, tif, ins);
    if tif == Day && Offered(st.books[l], t) < qty {
      assert LimitOf(side, price, tif) == price by { DayLimit(side, price); }
      assert Remainder(taker, st.books[l], t) ==
             Resting(user, ref, side, price, qty, Offered(st.books[l], t), st.nextSeq, Faces(st.books[l], t));
    }
  }

  lemma DayLimit(side: Side, price: u32)
    ensures LimitOf(side, price, Day) == price
  {
  }

  lemma NotRefused(st: State, l: nat, ref: u64, side: Side, price: u32, qty: u32, user: u64, tif: Tif)
    requires |st.books| == MAX_LOCATE && Executed(st, l, ref, side, price, qty, user, tif)
    ensures Refusal(st, l, ref, side, price, qty, user, tif).None?
  {
    AddRefused(st, l, ref, side, price, qty, user, tif, true);
  }

  /** An IOC or FOK leaves no order behind, and no add that is filled does. */
  lemma NothingLeft(st: State, l: nat, ref: u64, side: Side, price: u32, qty: u32, user: u64, tif: Tif, ins: bool)
    requires Good(st) && l < MAX_LOCATE && FreshRef(st, ref)
    ensures var r := Add(st, l, ref, side, price, qty, user, tif, ins);
      tif == Ioc || tif == Fok || RspFilled(ref) in r.out ==> FreshRef(r.state, ref)
  {
    hide GoodBook, Walk, FreshRef, Trades, Rest, ReachQty;
    var st1 := st.(nextSeq := Wrap64(st.nextSeq + 1));
    var taker := NewOrder(user, ref, side, LimitOf(side, price, tif), qty, st.nextSeq);
    FreshSame(st, st1, ref);
    FreshAfterWalk(st1, l, taker, ref);
    TradesAreTrades(l, side, WalkIn(st1, l, taker).fills);
  }

  /** A market IOC: it trades the whole volume of other users, up to its quantity, and is told so exactly when there is none. */
  lemma MarketTakesAll(st: State, l: nat, ref: u64, side: Side, qty: u32, user: u64, ins: bool)
    requires Good(st) && l < MAX_LOCATE && side != Invalid && ref != 0 && qty != 0 && user != 0
    ensures var r, v := Add(st, l, ref, side, 0, qty, user, Ioc, ins), AllOthers(Faced(st.books[l], side), user);
      && TradedIn(r.out) == (if v < qty then v else qty)
      && (RspError(MktNoLiquidity) in r.out <==> v == 0)
      && (RspFilled(ref) in r.out <==> v >= qty)
  {
    hide GoodBook, Add, OthersVolume, AllOthers, TradedIn;
    var b := st.books[l];
    var k := AddAnswers(st, l, ref, side, 0, qty, user, Ioc, ins);
    AnyPrice(Faced(b, side), user, side);
  }

  /** All that is not the user's own, at whatever price. */
  ghost function AllOthers(v: seq<OrderData>, user: u64): nat {
    if v == [] then 0 else (if v[0].userId != user then v[0].remainingQty else 0) + AllOthers(v[1..], user)
  }

  lemma {:induction false} AnyPrice(v: seq<OrderData>, user: u64, side: Side)
    requires user != 0
    ensures OthersVolume(v, user, side, 0, true) == AllOthers(v, user)
  {
    if v != [] {
      AnyPrice(v[1..], user, side);
    }
  }

  // ── fill or kill ──

  /** Answered as filled, with exactly the quantity asked for in its trade frames. */
  ghost predicate FillsExactly(r: Outcome, ref: u64, qty: u32) {
    r.out != [] && r.out[|r.out| - 1] == RspFilled(ref) && TradedIn(r.out) == qty
  }

  /** Refused, and nothing else. */
  ghost predicate Killed(st: State, r: Outcome) {
    r.state == st && r.out == [RspError(FokNoFullFill)] && r.log == []
  }

  /** A fill-or-kill either fills in full, or is refused with no trace. */
  ghost predicate AllOrNothing(st: State, r: Outcome, ref: u64, qty: u32) {
    FillsExactly(r, ref, qty) || Killed(st, r)
  }

  /**
    A well-formed fill-or-kill with enough within its price, on the 32-bit sum that counts its user's own orders, is
    executed; it fills exactly when the volume of other users covers it. So it is all-or-nothing except when the check
    passes on the user's own orders.
   */
  lemma FokExact(st: State, l: nat, ref: u64, side: Side, price: u32, qty: u32, user: u64, ins: bool)
    requires Good(st) && l < MAX_LOCATE && side != Invalid && qty > 0 && user > 0 && ref > 0
    ensures var r, opp := Add(st, l, ref, side, price, qty, user, Fok, ins), Faced(st.books[l], side);
      var enough := Volume(opp, side, price, price == 0) % 0x1_0000_0000 >= qty;
      var others := OthersVolume(opp, user, side, price, price == 0);
      && (!enough ==> Killed(st, r))
      && (enough && others >= qty ==> FillsExactly(r, ref, qty))
      && (enough && others < qty ==>
            r.out != [] && r.out[|r.out| - 1] == RspError(FokNoFullFill) && TradedIn(r.out) == others && r.log != [])
      && (AllOrNothing(st, r, ref, qty) <==> !(enough && others < qty))
  {
    hide GoodBook, Add, Volume, OthersVolume, TradedIn, Joins;
    AddRefused(st, l, ref, side, price, qty, user, Fok, ins);
    if PassesFok(st.books[l], side, price, qty) {
      var k := AddAnswers(st, l, ref, side, price, qty, user, Fok, ins);
    }
  }

  /** Without own orders in range, fill-or-kill is all-or-nothing, and below 2^32 it fills exactly when there is enough. */
  lemma FokAllOrNothing(st: State, l: nat, ref: u64, side: Side, price: u32, qty: u32, user: u64, ins: bool)
    requires Good(st) && l < MAX_LOCATE && side != Invalid && qty > 0 && user > 0 && ref > 0
    requires forall i :: 0 <= i < |Faced(st.books[l], side)| ==>
               var o := Faced(st.books[l], side)[i]; Within(side, price, price == 0, o) ==> o.userId != user
    ensures var r := Add(st, l, ref, side, price, qty, user, Fok, ins);
      var sum := Volume(Faced(st.books[l], side), side, price, price == 0);
      && AllOrNothing(st, r, ref, qty)
      && (sum < 0x1_0000_0000 ==> (FillsExactly(r, ref, qty) <==> sum >= qty))
  {
    hide Add, GoodBook, Volume, OthersVolume, Within;
    AllAreOthers(Faced(st.books[l], side), user, side, price, price == 0);
    FokExact(st, l, ref, side, price, qty, user, ins);
    ModBelow(Volume(Faced(st.books[l], side), side, price, price == 0));
  }

  lemma {:induction false} AllAreOthers(v: seq<OrderData>, user: u64, side: Side, price: u32, market: bool)
    requires forall i :: 0 <= i < |v| ==> Within(side, price, market, v[i]) ==> v[i].userId != user
    ensures OthersVolume(v, user, side, price, market) == Volume(v, side, price, market)
  {
    if v != [] {
      AllAreOthers(v[1..], user, side, price, market);
    }
  }

  lemma ModBelow(x: nat)
    ensures x % 0x1_0000_0000 <= x
    ensures x < 0x1_0000_0000 ==> x % 0x1_0000_0000 == x
  {
  }

  /** The failing case is real: a user's own resting order satisfies the check but is skipped by matching. */
  lemma FokOwnOrder()
    ensures var st := After(Opening(2), [(CmdAdd(0, 1, Sell, 10, 5, 7, Day), true)]);
      !AllOrNothing(st, Add(st, 0, 2, Buy, 10, 5, 7, Fok, true), 2, 5)
  {
    hide Add, Good;
    FirstAdd(2, 1, Sell, 10, 5, 7);
    OpeningGood(2);
    RunsStayGood(Opening(2), [(CmdAdd(0, 1, Sell, 10, 5, 7, Day), true)]);
    var st := After(Opening(2), [(CmdAdd(0, 1, Sell, 10, 5, 7, Day), true)]);
    var own := NewOrder(7, 1, Sell, 10, 5, 1);
    assert Faced(st.books[0], Buy) == [own];
    assert Volume([own], Buy, 10, false) == 5 + Volume([], Buy, 10, false);
    assert OthersVolume([own], 7, Buy, 10, false) == 0 + OthersVolume([], 7, Buy, 10, false);
    FokExact(st, 0, 2, Buy, 10, 5, 7, true);
  }

  // ── cancels ──

  /** Order ref stands at place k of this half of book l. */
  ghost predicate StandsAt(st: State, l: nat, side: Side, k: nat, ref: u64) {
    && |st.books| == MAX_LOCATE && l < MAX_LOCATE && side != Invalid
    && k < |Half2(st.books[l], side)| && Half2(st.books[l], side)[k].orderId == ref
  }

  lemma LocatePlace(st: State, l: nat, side: Side, k: nat, ref: u64)
    requires UniqueRefs(st) && StandsAt(st, l, side, k, ref)
    ensures Locate(st.books[l], ref) == (side, k) && InBook(st.books[l], ref)
  {
    hide UniqueRefs;
    var b := st.books[l];
    var (side', k') := Locate(b, ref);
    assert k' < |Half2(b, side')| && Half2(b, side')[k'].orderId == ref;
    OnePlace(st, l, side, k, l, side', k');
  }

  /** Order ref, at place k of its half, is gone from the books and the index; nothing else is touched. */
  ghost predicate TakenOut(st: State, st': State, l: nat, side: Side, k: nat, ref: u64)
    requires StandsAt(st, l, side, k, ref)
  {
    var q := Half2(st.books[l], side);
    && st'.books == st.books[l := WithHalf(st.books[l], side, q[..k] + q[k + 1..])]
    && st'.free == st.free + 1 && st'.indexed == st.indexed - {ref} && FreshRef(st', ref)
    && st'.nextSeq == st.nextSeq && st'.nextId == st.nextId
  }

  lemma RemoveTakesOut(st: State, l: nat, side: Side, k: nat, ref: u64)
    requires UniqueRefs(st) && StandsAt(st, l, side, k, ref) && ref in st.indexed
    ensures Found(st, l, ref) && TakenOut(st, Remove(st, l, ref), l, side, k, ref)
  {
    hide UniqueRefs, Locate, FreshRef;
    LocatePlace(st, l, side, k, ref);
    RemoveEmpties(st, l, ref);
  }

  /** A cancel takes the order out if the index has it and its owner asks; otherwise it finds nothing and changes nothing. */
  lemma CancelAnswers(st: State, l: nat, ref: u64, user: u64, side: Side, k: nat)
    requires UniqueRefs(st) && StandsAt(st, l, side, k, ref)
    ensures var r, o := Cancel(st, l, ref, user), Half2(st.books[l], side)[k];
      && r.log == [WalEntry(2, 0, l, 0, 0, user, ref, st.nextSeq)]
      && if ref in st.indexed && o.userId == user then r.out == [RspCancelled(ref)] && TakenOut(st, r.state, l, side, k, ref)
         else r.out == [RspError(OrderNotFound)] && r.state == st
  {
    hide UniqueRefs, Locate, TakenOut, Remove;
    LocatePlace(st, l, side, k, ref);
    if ref in st.indexed {
      RemoveTakesOut(st, l, side, k, ref);
    }
  }

  /**
    An owner's partial cancel lowers the remainder by exactly the shares and leaves the order at its place with every
    other field as it was; for the whole remainder or more it takes the order out. Anyone else's finds nothing.
   */
  lemma CancelSharesAnswers(st: State, l: nat, ref: u64, shares: u32, user: u64, side: Side, k: nat)
    requires UniqueRefs(st) && StandsAt(st, l, side, k, ref)
    ensures var r, q := CancelShares(st, l, ref, shares, user), Half2(st.books[l], side);
      && r.log == [WalEntry(3, 0, l, 0, shares, user, ref, st.nextSeq)]
      && if !(ref in st.indexed && q[k].userId == user) then r.out == [RspError(OrderNotFound)] && r.state == st
         else if shares < q[k].remainingQty then
           && r.out == [RspOk(ref)]
           && r.state == st.(books := st.books[l :=
                WithHalf(st.books[l], side, q[k := q[k].(remainingQty := q[k].remainingQty - shares)])])
         else r.out == [RspCancelled(ref)] && TakenOut(st, r.state, l, side, k, ref)
  {
    hide UniqueRefs, Locate, TakenOut, Remove;
    LocatePlace(st, l, side, k, ref);
    if ref in st.indexed {
      RemoveTakesOut(st, l, side, k, ref);
    }
  }

  /** Order ref is nowhere in book l, or the index does not have it. */
  ghost predicate Unknown(st: State, l: nat, ref: u64) {
    ref !in st.indexed || l >= |st.books| || (NoId(st.books[l].bids, ref) && NoId(st.books[l].asks, ref))
  }

  /** A cancel, partial cancel or replace of an unknown order finds nothing and changes nothing. */
  lemma UnknownOrder(st: State, l: nat, ref: u64, shares: u32, newRef: u64, side: Side, price: u32, qty: u32, user: u64, ins: bool)
    requires |st.books| == MAX_LOCATE && Unknown(st, l, ref)
    ensures var r := Cancel(st, l, ref, user); r.out == [RspError(OrderNotFound)] && r.state == st
    ensures var r := CancelShares(st, l, ref, shares, user); r.out == [RspError(OrderNotFound)] && r.state == st
    ensures var r := Replace(st, l, ref, newRef, side, price, qty, user, ins); r.out == [RspError(OrderNotFound)] && r.state == st
  {
    hide Remove, ReplaceFound, Replaced;
  }

  // ── replaces ──

  /**
    An owner's replace takes the old order out and runs the new one as a DAY order of the new ref, which is also its user;
    anyone else's finds nothing.
   */
  lemma ReplaceAnswers(st: State, l: nat, oldRef: u64, newRef: u64, side: Side, price: u32, qty: u32, user: u64, ins: bool,
                       oldSide: Side, k: nat) returns (k': nat)
    requires Good(st) && UniqueRefs(st) && StandsAt(st, l, oldSide, k, oldRef) && side != Invalid
    ensures var r, q := Replace(st, l, oldRef, newRef, side, price, qty, user, ins), Half2(st.books[l], oldSide);
      var b := WithHalf(st.books[l], oldSide, q[..k] + q[k + 1..]);
      var t := Terms(newRef, side, price, false);
      var v := Offered(b, t);
      && r.log == [WalEntry(4, 0, l, price, qty, user, newRef, st.nextSeq)]
      && if !(oldRef in st.indexed && q[k].userId == user) then r.out == [RspError(OrderNotFound)] && r.state == st
         else
           && EndsAs(r.out, newRef, qty, v, qty > 0 && Faces(b, t), Day, true)
           && (if v >= qty > 0 then Half2(r.state.books[l], side) == Half2(b, side)
               else
                 var traded := if v < qty then v else 0;
                 Joins(side, Half2(b, side), Half2(r.state.books[l], side),
                       Resting(newRef, newRef, side, price, qty, traded, st.nextSeq, qty > 0 && Faces(b, t)), k'))
           && (forall i :: 0 <= i < |st.books| && i != l ==> r.state.books[i] == st.books[i])
  {
    hide UniqueRefs, GoodBook, Execute, EndsAs, Joins, Offered, Faces, Locate, FreshRef;
    k' := 0;
    LocatePlace(st, l, oldSide, k, oldRef);
    if oldRef in st.indexed && Half2(st.books[l], oldSide)[k].userId == user {
      RemoveTakesOut(st, l, oldSide, k, oldRef);
      RemoveKeepsGood(st, l, oldRef);
      var t, st0 := Terms(newRef, side, price, false), Remove(st, l, oldRef);
      var st1, taker := st0.(nextSeq := Wrap64(st.nextSeq + 1)), NewOrder(newRef, newRef, side, price, qty, st.nextSeq);
      ReplaceMeant(newRef, side, price, qty, st.nextSeq);
      ExecuteEnds(st1, l, taker, Day, ins, t);
      k' := ExecuteRests(st1, l, taker, Day, ins, t);
      ExecuteLocal(st1, l, taker, Day, ins);
      assert st1.free > 0;
    }
  }

  lemma ReplaceMeant(newRef: u64, side: Side, price: u32, qty: u32, sequence: u64)
    requires side != Invalid
    ensures Meant(NewOrder(newRef, newRef, side, price, qty, sequence), Terms(newRef, side, price, false))
  {
    hide Reaches, Within;
    forall o: OrderData ensures Reaches(side, price, o.price) <==> Within(side, price, false, o) {
      PlainLimit(side, price, o);
    }
  }
}
