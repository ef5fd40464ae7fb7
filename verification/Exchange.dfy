/**
  The exchange as a value: what each engine command does to the books, the slot count, the index and the counters,
  which responses it emits and what it logs. The engine class is proved to compute exactly this.
 */
module Exchange {
  import opened Types
  import opened Matching
  import opened Chains

  datatype Book = Book(bids: seq<OrderData>, asks: seq<OrderData>)

  const EMPTY_BOOK := Book([], [])

  /**
    books: one per stock locate. free: unused pool slots. indexed: ids the shared index finds.
    nextSeq, nextId: the engine's counters.
   */
  datatype State = State(books: seq<Book>, free: nat, indexed: set<u64>, nextSeq: u64, nextId: u64)

  /** An engine that has seen no command, over a pool with `free` slots. */
  function Opening(free: nat): State {
    State(seq(MAX_LOCATE, i => EMPTY_BOOK), free, {}, 1, 1)
  }

  datatype Outcome = Outcome(state: State, out: seq<Response>, log: seq<WalEntry>)

  function Half2(b: Book, side: Side): seq<OrderData> {
    if side == Buy then b.bids else b.asks
  }

  function WithHalf(b: Book, side: Side, q: seq<OrderData>): Book {
    if side == Buy then b.(bids := q) else b.(asks := q)
  }

  // ── trading ──

  /** RSP_TRADE frames for a walk: the maker's id, side and price. */
  function Trades(locate: nat, takerSide: Side, fills: seq<Fill>): (out: seq<Response>)
    ensures |out| == |fills|
  {
    if fills == [] then []
    else [RspTrade(locate, fills[0].maker.orderId, Opposite(takerSide), fills[0].maker.price, fills[0].qty)]
         + Trades(locate, takerSide, fills[1..])
  }

  /** Ids of the makers a walk used up. */
  function Gone(fills: seq<Fill>): set<u64> {
    set i | 0 <= i < |fills| && fills[i].qty == fills[i].maker.remainingQty :: fills[i].maker.orderId
  }

  lemma GoneOne(f: Fill)
    ensures Gone([f]) == if f.qty == f.maker.remainingQty then {f.maker.orderId} else {}
  {
    assert [f][0] == f;
  }

  lemma GoneConcat(a: seq<Fill>, b: seq<Fill>)
    ensures Gone(a + b) == Gone(a) + Gone(b)
  {
    forall id | id in Gone(b) ensures id in Gone(a + b) {
      var i :| 0 <= i < |b| && b[i].qty == b[i].maker.remainingQty && b[i].maker.orderId == id;
      assert (a + b)[|a| + i] == b[i];
    }
    forall id | id in Gone(a) ensures id in Gone(a + b) {
      var i :| 0 <= i < |a| && a[i].qty == a[i].maker.remainingQty && a[i].maker.orderId == id;
      assert (a + b)[i] == a[i];
    }
  }

  lemma {:induction false} TradesConcat(locate: nat, side: Side, a: seq<Fill>, b: seq<Fill>)
    ensures Trades(locate, side, a + b) == Trades(locate, side, a) + Trades(locate, side, b)
  {
    if a == [] {
      assert a + b == b;
    } else {
      assert (a + b)[1..] == a[1..] + b;
      TradesConcat(locate, side, a[1..], b);
    }
  }

  function WalkIn(st: State, l: nat, taker: OrderData): Walked
    requires l < |st.books|
  {
    Walk(Half2(st.books[l], Opposite(taker.side)), taker)
  }

  /** The state after a walk: makers reduced or removed, their slots freed and their ids forgotten. */
  function AfterWalk(st: State, l: nat, taker: OrderData): (r: State)
    requires l < |st.books|
    ensures |r.books| == |st.books|
  {
    var w := WalkIn(st, l, taker);
    var opp := Half2(st.books[l], Opposite(taker.side));
    st.(books := st.books[l := WithHalf(st.books[l], Opposite(taker.side), w.rest)],
        free := st.free + (|opp| - |w.rest|),
        indexed := st.indexed - Gone(w.fills))
  }

  // ── resting ──

  predicate CanRest(st: State, o: OrderData) {
    o.side != Invalid && st.free > 0
  }

  /** addOrder; `ins` is whether the index accepted the id. */
  function Rest(st: State, l: nat, o: OrderData, ins: bool): (r: State)
    requires l < |st.books| && CanRest(st, o)
    ensures |r.books| == |st.books|
  {
    st.(books := st.books[l := WithHalf(st.books[l], o.side, Insert(Half2(st.books[l], o.side), o))],
        free := st.free - 1,
        indexed := if ins then st.indexed + {o.orderId} else st.indexed)
  }

  // ── commands ──

  function Error(st: State, code: ErrorCode): Outcome {
    Outcome(st, [RspError(code)], [])
  }

  /** Market orders (price 0 with IOC or FOK) match at an extreme price. */
  predicate IsMarket(price: u32, tif: Tif) {
    (tif == Ioc || tif == Fok) && price == 0
  }

  function LimitOf(side: Side, price: u32, tif: Tif): u32 {
    if IsMarket(price, tif) then (if side == Buy then NIL else 0) else price
  }

  /** The response that ends an add or a replace once matching is over. */
  function Settle(st: State, l: nat, taker: OrderData, tif: Tif, ins: bool): (r: Outcome)
    requires l < |st.books|
    ensures |r.state.books| == |st.books|
  {
    if taker.status == Filled then Outcome(st, [RspFilled(taker.orderId)], [])
    else if tif == Ioc then
      Outcome(st, if taker.filledQty == 0 then [RspError(MktNoLiquidity)] else [], [])
    else if tif == Fok then
      Outcome(st, if taker.filledQty < taker.originalQty then [RspError(FokNoFullFill)] else [], [])
    else if CanRest(st, taker) then Outcome(Rest(st, l, taker, ins), [RspOk(taker.orderId)], [])
    else Error(st, PoolFull)
  }

  /** Match a new order, then settle it. */
  function Execute(st: State, l: nat, taker: OrderData, tif: Tif, ins: bool): (r: Outcome)
    requires l < |st.books|
    ensures |r.state.books| == |st.books|
  {
    var w := WalkIn(st, l, taker);
    var done := Settle(AfterWalk(st, l, taker), l, w.taker, tif, ins);
    done.(out := Trades(l, taker.side, w.fills) + done.out)
  }

  function AddEntry(l: u16, o: OrderData, walSeq: u64): WalEntry {
    WalEntry(1, if o.side == Buy then 1 else 2, l, o.price, o.originalQty, o.userId, o.orderId, walSeq)
  }

  /** Why an add is refused before it takes effect, if it is. */
  ghost function Refusal(st: State, l: nat, ref: u64, side: Side, price: u32, qty: u32, user: u64, tif: Tif): Option<ErrorCode>
    requires |st.books| == MAX_LOCATE
  {
    if l >= MAX_LOCATE then Some(InvalidCommandType)
    else if side == Invalid then Some(InvalidSide)
    else if (!IsMarket(price, tif) && price == 0) || qty == 0 || user == 0 || ref == 0 then Some(InvalidPriceQtyUser)
    else if tif == Fok
            && ReachQty(side, LimitOf(side, price, tif), Half2(st.books[l], Opposite(side))) % TWO32 < qty
    then Some(FokNoFullFill)
    else None
  }

  lemma RefusalInRange(st: State, l: nat, ref: u64, side: Side, price: u32, qty: u32, user: u64, tif: Tif)
    requires |st.books| == MAX_LOCATE
    ensures Refusal(st, l, ref, side, price, qty, user, tif).None? ==> l < MAX_LOCATE
  {
  }

  /** An accepted add: take a sequence number, log, match, settle. */
  function Accept(st: State, l: nat, ref: u64, side: Side, limit: u32, qty: u32, user: u64, tif: Tif, ins: bool): (r: Outcome)
    requires |st.books| == MAX_LOCATE && l < MAX_LOCATE
    ensures |r.state.books| == |st.books|
  {
    var taker := NewOrder(user, ref, side, limit, qty, st.nextSeq);
    var st1 := st.(nextSeq := Wrap64(st.nextSeq + 1));
    Execute(st1, l, taker, tif, ins).(log := [AddEntry(l, taker, st1.nextSeq)])
  }

  ghost function Add(st: State, l: nat, ref: u64, side: Side, price: u32, qty: u32, user: u64, tif: Tif, ins: bool): (r: Outcome)
    requires |st.books| == MAX_LOCATE
    ensures |r.state.books| == |st.books|
  {
    var refused := Refusal(st, l, ref, side, price, qty, user, tif);
    if refused.Some? then Error(st, refused.value)
    else Accept(st, l, ref, side, LimitOf(side, price, tif), qty, user, tif, ins)
  }

  /** Where an id rests in a book. */
  function Locate(b: Book, id: u64): (Side, nat) {
    var k := IndexOf(b.bids, id);
    if k < |b.bids| then (Buy, k) else (Sell, IndexOf(b.asks, id))
  }

  predicate InBook(b: Book, id: u64) {
    Locate(b, id).1 < |Half2(b, Locate(b, id).0)|
  }

  function OrderIn(b: Book, id: u64): OrderData
    requires InBook(b, id)
  {
    var (side, k) := Locate(b, id);
    Half2(b, side)[k]
  }

  function Without(b: Book, id: u64): Book
    requires InBook(b, id)
  {
    var (side, k) := Locate(b, id);
    WithHalf(b, side, RemoveAt(Half2(b, side), k))
  }

  function Replaced(b: Book, id: u64, o: OrderData): Book
    requires InBook(b, id)
  {
    var (side, k) := Locate(b, id);
    WithHalf(b, side, Half2(b, side)[k := o])
  }

  predicate NoId(q: seq<OrderData>, id: u64) {
    forall i :: 0 <= i < |q| ==> q[i].orderId != id
  }

  /** The id is not live: no book holds an order with it. */
  predicate FreshRef(st: State, id: u64) {
    forall l :: 0 <= l < |st.books| ==> NoId(st.books[l].bids, id) && NoId(st.books[l].asks, id)
  }

  /** Cancels and replaces must name the order's own locate. */
  predicate OwnLocate(st: State, l: nat, id: u64) {
    id in st.indexed && l < |st.books| ==> InBook(st.books[l], id)
  }

  /** What the index finds for an id named with locate l. */
  predicate Found(st: State, l: nat, id: u64) {
    id in st.indexed && l < |st.books| && InBook(st.books[l], id)
  }

  /** removeOrder of a found order. */
  function Remove(st: State, l: nat, id: u64): (r: State)
    requires Found(st, l, id)
    ensures |r.books| == |st.books|
  {
    st.(books := st.books[l := Without(st.books[l], id)], free := st.free + 1, indexed := st.indexed - {id})
  }

  function CancelEntry(kind: int, l: u16, price: u32, qty: u32, user: u64, ref: u64, walSeq: u64): WalEntry {
    WalEntry(kind, 0, l, price, qty, user, ref, walSeq)
  }

  function Cancel(st: State, l: nat, ref: u64, user: u64): (r: Outcome)
    requires |st.books| == MAX_LOCATE
    ensures |r.state.books| == |st.books|
  {
    if l >= MAX_LOCATE then Error(st, OrderNotFound)
    else
      var log := [CancelEntry(2, l, 0, 0, user, ref, st.nextSeq)];
      if Found(st, l, ref) && OrderIn(st.books[l], ref).userId == user
      then Outcome(Remove(st, l, ref), [RspCancelled(ref)], log)
      else Error(st, OrderNotFound).(log := log)
  }

  function CancelShares(st: State, l: nat, ref: u64, shares: u32, user: u64): (r: Outcome)
    requires |st.books| == MAX_LOCATE
    ensures |r.state.books| == |st.books|
  {
    if l >= MAX_LOCATE then Error(st, OrderNotFound)
    else
      var log := [CancelEntry(3, l, 0, shares, user, ref, st.nextSeq)];
      if !Found(st, l, ref) || OrderIn(st.books[l], ref).userId != user then Error(st, OrderNotFound).(log := log)
      else
        var o := OrderIn(st.books[l], ref);
        if shares >= o.remainingQty then Outcome(Remove(st, l, ref), [RspCancelled(ref)], log)
        else Outcome(st.(books := st.books[l := Replaced(st.books[l], ref, Shrunk(o, shares))]), [RspOk(ref)], log)
  }

  /** A replace of a found order: the old order goes, the new one is matched and settled under its new ref. */
  function ReplaceFound(st: State, l: nat, oldRef: u64, newRef: u64, side: Side, price: u32, qty: u32, ins: bool): (r: Outcome)
    requires Found(st, l, oldRef)
    ensures |r.state.books| == |st.books|
  {
    var st1 := Remove(st, l, oldRef).(nextSeq := Wrap64(st.nextSeq + 1));
    Execute(st1, l, NewOrder(newRef, newRef, side, price, qty, st.nextSeq), Day, ins)
  }

  function Replace(st: State, l: nat, oldRef: u64, newRef: u64, side: Side, price: u32, qty: u32, user: u64, ins: bool): (r: Outcome)
    requires |st.books| == MAX_LOCATE
    ensures |r.state.books| == |st.books|
  {
    if l >= MAX_LOCATE then Error(st, OrderNotFound)
    else
      var log := [CancelEntry(4, l, price, qty, user, newRef, st.nextSeq)];
      if !Found(st, l, oldRef) || OrderIn(st.books[l], oldRef).userId != user then Error(st, OrderNotFound).(log := log)
      else ReplaceFound(st, l, oldRef, newRef, side, price, qty, ins).(log := log)
  }

  /** A replace needs its new ref to be free once the old order is gone. */
  predicate ReplaceFresh(st: State, l: nat, oldRef: u64, newRef: u64) {
    Found(st, l, oldRef) ==> FreshRef(Remove(st, l, oldRef), newRef)
  }

  // ── ids under matching ──

  lemma {:induction false} WalkKeepsNoId(opp: seq<OrderData>, taker: OrderData, id: u64)
    requires NoId(opp, id)
    ensures NoId(Walk(opp, taker).rest, id)
  {
    if opp != [] {
      var q := Min(taker.remainingQty, opp[0].remainingQty);
      WalkKeepsNoId(opp[1..], taker, id);
      WalkKeepsNoId(opp[1..], AfterFill(taker, q), id);
    }
  }

  lemma FreshAfterWalk(st: State, l: nat, taker: OrderData, id: u64)
    requires l < |st.books| && FreshRef(st, id)
    ensures FreshRef(AfterWalk(st, l, taker), id)
  {
    hide Walk;
    WalkKeepsNoId(Half2(st.books[l], Opposite(taker.side)), taker, id);
  }
}
