/** From the bytes of a message to the books: what each ITCH message that a client can send does, and how it is answered. */
module Messages {
  import opened Types
  import opened Exchange
  import opened Runs
  import opened IndexRuns
  import opened Ledger
  import opened Volumes
  import opened Answers
  import opened OrderBookModel
  import opened ItchParserModel
  import opened TcpServerModel

  ghost function SideOf(sell: bool): Side {
    if sell then Sell else Buy
  }

  /**
    An Add Order message of either type: the reference is the order and its user, and the price is in whole cents. It
    trades what others offer within that price; what is left joins the half of its side.
   */
  lemma AddServed(w: Whole, kind: Byte, locate: u16, stamp: seq<Byte>, ref: u64, sell: bool, shares: u32, stock: seq<Byte>,
                  ticks: u32, attribution: seq<Byte>) returns (k: nat)
    requires Good(w.state) && |stamp| == |stock| == 8 && (kind == 'A' as int || kind == 'F' as int)
    ensures var r := ServeMessage(w, AddMessage(kind, locate, stamp, ref, sell, shares, stock, ticks, attribution));
      var side, price, b := SideOf(sell), ticks / 100, w.state.books[locate];
      if ref == 0 || shares == 0 || price == 0 then r.out == [RspError(InvalidPriceQtyUser)] && r.now.state == w.state
      else
        var t := Terms(ref, side, price, false);
        var v, room := Offered(b, t), Room(w.state, b, shares, t);
        var q, q' := Half2(b, side), Half2(r.now.state.books[locate], side);
        && EndsAs(r.out, ref, shares, v, Faces(b, t), Day, room)
        && (if v < shares && room
            then Joins(side, q, q', OrderData(ref, ref, side, price, shares, shares - v, v, w.state.nextSeq,
                                              if Faces(b, t) then PartiallyFilled else Open), k)
            else q' == q)
        && (forall i :: 0 <= i < MAX_LOCATE && i != locate ==> r.now.state.books[i] == w.state.books[i])
  {
    hide GoodBook, Add, EndsAs, Joins, Offered, Faces, IndexAfter, InsertAnswer, Parse, AddMessage;
    k := 0;
    AddRoundTrip(kind, locate, stamp, ref, sell, shares, stock, ticks, attribution);
    var c := CmdAdd(locate, ref, SideOf(sell), ticks / 100, shares, ref, Day);
    var ins := InsertAnswer(w.state, w.index, c);
    AddRefused(w.state, locate, ref, SideOf(sell), ticks / 100, shares, ref, Day, ins);
    if ref != 0 && shares != 0 && ticks / 100 != 0 {
      k := AddAnswers(w.state, locate, ref, SideOf(sell), ticks / 100, shares, ref, Day, ins);
    }
  }

  /** The same when nobody offers anything within the price and a slot is free: the whole order joins its half. */
  lemma QuietAddServed(w: Whole, kind: Byte, locate: u16, stamp: seq<Byte>, ref: u64, sell: bool, shares: u32,
                       stock: seq<Byte>, ticks: u32, attribution: seq<Byte>) returns (k: nat)
    requires Good(w.state) && |stamp| == |stock| == 8 && (kind == 'A' as int || kind == 'F' as int)
    requires ref > 0 && shares > 0 && ticks >= 100 && w.state.free > 0
    requires forall i :: 0 <= i < |Faced(w.state.books[locate], SideOf(sell))| ==>
               var o := Faced(w.state.books[locate], SideOf(sell))[i];
               o.userId == ref || (if sell then o.price < ticks / 100 else o.price > ticks / 100)
    ensures var r := ServeMessage(w, AddMessage(kind, locate, stamp, ref, sell, shares, stock, ticks, attribution));
      var side := SideOf(sell);
      && r.out == [RspOk(ref)]
      && Joins(side, Half2(w.state.books[locate], side), Half2(r.now.state.books[locate], side),
               OrderData(ref, ref, side, ticks / 100, shares, shares, 0, w.state.nextSeq, Open), k)
  {
    hide GoodBook, ServeMessage, OthersVolume, TradedIn, Joins;
    var side, price, b := SideOf(sell), ticks / 100, w.state.books[locate];
    var t := Terms(ref, side, price, false);
    k := AddServed(w, kind, locate, stamp, ref, sell, shares, stock, ticks, attribution);
    NoneOffered(Faced(b, side), ref, side, price);
  }

  lemma {:induction false} NoneOffered(v: seq<OrderData>, user: u64, side: Side, price: u32)
    requires user != 0 && side != Invalid
    requires forall i :: 0 <= i < |v| ==>
               v[i].userId == user || (if side == Sell then v[i].price < price else v[i].price > price)
    ensures OthersVolume(v, user, side, price, false) == 0 && !Met(v, user, side, price, false)
  {
    if v != [] {
      NoneOffered(v[1..], user, side, price);
    }
  }

  /** An Order Delete message: an order that owns itself and that the index has is taken out. */
  lemma DeleteServed(w: Whole, locate: u16, stamp: seq<Byte>, ref: u64, side: Side, k: nat)
    requires UniqueRefs(w.state) && StandsAt(w.state, locate, side, k, ref) && |stamp| == 8
    ensures var r, o := ServeMessage(w, DeleteMessage(locate, stamp, ref)), Half2(w.state.books[locate], side)[k];
      if ref in w.state.indexed && o.userId == ref
      then r.out == [RspCancelled(ref)] && TakenOut(w.state, r.now.state, locate, side, k, ref)
      else r.out == [RspError(OrderNotFound)] && r.now.state == w.state
  {
    hide UniqueRefs, Cancel, TakenOut, IndexAfter, Parse, DeleteMessage;
    DeleteRoundTrip(locate, stamp, ref);
    CancelAnswers(w.state, locate, ref, ref, side, k);
  }

  /** An Order Cancel message: such an order is lowered by exactly the shares, or taken out when they cover it. */
  lemma CancelServed(w: Whole, locate: u16, stamp: seq<Byte>, ref: u64, shares: u32, side: Side, k: nat)
    requires UniqueRefs(w.state) && StandsAt(w.state, locate, side, k, ref) && |stamp| == 8
    ensures var r, q := ServeMessage(w, CancelMessage(locate, stamp, ref, shares)), Half2(w.state.books[locate], side);
      if !(ref in w.state.indexed && q[k].userId == ref) then r.out == [RspError(OrderNotFound)] && r.now.state == w.state
      else if shares < q[k].remainingQty then
        && r.out == [RspOk(ref)]
        && r.now.state == w.state.(books := w.state.books[locate :=
             WithHalf(w.state.books[locate], side, q[k := q[k].(remainingQty := q[k].remainingQty - shares)])])
      else r.out == [RspCancelled(ref)] && TakenOut(w.state, r.now.state, locate, side, k, ref)
  {
    hide UniqueRefs, CancelShares, TakenOut, IndexAfter, Parse, CancelMessage;
    CancelRoundTrip(locate, stamp, ref, shares);
    CancelSharesAnswers(w.state, locate, ref, shares, ref, side, k);
  }

  /**
    An Order Replace message: such an order is taken out, and the new reference runs on its side, at the new price in
    whole cents and for the new shares, as its own user.
   */
  lemma ReplaceServed(w: Whole, locate: u16, stamp: seq<Byte>, ref: u64, newRef: u64, shares: u32, ticks: u32,
                      side: Side, k: nat) returns (k': nat)
    requires Good(w.state) && UniqueRefs(w.state) && StandsAt(w.state, locate, side, k, ref) && |stamp| == 8
    ensures var r := ServeMessage(w, ReplaceMessage(locate, stamp, ref, newRef, shares, ticks));
      var q, price := Half2(w.state.books[locate], side), ticks / 100;
      var b, t := WithHalf(w.state.books[locate], side, q[..k] + q[k + 1..]), Terms(newRef, side, price, false);
      var v, met := Offered(b, t), shares > 0 && Faces(b, t);
      if !(ref in w.state.indexed && q[k].userId == ref) then r.out == [RspError(OrderNotFound)] && r.now.state == w.state
      else
        && EndsAs(r.out, newRef, shares, v, met, Day, true)
        && (if v >= shares > 0 then Half2(r.now.state.books[locate], side) == Half2(b, side)
            else
              var traded := if v < shares then v else 0;
              Joins(side, Half2(b, side), Half2(r.now.state.books[locate], side),
                    OrderData(newRef, newRef, side, price, shares, shares - traded, traded, w.state.nextSeq,
                              if met then PartiallyFilled else Open), k'))
        && (forall i :: 0 <= i < MAX_LOCATE && i != locate ==> r.now.state.books[i] == w.state.books[i])
  {
    hide UniqueRefs, GoodBook, Replace, EndsAs, Joins, Offered, Faces, IndexAfter, InsertAnswer, Parse, ReplaceMessage, Locate;
    ReplaceRoundTrip(locate, stamp, ref, newRef, shares, ticks);
    LocatePlace(w.state, locate, side, k, ref);
    GoodHalves(w.state.books[locate], side);
    var c := CmdReplace(locate, ref, newRef, side, ticks / 100, shares, ref);
    k' := ReplaceAnswers(w.state, locate, ref, newRef, side, ticks / 100, shares, ref, InsertAnswer(w.state, w.index, c), side, k);
  }

  /** A delete, cancel or replace of an unknown order finds nothing and changes nothing. */
  lemma UnknownServed(w: Whole, locate: u16, stamp: seq<Byte>, ref: u64, newRef: u64, shares: u32, ticks: u32, m: seq<Byte>)
    requires |w.state.books| == MAX_LOCATE && Unknown(w.state, locate, ref) && |stamp| == 8
    requires m == DeleteMessage(locate, stamp, ref) || m == CancelMessage(locate, stamp, ref, shares) ||
             m == ReplaceMessage(locate, stamp, ref, newRef, shares, ticks)
    ensures ServeMessage(w, m) == Served(w, [RspError(OrderNotFound)])
  {
    hide Cancel, CancelShares, Replace, Parse, DeleteMessage, CancelMessage, ReplaceMessage;
    DeleteRoundTrip(locate, stamp, ref);
    CancelRoundTrip(locate, stamp, ref, shares);
    ReplaceRoundTrip(locate, stamp, ref, newRef, shares, ticks);
    UnknownOrder(w.state, locate, ref, shares, newRef, Buy, ticks / 100, shares, ref, true);
    Unfound(w.state, locate, ref);
  }

  lemma Unfound(st: State, l: nat, ref: u64)
    requires Unknown(st, l, ref)
    ensures !Found(st, l, ref)
  {
  }

  /** A book query is answered with the best price of each side and the volume at it, and changes nothing. */
  lemma BookServed(w: Whole, locate: u16, rest: seq<Byte>)
    requires Good(w.state)
    ensures var r, b := ServeMessage(w, ['Q' as int] + BigBytes(locate, 2) + rest), w.state.books[locate];
      && r.now == w && |r.out| == 1 && r.out[0].RspBook? && r.out[0].bookLocate == locate
      && BestOf(Buy, b.bids, r.out[0].top.bidPrice, r.out[0].top.bidVolume)
      && BestOf(Sell, b.asks, r.out[0].top.askPrice, r.out[0].top.askVolume)
  {
    hide GoodBook, Parse, BestOf, BigBytes, Top;
    BookRoundTrip(locate, rest);
    GoodHalves(w.state.books[locate], Buy);
    GoodHalves(w.state.books[locate], Sell);
    TopIsBest(w.state.books[locate].bids, w.state.books[locate].asks);
  }
}
