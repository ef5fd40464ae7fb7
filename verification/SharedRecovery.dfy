/** Rebuilding book 0 from the slot array alone. */
module SharedRecovery {
  import opened Types
  import opened Matching
  import opened SideRep
  import opened SideUpdates
  import opened Exchange
  import opened IndexValue
  import opened Replay

  /** A record worth keeping: a nonzero id that is not filled or cancelled. */
  predicate Recoverable(o: OrderData) {
    o.orderId != 0 && o.status != Filled && o.status != Cancelled
  }

  /** The recoverable records of one side, in slot order. */
  ghost function Kept(records: seq<OrderData>, side: Side): seq<OrderData> {
    if records == [] then []
    else
      var n := |records| - 1;
      Kept(records[..n], side) + if Recoverable(records[n]) && records[n].side == side then [records[n]] else []
  }

  /** Rest orders one after another. */
  ghost function InsertAll(q: seq<OrderData>, os: seq<OrderData>): seq<OrderData> {
    if os == [] then q else Insert(InsertAll(q, os[..|os| - 1]), os[|os| - 1])
  }

  /** The books after recovering these records: all in book 0. */
  ghost function Rebuilt(records: seq<OrderData>): (books: seq<Book>)
    ensures |books| == MAX_LOCATE
  {
    Opening(0).books[0 := Book(InsertAll([], Kept(records, Buy)), InsertAll([], Kept(records, Sell)))]
  }

  ghost predicate DistinctRecords(records: seq<OrderData>) {
    forall i, j :: 0 <= i < j < |records| && Recoverable(records[i]) && Recoverable(records[j]) ==>
      records[i].orderId != records[j].orderId
  }

  lemma MultisetInsert(q: seq<OrderData>, o: OrderData)
    ensures multiset(Insert(q, o)) == multiset(q) + multiset{o}
  {
    var k := RestPos(o.side, q, o.price);
    assert q == q[..k] + q[k..];
  }

  /** Resting keeps exactly the orders given. */
  lemma {:induction false} InsertAllExact(os: seq<OrderData>)
    ensures multiset(InsertAll([], os)) == multiset(os)
  {
    if os != [] {
      var n := |os| - 1;
      InsertAllExact(os[..n]);
      MultisetInsert(InsertAll([], os[..n]), os[n]);
      assert os == os[..n] + [os[n]];
    }
  }

  lemma {:induction false} InsertAllHalf(side: Side, os: seq<OrderData>)
    requires forall i :: 0 <= i < |os| ==> os[i].side == side
    ensures Half(side, InsertAll([], os))
  {
    if os != [] {
      var n := |os| - 1;
      InsertAllHalf(side, os[..n]);
      var q := InsertAll([], os[..n]);
      InsertHalf(side, q, os[n], InsertAt(q, RestPos(side, q, os[n].price), os[n]));
    }
  }

  lemma {:induction false} InsertAllNoId(os: seq<OrderData>, id: u64)
    requires NoId(os, id)
    ensures NoId(InsertAll([], os), id)
  {
    if os != [] {
      var n := |os| - 1;
      InsertAllNoId(os[..n], id);
      InsertAddsNoId(InsertAll([], os[..n]), os[n], id);
    }
  }

  lemma InsertAddsNoId(q: seq<OrderData>, o: OrderData, id: u64)
    requires NoId(q, id) && o.orderId != id
    ensures NoId(Insert(q, o), id)
  {
    var k := RestPos(o.side, q, o.price);
    forall i | 0 <= i < |Insert(q, o)| ensures Insert(q, o)[i].orderId != id {
      assert Insert(q, o)[i] == if i < k then q[i] else if i == k then o else q[i - 1];
    }
  }

  lemma {:induction false} KeptNoId(records: seq<OrderData>, side: Side, id: u64)
    requires forall i :: 0 <= i < |records| && Recoverable(records[i]) ==> records[i].orderId != id
    ensures NoId(Kept(records, side), id)
  {
    if records != [] {
      KeptNoId(records[..|records| - 1], side, id);
    }
  }

  /** The next distinct record is not live in the books rebuilt so far. */
  lemma NextRecordFresh(records: seq<OrderData>, i: nat, st: State)
    requires DistinctRecords(records) && i < |records| && Recoverable(records[i])
    requires st.books == Rebuilt(records[..i])
    ensures FreshRef(st, records[i].orderId)
  {
    var id := records[i].orderId;
    KeptNoId(records[..i], Buy, id);
    KeptNoId(records[..i], Sell, id);
    InsertAllNoId(Kept(records[..i], Buy), id);
    InsertAllNoId(Kept(records[..i], Sell), id);
  }

  lemma KeptNext(records: seq<OrderData>, i: nat, side: Side)
    requires i < |records|
    ensures Kept(records[..i + 1], side) ==
            Kept(records[..i], side) + if Recoverable(records[i]) && records[i].side == side then [records[i]] else []
  {
    assert records[..i + 1][..i] == records[..i];
  }

  lemma InsertAllNext(os: seq<OrderData>, o: OrderData)
    ensures InsertAll([], os + [o]) == Insert(InsertAll([], os), o)
  {
    assert (os + [o])[..|os|] == os;
  }

  /** Recovering one more record rests it in book 0, or skips it. */
  lemma RebuiltNext(records: seq<OrderData>, i: nat)
    requires i < |records|
    ensures var o := records[i];
      Rebuilt(records[..i + 1]) ==
        if Recoverable(o) && o.side != Invalid
        then Rebuilt(records[..i])[0 := WithHalf(Rebuilt(records[..i])[0], o.side,
                                                 Insert(Half2(Rebuilt(records[..i])[0], o.side), o))]
        else Rebuilt(records[..i])
  {
    hide Kept, InsertAll;
    var o, b := records[i], Rebuilt(records[..i])[0];
    KeptNext(records, i, Buy);
    KeptNext(records, i, Sell);
    InsertAllNext(Kept(records[..i], Buy), o);
    InsertAllNext(Kept(records[..i], Sell), o);
    assert Kept(records[..i], Buy) + [] == Kept(records[..i], Buy);
    assert Kept(records[..i], Sell) + [] == Kept(records[..i], Sell);
  }

  /** Recovery keeps exactly the recoverable records of each side, none lost and none invented, in priority order. */
  lemma RebuiltExact(records: seq<OrderData>)
    ensures multiset(Rebuilt(records)[0].bids) == multiset(Kept(records, Buy))
    ensures multiset(Rebuilt(records)[0].asks) == multiset(Kept(records, Sell))
    ensures Half(Buy, Rebuilt(records)[0].bids) && Half(Sell, Rebuilt(records)[0].asks)
  {
    InsertAllExact(Kept(records, Buy));
    InsertAllExact(Kept(records, Sell));
    KeptSide(records, Buy);
    KeptSide(records, Sell);
    InsertAllHalf(Buy, Kept(records, Buy));
    InsertAllHalf(Sell, Kept(records, Sell));
  }

  /**
    Each half of the rebuilt book holds an order exactly as often as the slot array does, if it has a nonzero id, that
    side, and is open or partly filled; and not at all otherwise.
   */
  lemma RebuiltCounts(records: seq<OrderData>, o: OrderData)
    ensures var kept := o.orderId != 0 && (o.status == Open || o.status == PartiallyFilled);
      && multiset(Rebuilt(records)[0].bids)[o] == (if kept && o.side == Buy then multiset(records)[o] else 0)
      && multiset(Rebuilt(records)[0].asks)[o] == (if kept && o.side == Sell then multiset(records)[o] else 0)
  {
    InsertAllExact(Kept(records, Buy));
    InsertAllExact(Kept(records, Sell));
    KeptCounts(records, Buy, o);
    KeptCounts(records, Sell, o);
  }

  lemma {:induction false} KeptCounts(records: seq<OrderData>, side: Side, o: OrderData)
    ensures multiset(Kept(records, side))[o] ==
            if o.orderId != 0 && (o.status == Open || o.status == PartiallyFilled) && o.side == side
            then multiset(records)[o] else 0
  {
    if records != [] {
      var n := |records| - 1;
      KeptCounts(records[..n], side, o);
      assert records == records[..n] + [records[n]];
    }
  }

  lemma {:induction false} KeptSide(records: seq<OrderData>, side: Side)
    ensures forall i :: 0 <= i < |Kept(records, side)| ==>
              Kept(records, side)[i].side == side && Recoverable(Kept(records, side)[i]) && Kept(records, side)[i] in records
    ensures forall i :: 0 <= i < |records| && Recoverable(records[i]) && records[i].side == side ==>
              records[i] in Kept(records, side)
  {
    if records != [] {
      var n := |records| - 1;
      KeptSide(records[..n], side);
      assert records == records[..n] + [records[n]];
    }
  }

  /** The slot numbers k, k + 1, ... cap - 1. */
  ghost function FreeFrom(k: nat, cap: nat): (f: seq<nat>)
    requires k <= cap <= NIL
    ensures |f| == cap - k
  {
    seq(cap - k, j => k + j)
  }

  /** The records that get a slot, in slot order. */
  ghost function Accepted(records: seq<OrderData>): (a: seq<OrderData>)
    ensures |a| <= |records|
  {
    if records == [] then []
    else
      var n := |records| - 1;
      Accepted(records[..n]) + if Recoverable(records[n]) && records[n].side != Invalid then [records[n]] else []
  }

  ghost function SeqAfter(next: u64, records: seq<OrderData>): u64 {
    if records == [] then next
    else
      var n := |records| - 1;
      var before := SeqAfter(next, records[..n]);
      if Recoverable(records[n]) then Bump(before, records[n].sequence) else before
  }

  ghost function IdAfter(next: u64, records: seq<OrderData>): u64 {
    if records == [] then next
    else
      var n := |records| - 1;
      var before := IdAfter(next, records[..n]);
      if Recoverable(records[n]) then Bump(before, records[n].orderId) else before
  }

  ghost function IdsOf(os: seq<OrderData>): set<u64> {
    set i | 0 <= i < |os| :: os[i].orderId
  }

  lemma IdsOfSnoc(os: seq<OrderData>, o: OrderData)
    ensures IdsOf(os + [o]) == IdsOf(os) + {o.orderId}
  {
    var os' := os + [o];
    assert os'[|os|] == o;
    forall i | 0 <= i < |os| ensures os[i].orderId in IdsOf(os') {
      assert os'[i] == os[i];
    }
  }

  /** The index after these orders are rested one by one. */
  ghost function BindAll(ix: Index, os: seq<OrderData>): Index {
    if os == [] then ix else Bind(BindAll(ix, os[..|os| - 1]), os[|os| - 1].orderId)
  }

  lemma BindAllSnoc(ix: Index, os: seq<OrderData>, o: OrderData)
    ensures BindAll(ix, os + [o]) == Bind(BindAll(ix, os), o.orderId)
  {
    assert (os + [o])[..|os|] == os;
  }

  /** The index gains no id but theirs, and all of theirs if there was a node for each. */
  lemma {:induction false} BindAllGains(ix: Index, os: seq<OrderData>)
    requires Sized(ix)
    ensures var ix' := BindAll(ix, os);
      && Sized(ix') && ix'.free + |os| >= ix.free && ix.keys <= ix'.keys <= ix.keys + IdsOf(os)
      && (|os| <= ix.free ==> ix'.keys == ix.keys + IdsOf(os))
  {
    hide IdsOf, Bind, Accepts, Sized;
    if os == [] {
      assert IdsOf([]) == {} by { IdsOfNone(); }
    } else {
      var n := |os| - 1;
      BindAllGains(ix, os[..n]);
      BindTakesOne(BindAll(ix, os[..n]), os[n].orderId);
      assert os == os[..n] + [os[n]];
      IdsOfSnoc(os[..n], os[n]);
    }
  }

  lemma IdsOfNone()
    ensures IdsOf([]) == {}
  {
  }

  /** Dealing with record i binds its id, if it gets a slot. */
  lemma AcceptedBinds(records: seq<OrderData>, i: nat, ix: Index)
    requires i < |records|
    ensures BindAll(ix, Accepted(records[..i + 1])) ==
            if Recoverable(records[i]) && records[i].side != Invalid
            then Bind(BindAll(ix, Accepted(records[..i])), records[i].orderId) else BindAll(ix, Accepted(records[..i]))
  {
    hide Accepted, BindAll, Bind;
    AcceptedNext(records, i);
    BindAllSnoc(ix, Accepted(records[..i]), records[i]);
    assert Accepted(records[..i]) + [] == Accepted(records[..i]);
  }

  lemma AcceptedNext(records: seq<OrderData>, i: nat)
    requires i < |records|
    ensures Accepted(records[..i + 1]) ==
            Accepted(records[..i]) + if Recoverable(records[i]) && records[i].side != Invalid then [records[i]] else []
    ensures forall next :: SeqAfter(next, records[..i + 1]) ==
              if Recoverable(records[i]) then Bump(SeqAfter(next, records[..i]), records[i].sequence) else SeqAfter(next, records[..i])
    ensures forall next :: IdAfter(next, records[..i + 1]) ==
              if Recoverable(records[i]) then Bump(IdAfter(next, records[..i]), records[i].orderId) else IdAfter(next, records[..i])
  {
    assert records[..i + 1][..i] == records[..i];
  }

  lemma RebuiltNone()
    ensures Rebuilt([]) == Opening(0).books
  {
    assert Opening(0).books[0] == EMPTY_BOOK;
  }

  /**
    Half way through recovery: the first i records are dealt with, those kept fill the lowest slots in order, and the
    records still to come are untouched.
   */
  ghost predicate Scanned(records: seq<OrderData>, i: nat, now: seq<OrderData>, st: State, free: seq<nat>, s0: u64, i0: u64) {
    && i <= |records| == |now| <= NIL
    && var a := Accepted(records[..i]);
    && free == FreeFrom(|a|, |records|) && now[..|a|] == a && now[i..] == records[i..]
    && st.books == Rebuilt(records[..i])
    && st.nextSeq == SeqAfter(s0, records[..i]) && st.nextId == IdAfter(i0, records[..i])
  }

  lemma ScanStarts(records: seq<OrderData>, st: State, free: seq<nat>, s0: u64, i0: u64)
    requires |records| <= NIL && free == FreeFrom(0, |records|)
    requires st == Opening(|records|).(nextSeq := s0, nextId := i0)
    ensures Scanned(records, 0, records, st, free, s0, i0)
  {
    RebuiltNone();
    assert records[..0] == [];
  }

  lemma ScanAt(records: seq<OrderData>, i: nat, now: seq<OrderData>, st: State, free: seq<nat>, s0: u64, i0: u64)
    requires i < |records| && Scanned(records, i, now, st, free, s0, i0)
    ensures |now| == |records| && now[i] == records[i] && st.books == Rebuilt(records[..i])
    ensures |records| <= NIL && |Accepted(records[..i])| <= i && free == FreeFrom(|Accepted(records[..i])|, |records|)
  {
    hide Accepted, Rebuilt, SeqAfter, IdAfter, FreeFrom;
    assert now[i..][0] == records[i..][0];
  }

  /** Dealing with record i, by skipping it or by resting it from the lowest free slot. */
  lemma ScanNext(records: seq<OrderData>, i: nat, now: seq<OrderData>, st: State, free: seq<nat>,
                 now': seq<OrderData>, st': State, free': seq<nat>, s0: u64, i0: u64)
    requires i < |records| && Scanned(records, i, now, st, free, s0, i0)
    requires |now| == |records| <= NIL
    requires var (o, k) := (records[i], |Accepted(records[..i])|);
      if !Recoverable(o) then now' == now && st' == st && free' == free
      else
        && st.books != [] && st'.nextSeq == Bump(st.nextSeq, o.sequence) && st'.nextId == Bump(st.nextId, o.orderId)
        && if o.side == Invalid then st'.books == st.books && free' == free && now' == now
           else
             && st'.books == st.books[0 := WithHalf(st.books[0], o.side, Insert(Half2(st.books[0], o.side), o))]
             && free' == FreeFrom(k + 1, |records|) && now' == now[k := o]
    ensures Scanned(records, i + 1, now', st', free', s0, i0)
  {
    hide Accepted, Rebuilt, SeqAfter, IdAfter, FreeFrom, Insert;
    RebuiltNext(records, i);
    AcceptedNext(records, i);
    var k := |Accepted(records[..i])|;
    assert now[i + 1..] == now[i..][1..];
    assert now'[i + 1..] == now[i + 1..];
    assert records[i + 1..] == records[i..][1..];
    if Recoverable(records[i]) && records[i].side != Invalid {
      assert now'[..k + 1] == now[..k] + [records[i]];
    }
  }

  /**
    The outcome of recovery: book 0 holds the recoverable records, the k-th one given a slot lies in slot k, every
    later slot is free, and the counters have moved past each record kept.
   */
  ghost predicate Recovered(records: seq<OrderData>, now: seq<OrderData>, st: State, free: seq<nat>, s0: u64, i0: u64) {
    && |records| == |now| <= NIL && st.books == Rebuilt(records)
    && Accepted(records) == now[..|Accepted(records)|] && free == FreeFrom(|Accepted(records)|, |records|)
    && st.nextSeq == SeqAfter(s0, records) && st.nextId == IdAfter(i0, records)
  }

  lemma ScanEnds(records: seq<OrderData>, now: seq<OrderData>, st: State, free: seq<nat>, s0: u64, i0: u64)
    requires Scanned(records, |records|, now, st, free, s0, i0)
    ensures Recovered(records, now, st, free, s0, i0)
  {
    assert records[..|records|] == records;
  }

  /** The id counter ends above every recovered id exactly when none of them is the largest 64-bit value. */
  lemma {:induction false} IdsBelow(next: u64, records: seq<OrderData>)
    ensures (forall i :: 0 <= i < |records| && Recoverable(records[i]) ==> records[i].orderId < IdAfter(next, records))
            <==> (forall i :: 0 <= i < |records| && Recoverable(records[i]) ==> records[i].orderId != TWO64 - 1)
    ensures (forall i :: 0 <= i < |records| && Recoverable(records[i]) ==> records[i].orderId != TWO64 - 1) ==>
              next <= IdAfter(next, records)
  {
    if records != [] {
      var n := |records| - 1;
      IdsBelow(next, records[..n]);
    }
  }

  /** Likewise the sequence counter. */
  lemma {:induction false} SeqsBelow(next: u64, records: seq<OrderData>)
    ensures (forall i :: 0 <= i < |records| && Recoverable(records[i]) ==> records[i].sequence < SeqAfter(next, records))
            <==> (forall i :: 0 <= i < |records| && Recoverable(records[i]) ==> records[i].sequence != TWO64 - 1)
    ensures (forall i :: 0 <= i < |records| && Recoverable(records[i]) ==> records[i].sequence != TWO64 - 1) ==>
              next <= SeqAfter(next, records)
  {
    if records != [] {
      var n := |records| - 1;
      SeqsBelow(next, records[..n]);
    }
  }
}
