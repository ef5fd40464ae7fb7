/** Saving a book as a stream of orders and loading it again. */
module Snapshots {
  import opened Types
  import opened Matching
  import opened Exchange
  import opened IndexValue
  import opened SharedRecovery

  /** The orders of a stream of slot records. */
  ghost function Datas(stream: seq<Order>): (os: seq<OrderData>)
    ensures |os| == |stream|
  {
    seq(|stream|, i requires 0 <= i < |stream| => stream[i].data)
  }

  /** The order stream of a snapshot: bids in priority order, then asks. */
  ghost function Stream(b: Book): seq<OrderData> {
    b.bids + b.asks
  }

  /** Loading a stream rests each order in turn while slots last; gives the book and the slots left. */
  ghost function Loaded(b: Book, free: nat, os: seq<OrderData>): (Book, nat) {
    if os == [] then (b, free)
    else
      var (b', f), o := Loaded(b, free, os[..|os| - 1]), os[|os| - 1];
      if o.side == Invalid || f == 0 then (b', f) else (WithHalf(b', o.side, Insert(Half2(b', o.side), o)), f - 1)
  }

  /** The orders of a stream that get a slot. */
  ghost function Rested(free: nat, os: seq<OrderData>): (r: seq<OrderData>)
    ensures |r| <= free
  {
    if os == [] then []
    else
      var r, o := Rested(free, os[..|os| - 1]), os[|os| - 1];
      if o.side == Invalid || |r| == free then r else r + [o]
  }

  /** Every order that rests takes one slot. */
  lemma {:induction false} RestedSlots(b: Book, free: nat, os: seq<OrderData>)
    ensures Loaded(b, free, os).1 == free - |Rested(free, os)|
  {
    hide Insert;
    if os != [] {
      RestedSlots(b, free, os[..|os| - 1]);
    }
  }

  ghost function MaxSeq(os: seq<OrderData>): u64 {
    if os == [] then 0
    else
      var m := MaxSeq(os[..|os| - 1]);
      if os[|os| - 1].sequence > m then os[|os| - 1].sequence else m
  }

  ghost function MaxId(os: seq<OrderData>): u64 {
    if os == [] then 0
    else
      var m := MaxId(os[..|os| - 1]);
      if os[|os| - 1].orderId > m then os[|os| - 1].orderId else m
  }

  lemma {:induction false} MaximaBound(os: seq<OrderData>, i: nat)
    requires i < |os|
    ensures os[i].sequence <= MaxSeq(os) && os[i].orderId <= MaxId(os)
  {
    var n := |os| - 1;
    if i < n {
      MaximaBound(os[..n], i);
    }
  }

  /** Each maximum is one of the stream's values, or zero for an empty stream. */
  lemma {:induction false} MaximaAttained(os: seq<OrderData>)
    ensures if os == [] then MaxSeq(os) == 0 else exists i :: 0 <= i < |os| && os[i].sequence == MaxSeq(os)
    ensures if os == [] then MaxId(os) == 0 else exists i :: 0 <= i < |os| && os[i].orderId == MaxId(os)
  {
    if os != [] {
      var n := |os| - 1;
      MaximaAttained(os[..n]);
      assert os[n].sequence <= MaxSeq(os) && os[n].orderId <= MaxId(os);
      if n > 0 {
        var i :| 0 <= i < n && os[..n][i].sequence == MaxSeq(os[..n]);
        var j :| 0 <= j < n && os[..n][j].orderId == MaxId(os[..n]);
        assert os[i].sequence == MaxSeq(os[..n]) && os[j].orderId == MaxId(os[..n]);
      }
    }
  }

  /** One more record written: the stream and both maxima grow. */
  lemma StreamStep(stream: seq<Order>, r: Order)
    ensures Datas(stream + [r]) == Datas(stream) + [r.data]
    ensures MaxSeq(Datas(stream + [r])) == if r.data.sequence > MaxSeq(Datas(stream)) then r.data.sequence else MaxSeq(Datas(stream))
    ensures MaxId(Datas(stream + [r])) == if r.data.orderId > MaxId(Datas(stream)) then r.data.orderId else MaxId(Datas(stream))
  {
    assert Datas(stream + [r]) == Datas(stream) + [r.data];
    assert (Datas(stream) + [r.data])[..|stream|] == Datas(stream);
  }

  lemma PrefixStep(os: seq<OrderData>, i: nat)
    requires i < |os|
    ensures os[..i + 1][..i] == os[..i] && os[..i + 1][i] == os[i]
  {
  }

  /** Resting the orders of a sorted half one by one reproduces it. */
  lemma InsertSorted(side: Side, q: seq<OrderData>, n: nat)
    requires Half(side, q) && n < |q|
    ensures Insert(q[..n], q[n]) == q[..n + 1] && q[n].side == side
  {
    assert RestPos(side, q[..n], q[n].price) == n;
  }

  lemma {:induction false} LoadHalf(b: Book, free: nat, side: Side, q: seq<OrderData>, n: nat)
    requires side != Invalid && Half(side, q) && n <= |q| && n <= free && Half2(b, side) == []
    ensures Loaded(b, free, q[..n]) == (WithHalf(b, side, q[..n]), free - n)
  {
    hide Half, Insert;
    if n > 0 {
      PrefixStep(q, n - 1);
      LoadHalf(b, free, side, q, n - 1);
      InsertSorted(side, q, n - 1);
    }
  }

  lemma {:induction false} LoadedConcat(b: Book, free: nat, p: seq<OrderData>, q: seq<OrderData>)
    ensures Loaded(b, free, p + q) == Loaded(Loaded(b, free, p).0, Loaded(b, free, p).1, q)
  {
    hide Insert;
    if q == [] {
      assert p + q == p;
    } else {
      assert (p + q)[..|p + q| - 1] == p + q[..|q| - 1];
      LoadedConcat(b, free, p, q[..|q| - 1]);
    }
  }

  /** A snapshot of a well-formed book, loaded into an empty one with enough slots, is that book again. */
  lemma SnapshotRoundTrip(b: Book, free: nat)
    requires Half(Buy, b.bids) && Half(Sell, b.asks) && |Stream(b)| <= free
    ensures Loaded(EMPTY_BOOK, free, Stream(b)) == (b, free - |Stream(b)|)
  {
    hide Loaded, Half;
    LoadedConcat(EMPTY_BOOK, free, b.bids, b.asks);
    LoadHalf(EMPTY_BOOK, free, Buy, b.bids, |b.bids|);
    assert b.bids[..|b.bids|] == b.bids && b.asks[..|b.asks|] == b.asks;
    LoadHalf(Book(b.bids, []), free - |b.bids|, Sell, b.asks, |b.asks|);
  }

  /** Loading brings in no id but those of the stream. */
  lemma {:induction false} LoadedNoId(b: Book, free: nat, os: seq<OrderData>, id: u64)
    requires NoId(b.bids, id) && NoId(b.asks, id) && NoId(os, id)
    ensures var b' := Loaded(b, free, os).0; NoId(b'.bids, id) && NoId(b'.asks, id)
  {
    if os != [] {
      var n := |os| - 1;
      LoadedNoId(b, free, os[..n], id);
      InsertAddsNoId(Half2(Loaded(b, free, os[..n]).0, os[n].side), os[n], id);
    }
  }

  ghost predicate DistinctRefs(os: seq<OrderData>) {
    forall i, j :: 0 <= i < j < |os| ==> os[i].orderId != os[j].orderId
  }

  ghost predicate AllFresh(st: State, os: seq<OrderData>) {
    forall i :: 0 <= i < |os| ==> FreshRef(st, os[i].orderId)
  }

  /** Half way through a load: the first i orders are in. */
  ghost predicate LoadedUpTo(st0: State, st: State, os: seq<OrderData>, i: nat) {
    && i <= |os| && |st.books| == |st0.books| > 0
    && var (b, f) := Loaded(st0.books[0], st0.free, os[..i]);
    && st.books == st0.books[0 := b] && st.free == f && st.nextSeq == st0.nextSeq && st.nextId == st0.nextId
  }

  lemma LoadStarts(st: State, os: seq<OrderData>)
    requires |st.books| > 0
    ensures LoadedUpTo(st, st, os, 0)
  {
    assert os[..0] == [] && st.books[0 := st.books[0]] == st.books;
  }

  /** Loading order i binds its id, if it gets a slot. */
  lemma RestedBinds(st0: State, st: State, os: seq<OrderData>, i: nat, ix: Index)
    requires i < |os| && LoadedUpTo(st0, st, os, i) && |st.books| > 0
    ensures BindAll(ix, Rested(st0.free, os[..i + 1])) ==
            if CanRest(st, os[i]) then Bind(BindAll(ix, Rested(st0.free, os[..i])), os[i].orderId)
            else BindAll(ix, Rested(st0.free, os[..i]))
  {
    hide Insert, Loaded, BindAll, Bind;
    PrefixStep(os, i);
    RestedSlots(st0.books[0], st0.free, os[..i]);
    BindAllSnoc(ix, Rested(st0.free, os[..i]), os[i]);
  }

  lemma DatasAt(stream: seq<Order>, i: nat)
    requires i < |stream|
    ensures Datas(stream)[i] == stream[i].data
  {
  }

  lemma LoadFresh(st0: State, st: State, os: seq<OrderData>, i: nat)
    requires i < |os| && LoadedUpTo(st0, st, os, i) && DistinctRefs(os) && AllFresh(st0, os)
    ensures FreshRef(st, os[i].orderId)
  {
    hide Loaded;
    assert FreshRef(st0, os[i].orderId);
    LoadedNoId(st0.books[0], st0.free, os[..i], os[i].orderId);
  }

  lemma LoadNext(st0: State, st: State, st': State, os: seq<OrderData>, i: nat, ins: bool)
    requires i < |os| && LoadedUpTo(st0, st, os, i) && |st.books| > 0
    requires st' == if CanRest(st, os[i]) then Rest(st, 0, os[i], ins) else st
    ensures LoadedUpTo(st0, st', os, i + 1)
  {
    hide Insert;
    PrefixStep(os, i);
  }
}
