/** Recovery from the write-ahead log: what one entry does, and that replaying a history rebuilds its books. */
module Replay {
  import opened Types
  import opened Matching
  import opened Chains
  import opened WalkFacts
  import opened Exchange
  import opened Runs
  import opened Ledger
  import opened Indexing
  import opened IndexValue
  import opened IndexRuns
  import opened Outcomes
  import opened WalModel

  // ── what replay does ──

  function Bump(next: u64, seen: u64): u64 {
    if seen >= next then Wrap64(seen + 1) else next
  }

  /** Both counters move past what an entry mentions. */
  function Counted(st: State, e: WalEntry): State {
    st.(nextSeq := Bump(st.nextSeq, e.walSeq), nextId := Bump(st.nextId, e.orderId))
  }

  function EntryOrder(e: WalEntry): OrderData {
    NewOrder(e.userId, e.orderId, if e.side == 1 then Buy else Sell, e.price, e.quantity, e.walSeq)
  }

  function ReplayEntry(st: State, e: WalEntry, ins: bool): (r: State)
    requires |st.books| == MAX_LOCATE
    ensures |r.books| == MAX_LOCATE
  {
    var l := e.locate;
    if e.kind == 1 then
      if e.orderId in st.indexed then st
      else Counted(Execute(st, l, EntryOrder(e), Day, ins).state, e)
    else if e.kind == 2 || e.kind == 4 then
      Counted(if Found(st, l, e.orderId) && OrderIn(st.books[l], e.orderId).userId == e.userId
              then Remove(st, l, e.orderId) else st, e)
    else if e.kind == 3 then
      Counted(if Found(st, l, e.orderId) && e.quantity > 0 then
                var o := OrderIn(st.books[l], e.orderId);
                if e.quantity >= o.remainingQty then Remove(st, l, e.orderId)
                else st.(books := st.books[l := Replaced(st.books[l], e.orderId, Shrunk(o, e.quantity))])
              else st, e)
    else Counted(st, e)
  }

  /** What replay needs of an entry: an unknown id is not live, and a cancel names the order's own locate. */
  ghost predicate EntryPermitted(st: State, e: WalEntry) {
    && (e.kind == 1 ==> e.orderId in st.indexed || FreshRef(st, e.orderId))
    && (e.kind == 2 || e.kind == 3 || e.kind == 4 ==> OwnLocate(st, e.locate, e.orderId))
  }

  /** The index's answer to the id an entry rests; true where it rests none. */
  ghost predicate EntryAnswer(st: State, ix: Index, e: WalEntry)
    requires |st.books| == MAX_LOCATE
  {
    e.kind == 1 && e.orderId !in st.indexed ==> TakerAccepted(st, ix, e.locate, EntryOrder(e), Day)
  }

  ghost function EntryIndex(st: State, ix: Index, e: WalEntry): Index
    requires |st.books| == MAX_LOCATE
  {
    var l := e.locate;
    if e.kind == 1 then (if e.orderId in st.indexed then ix else ExecuteIndex(st, ix, l, EntryOrder(e), Day))
    else if e.kind == 2 || e.kind == 4 then (if Owned(st, l, e.orderId, e.userId) then Unbind(ix, e.orderId) else ix)
    else if e.kind == 3 && Found(st, l, e.orderId) && e.quantity > 0
            && e.quantity >= OrderIn(st.books[l], e.orderId).remainingQty
    then Unbind(ix, e.orderId)
    else ix
  }

  /** An entry replayed over a state and its index. */
  ghost function Redone(w: Whole, e: WalEntry): (w': Whole)
    requires |w.state.books| == MAX_LOCATE
    ensures |w'.state.books| == MAX_LOCATE
  {
    Whole(ReplayEntry(w.state, e, EntryAnswer(w.state, w.index, e)), EntryIndex(w.state, w.index, e))
  }

  ghost function Replayed(w: Whole, entries: seq<WalEntry>): (w': Whole)
    requires |w.state.books| == MAX_LOCATE
    ensures |w'.state.books| == MAX_LOCATE
    decreases |entries|
  {
    if entries == [] then w else Replayed(Redone(w, entries[0]), entries[1..])
  }

  /** What replay needs, all along a log. */
  ghost predicate LogPermitted(w: Whole, entries: seq<WalEntry>)
    requires |w.state.books| == MAX_LOCATE
    decreases |entries|
  {
    entries != [] ==> EntryPermitted(w.state, entries[0]) && LogPermitted(Redone(w, entries[0]), entries[1..])
  }

  lemma {:induction false} ReplayedConcat(w: Whole, p: seq<WalEntry>, q: seq<WalEntry>)
    requires |w.state.books| == MAX_LOCATE
    ensures Replayed(w, p + q) == Replayed(Replayed(w, p), q)
    decreases |p|
  {
    hide Redone;
    if p == [] {
      assert p + q == q;
    } else {
      assert (p + q)[0] == p[0] && (p + q)[1..] == p[1..] + q;
      ReplayedConcat(Redone(w, p[0]), p[1..], q);
    }
  }

  // ── half way through a log ──

  /** The first i entries are replayed from w0, and the rest is permitted. */
  ghost predicate Replaying(w0: Whole, w: Whole, entries: seq<WalEntry>, i: nat) {
    && |w0.state.books| == |w.state.books| == MAX_LOCATE && i <= |entries|
    && LogPermitted(w, entries[i..]) && w == Replayed(w0, entries[..i])
  }

  lemma ReplayingStarts(w: Whole, entries: seq<WalEntry>)
    requires |w.state.books| == MAX_LOCATE && LogPermitted(w, entries)
    ensures Replaying(w, w, entries, 0)
  {
    hide LogPermitted;
    assert entries[0..] == entries && entries[..0] == [];
  }

  lemma ReplayingNext(w0: Whole, w: Whole, entries: seq<WalEntry>, i: nat)
    requires i < |entries| && Replaying(w0, w, entries, i)
    ensures |w.state.books| == MAX_LOCATE && EntryPermitted(w.state, entries[i])
    ensures Replaying(w0, Redone(w, entries[i]), entries, i + 1)
  {
    hide Redone, EntryPermitted;
    var e := entries[i];
    assert entries[i..][1..] == entries[i + 1..];
    assert entries[..i + 1] == entries[..i] + [e];
    ReplayedConcat(w0, entries[..i], [e]);
    assert [e][1..] == [];
  }

  lemma ReplayingEnds(w0: Whole, w: Whole, entries: seq<WalEntry>)
    requires Replaying(w0, w, entries, |entries|)
    ensures |w0.state.books| == MAX_LOCATE && w == Replayed(w0, entries)
  {
    assert entries[..|entries|] == entries;
  }

  // ── equal but for sequence numbers, which the log counts one higher ──

  /** b is a as replay rests it: an entry carries the counter as it stood after its order was numbered. */
  ghost predicate EqOrder(a: OrderData, b: OrderData) {
    b == a.(sequence := Wrap64(a.sequence + 1))
  }

  ghost predicate EqHalf(p: seq<OrderData>, q: seq<OrderData>) {
    |p| == |q| && forall i :: 0 <= i < |p| ==> EqOrder(p[i], q[i])
  }

  ghost predicate EqBook(a: Book, b: Book) {
    EqHalf(a.bids, b.bids) && EqHalf(a.asks, b.asks)
  }

  /** The same books (prices, queue order, owners, quantities), slots and ids; in b each sequence number is one higher. */
  ghost predicate Same(a: State, b: State) {
    && a.free == b.free && a.indexed == b.indexed
    && |a.books| == |b.books| && forall l :: 0 <= l < |a.books| ==> EqBook(a.books[l], b.books[l])
  }

  lemma EqFill(a: OrderData, b: OrderData, q: u32)
    requires EqOrder(a, b)
    ensures EqOrder(AfterFill(a, q), AfterFill(b, q))
  {
  }

  lemma EqCons(a: OrderData, b: OrderData, p: seq<OrderData>, q: seq<OrderData>)
    requires EqOrder(a, b) && EqHalf(p, q)
    ensures EqHalf([a] + p, [b] + q)
  {
  }

  ghost predicate EqFills(f: seq<Fill>, g: seq<Fill>) {
    |f| == |g| && forall i :: 0 <= i < |f| ==> f[i].qty == g[i].qty && EqOrder(f[i].maker, g[i].maker)
  }

  lemma EqTail(p: seq<OrderData>, q: seq<OrderData>)
    requires EqHalf(p, q)
    ensures |p| == |q| && EqFills([], [])
    ensures p != [] ==> EqOrder(p[0], q[0]) && EqHalf(p[1..], q[1..])
  {
  }

  lemma FillsCons(x: Fill, y: Fill, f: seq<Fill>, g: seq<Fill>)
    requires x.qty == y.qty && EqOrder(x.maker, y.maker)
    ensures EqFills([], [])
    ensures EqFills(f, g) ==> EqFills([x] + f, [y] + g)
  {
  }

  /** The walk ignores sequence numbers. */
  lemma {:induction false} WalkEq(p: seq<OrderData>, q: seq<OrderData>, s: OrderData, t: OrderData)
    requires EqHalf(p, q) && EqOrder(s, t)
    ensures var v, w := Walk(p, s), Walk(q, t);
      EqHalf(v.rest, w.rest) && EqOrder(v.taker, w.taker) && EqFills(v.fills, w.fills)
  {
    hide AfterFill, Reaches, EqHalf, EqFills;
    EqTail(p, q);
    if p != [] && s.remainingQty > 0 {
      var n := Min(s.remainingQty, p[0].remainingQty);
      EqFill(s, t, n);
      EqFill(p[0], q[0], n);
      WalkEq(p[1..], q[1..], s, t);
      WalkEq(p[1..], q[1..], AfterFill(s, n), AfterFill(t, n));
      EqCons(p[0], q[0], Walk(p[1..], s).rest, Walk(q[1..], t).rest);
      EqCons(AfterFill(p[0], n), AfterFill(q[0], n), p[1..], q[1..]);
      FillsCons(Fill(p[0], n), Fill(q[0], n), Walk(p[1..], AfterFill(s, n)).fills, Walk(q[1..], AfterFill(t, n)).fills);
      FillsCons(Fill(p[0], n), Fill(q[0], n), [], []);
      assert [Fill(p[0], n)] + [] == [Fill(p[0], n)] && [Fill(q[0], n)] + [] == [Fill(q[0], n)];
    }
  }

  lemma GoneEq(f: seq<Fill>, g: seq<Fill>)
    requires EqFills(f, g)
    ensures Gone(f) == Gone(g)
  {
    forall id ensures id in Gone(f) <==> id in Gone(g) {
      if id in Gone(f) {
        var i :| 0 <= i < |f| && f[i].qty == f[i].maker.remainingQty && f[i].maker.orderId == id;
        assert g[i].qty == g[i].maker.remainingQty && g[i].maker.orderId == id;
      }
      if id in Gone(g) {
        var i :| 0 <= i < |g| && g[i].qty == g[i].maker.remainingQty && g[i].maker.orderId == id;
        assert f[i].qty == f[i].maker.remainingQty && f[i].maker.orderId == id;
      }
    }
  }

  lemma {:induction false} RestPosEq(side: Side, p: seq<OrderData>, q: seq<OrderData>, price: u32)
    requires EqHalf(p, q)
    ensures RestPos(side, p, price) == RestPos(side, q, price)
  {
    if p != [] {
      assert EqOrder(p[0], q[0]);
      RestPosEq(side, p[1..], q[1..], price);
    }
  }

  lemma InsertEq(p: seq<OrderData>, q: seq<OrderData>, a: OrderData, b: OrderData)
    requires EqHalf(p, q) && EqOrder(a, b)
    ensures EqHalf(Insert(p, a), Insert(q, b))
  {
    RestPosEq(a.side, p, q, a.price);
    var k := RestPos(a.side, p, a.price);
    forall i | 0 <= i < |Insert(p, a)| ensures EqOrder(Insert(p, a)[i], Insert(q, b)[i]) {
      assert Insert(p, a)[i] == if i < k then p[i] else if i == k then a else p[i - 1];
      assert Insert(q, b)[i] == if i < k then q[i] else if i == k then b else q[i - 1];
    }
  }

  lemma {:induction false} IndexOfEq(p: seq<OrderData>, q: seq<OrderData>, id: u64)
    requires EqHalf(p, q)
    ensures IndexOf(p, id) == IndexOf(q, id)
  {
    if p != [] {
      assert EqOrder(p[0], q[0]);
      IndexOfEq(p[1..], q[1..], id);
    }
  }

  lemma SameWith(a: State, b: State, a': State, b': State, l: nat, side: Side, p: seq<OrderData>, q: seq<OrderData>)
    requires Same(a, b) && l < |a.books| && side != Invalid && EqHalf(p, q)
    requires a'.books == a.books[l := WithHalf(a.books[l], side, p)] && b'.books == b.books[l := WithHalf(b.books[l], side, q)]
    requires a'.free == b'.free && a'.indexed == b'.indexed
    ensures Same(a', b')
  {
    hide EqHalf;
    assert EqBook(a.books[l], b.books[l]);
  }

  lemma SameHalf(a: State, b: State, l: nat, side: Side)
    requires Same(a, b) && l < |a.books|
    ensures EqHalf(Half2(a.books[l], side), Half2(b.books[l], side))
  {
    assert EqBook(a.books[l], b.books[l]);
  }

  /** Executing equal orders in equal states gives equal states. */
  lemma ExecuteEq(a: State, b: State, l: nat, s: OrderData, t: OrderData, ins: bool)
    requires Same(a, b) && l < |a.books| && EqOrder(s, t)
    ensures Same(Execute(a, l, s, Day, ins).state, Execute(b, l, t, Day, ins).state)
  {
    hide Walk, Gone, EqHalf, Insert, Same;
    SameShape2(a, b);
    var opp := Opposite(s.side);
    SameHalf(a, b, l, opp);
    WalkEq(Half2(a.books[l], opp), Half2(b.books[l], opp), s, t);
    var v, w := WalkIn(a, l, s), WalkIn(b, l, t);
    GoneEq(v.fills, w.fills);
    EqLength(Half2(a.books[l], opp), Half2(b.books[l], opp));
    EqLength(v.rest, w.rest);
    var a1, b1 := AfterWalk(a, l, s), AfterWalk(b, l, t);
    SameWith(a, b, a1, b1, l, opp, v.rest, w.rest);
    WalkKeepsTaker(Half2(a.books[l], opp), s);
    if CanRest(a1, v.taker) {
      var side := v.taker.side;
      SameHalf(a1, b1, l, side);
      InsertEq(Half2(a1.books[l], side), Half2(b1.books[l], side), v.taker, w.taker);
      SameWith(a1, b1, Rest(a1, l, v.taker, ins), Rest(b1, l, w.taker, ins), l, side,
               Insert(Half2(a1.books[l], side), v.taker), Insert(Half2(b1.books[l], side), w.taker));
    }
  }

  lemma EqLength(p: seq<OrderData>, q: seq<OrderData>)
    requires EqHalf(p, q)
    ensures |p| == |q|
  {
  }

  lemma SameShape2(a: State, b: State)
    requires Same(a, b)
    ensures |a.books| == |b.books| && a.free == b.free && a.indexed == b.indexed
  {
  }

  lemma LocateEq(a: State, b: State, l: nat, id: u64)
    requires Same(a, b) && l < |a.books|
    ensures Locate(a.books[l], id) == Locate(b.books[l], id)
    ensures InBook(a.books[l], id) == InBook(b.books[l], id)
    ensures Found(a, l, id) == Found(b, l, id)
    ensures InBook(a.books[l], id) ==> EqOrder(OrderIn(a.books[l], id), OrderIn(b.books[l], id))
  {
    assert EqBook(a.books[l], b.books[l]);
    IndexOfEq(a.books[l].bids, b.books[l].bids, id);
    IndexOfEq(a.books[l].asks, b.books[l].asks, id);
  }

  lemma RemoveEq(a: State, b: State, l: nat, id: u64)
    requires Same(a, b) && Found(a, l, id)
    ensures Found(b, l, id) && Same(Remove(a, l, id), Remove(b, l, id))
  {
    hide EqHalf, Locate;
    LocateEq(a, b, l, id);
    var (side, k) := Locate(a.books[l], id);
    LocateIs(a.books[l], id);
    SameHalf(a, b, l, side);
    RemoveAtEq(Half2(a.books[l], side), Half2(b.books[l], side), k);
    SameWith(a, b, Remove(a, l, id), Remove(b, l, id), l, side,
             RemoveAt(Half2(a.books[l], side), k), RemoveAt(Half2(b.books[l], side), k));
  }

  lemma RemoveAtEq(p: seq<OrderData>, q: seq<OrderData>, k: nat)
    requires EqHalf(p, q) && k < |p|
    ensures EqHalf(RemoveAt(p, k), RemoveAt(q, k))
  {
    forall i | 0 <= i < |p| - 1 ensures EqOrder(RemoveAt(p, k)[i], RemoveAt(q, k)[i]) {
      assert RemoveAt(p, k)[i] == p[if i < k then i else i + 1];
      assert RemoveAt(q, k)[i] == q[if i < k then i else i + 1];
    }
  }

  lemma ShrinkEq(a: State, b: State, l: nat, id: u64, shares: u32)
    requires Same(a, b) && Found(a, l, id)
    ensures Found(b, l, id) && Same(ShrinkIn(a, l, id, shares), ShrinkIn(b, l, id, shares))
  {
    hide Locate;
    LocateEq(a, b, l, id);
    var (side, k) := Locate(a.books[l], id);
    LocateIs(a.books[l], id);
    SameHalf(a, b, l, side);
    var p, q := Half2(a.books[l], side), Half2(b.books[l], side);
    SameWith(a, b, ShrinkIn(a, l, id, shares), ShrinkIn(b, l, id, shares), l, side,
             p[k := Shrunk(p[k], shares)], q[k := Shrunk(q[k], shares)]);
  }

  // ── histories the log can rebuild ──

  /** The log carries no time in force and no old ref, and replay does not check the owner of a partial cancel. */
  ghost predicate Replayable(st: State, c: Command) {
    match c
    case CmdAdd(l, ref, side, price, qty, user, tif) => tif == Day && FreshRef(st, ref)
    case CmdCancel(l, ref, user) => OwnLocate(st, l, ref)
    case CmdCancelShares(l, ref, shares, user) =>
      OwnLocate(st, l, ref) && (Found(st, l, ref) ==> OrderIn(st.books[l], ref).userId == user)
    case CmdReplace(l, oldRef, newRef, side, price, qty, user) => false
  }

  /** A run of such commands. */
  ghost predicate History(w: Whole, cmds: seq<Command>)
    requires |w.state.books| == MAX_LOCATE
    decreases |cmds|
  {
    cmds != [] ==> Replayable(w.state, cmds[0]) && History(Next(w, cmds[0]), cmds[1..])
  }

  ghost function LogOf(w: Whole, cmds: seq<Command>): seq<WalEntry>
    requires |w.state.books| == MAX_LOCATE
    decreases |cmds|
  {
    if cmds == [] then []
    else Step(w.state, cmds[0], InsertAnswer(w.state, w.index, cmds[0])).log + LogOf(Next(w, cmds[0]), cmds[1..])
  }

  /** What the live state keeps while it is being logged. */
  ghost predicate Live(st: State) {
    |st.books| == MAX_LOCATE && IndexLive(st) && Positive(st)
  }

  lemma StepKeepsLive(st: State, c: Command, ins: bool)
    requires Live(st) && !c.CmdReplace?
    ensures Live(Step(st, c, ins).state)
  {
    hide IndexLive, Positive, Step;
    StepKeepsPositive(st, c, ins);
    StepKeepsIndexLive(st, c, ins);
  }

  lemma SameCounted(a: State, b: State, a': State, e: WalEntry)
    requires Same(a, b) && a'.books == a.books && a'.free == a.free && a'.indexed == a.indexed
    ensures Same(a', b) && Same(a', Counted(b, e))
  {
  }

  /** Nothing changes when zero shares of a live order are cancelled. */
  lemma ShrinkByZero(st: State, l: nat, id: u64)
    requires Found(st, l, id)
    ensures ShrinkIn(st, l, id, 0) == st
  {
    var (side, k) := Locate(st.books[l], id);
    var q, o := Half2(st.books[l], side), OrderIn(st.books[l], id);
    assert Shrunk(o, 0) == o;
    assert q[k := o] == q;
    assert Replaced(st.books[l], id, o) == st.books[l];
  }

  lemma FoundPositive(st: State, l: nat, id: u64)
    requires Found(st, l, id) && Positive(st)
    ensures OrderIn(st.books[l], id).remainingQty > 0
  {
    var (side, k) := Locate(st.books[l], id);
    PositiveOf(st, l, side);
  }

  /** Replaying a partial cancel repeats it exactly when the order is absent, the owner issued it, or it was for zero. */
  lemma PartialCancelReplay(a: State, b: State, l: u16, ref: u64, shares: u32, user: u64)
    requires Live(a) && Same(a, b) && OwnLocate(a, l, ref)
    ensures var r := CancelShares(a, l, ref, shares, user);
      && |r.log| == 1
      && (Same(r.state, ReplayEntry(b, r.log[0], true)) <==>
          !Found(a, l, ref) || OrderIn(a.books[l], ref).userId == user || shares == 0)
  {
    hide IndexLive, Positive, Locate, Same, Remove, Replaced, Shrunk;
    SameShape2(a, b);
    var e := CancelShares(a, l, ref, shares, user).log[0];
    LocateEq(a, b, l, ref);
    if Found(a, l, ref) {
      FoundPositive(a, l, ref);
      RemoveEq(a, b, l, ref);
      ShrinkEq(a, b, l, ref, shares);
      ShrinkByZero(a, l, ref);
      SameCounted(Remove(a, l, ref), Remove(b, l, ref), Remove(a, l, ref), e);
      SameCounted(ShrinkIn(a, l, ref, shares), ShrinkIn(b, l, ref, shares), ShrinkIn(a, l, ref, shares), e);
      if OrderIn(a.books[l], ref).userId != user && shares > 0 {
        RemovalShows(a, b, l, ref, e);
        if shares < OrderIn(b.books[l], ref).remainingQty {
          ShrinkShows(a, b, l, ref, shares, e);
        }
      }
    }
    SameCounted(a, b, a, e);
  }

  /**
    The failing case is real: replay applies a partial cancel that the live engine refused because its user is not the
    owner.
   */
  lemma ForeignPartialCancel()
    ensures var add := CmdAdd(0, 1, Sell, 10, 5, 7, Day);
      var live, logged := Step(Opening(2), add, true).state, Step(Opening(2), add, true).log;
      && |logged| == 1 && |live.books| == MAX_LOCATE
      && var r := CancelShares(live, 0, 1, 2, 8);
         && r.out == [RspError(OrderNotFound)] && |r.log| == 1
         && !Same(r.state, ReplayEntry(ReplayEntry(Opening(2), logged[0], true), r.log[0], true))
  {
    hide Same, ReplayEntry, Step, Live, Replayable;
    var add := CmdAdd(0, 1, Sell, 10, 5, 7, Day);
    OpeningLive(2);
    FreshAdd(add);
    StepReplays(Opening(2), Opening(2), add, true);
    StepKeepsLive(Opening(2), add, true);
    var a := Step(Opening(2), add, true).state;
    AfterFirst(a);
    var o := NewOrder(7, 1, Sell, 10, 5, 1);
    assert Locate(a.books[0], 1) == (Sell, 0) && OrderIn(a.books[0], 1) == o;
    PartialCancelReplay(a, ReplayEntry(Opening(2), Step(Opening(2), add, true).log[0], true), 0, 1, 2, 8);
  }

  lemma FreshAdd(c: Command)
    requires c == CmdAdd(0, 1, Sell, 10, 5, 7, Day)
    ensures Replayable(Opening(2), c) && |Step(Opening(2), c, true).log| == 1
  {
    hide Execute;
  }

  lemma AfterFirst(a: State)
    requires a == Step(Opening(2), CmdAdd(0, 1, Sell, 10, 5, 7, Day), true).state
    ensures |a.books| == MAX_LOCATE && a.books[0] == Book([], [NewOrder(7, 1, Sell, 10, 5, 1)]) && a.indexed == {1}
  {
    hide Step;
    FirstAdd(2, 1, Sell, 10, 5, 7);
    var input := (CmdAdd(0, 1, Sell, 10, 5, 7, Day), true);
    assert [input][1..] == [] && After(a, []) == a;
  }

  lemma RemovalShows(a: State, b: State, l: nat, ref: u64, e: WalEntry)
    requires Same(a, b) && Found(b, l, ref)
    ensures !Same(a, Counted(Remove(b, l, ref), e))
  {
  }

  lemma ShrinkShows(a: State, b: State, l: nat, ref: u64, shares: u32, e: WalEntry)
    requires Same(a, b) && Found(a, l, ref) && Found(b, l, ref) && 0 < shares < OrderIn(b.books[l], ref).remainingQty
    ensures !Same(a, Counted(ShrinkIn(b, l, ref, shares), e))
  {
    hide Locate;
    LocateEq(a, b, l, ref);
    LocateIs(b.books[l], ref);
    var (side, k) := Locate(b.books[l], ref);
    var b' := Counted(ShrinkIn(b, l, ref, shares), e);
    SameHalf(a, b, l, side);
    assert EqOrder(Half2(a.books[l], side)[k], Half2(b.books[l], side)[k]);
    if Same(a, b') {
      SameHalf(a, b', l, side);
    }
  }

  /** One command, logged and replayed with the same answer from the index, has the same effect on equal states. */
  lemma StepReplays(a: State, b: State, c: Command, ins: bool)
    requires Live(a) && Same(a, b) && Replayable(a, c)
    ensures |b.books| == MAX_LOCATE
    ensures var r := Step(a, c, ins);
      |r.log| <= 1 && Same(r.state, if r.log == [] then b else ReplayEntry(b, r.log[0], ins))
  {
    hide IndexLive, Positive, Locate, Same, Execute, Refusal, Remove, Shrunk, FreshRef;
    SameShape2(a, b);
    var r := Step(a, c, ins);
    match c
    case CmdAdd(l, ref, side, price, qty, user, tif) =>
      RefusalInRange(a, l, ref, side, price, qty, user, tif);
      if Refusal(a, l, ref, side, price, qty, user, tif).None? {
        AddReplays(a, b, l, ref, side, price, qty, user, ins);
      }
    case CmdCancel(l, ref, user) =>
      if l < MAX_LOCATE {
        LocateEq(a, b, l, ref);
        if Found(a, l, ref) {
          RemoveEq(a, b, l, ref);
          SameCounted(Remove(a, l, ref), Remove(b, l, ref), Remove(a, l, ref), r.log[0]);
        }
        SameCounted(a, b, a, r.log[0]);
      }
    case CmdCancelShares(l, ref, shares, user) =>
      if l < MAX_LOCATE {
        PartialCancelReplay(a, b, l, ref, shares, user);
      }
  }

  lemma AddReplays(a: State, b: State, l: nat, ref: u64, side: Side, price: u32, qty: u32, user: u64, ins: bool)
    requires Live(a) && Same(a, b) && FreshRef(a, ref) && |b.books| == MAX_LOCATE
    requires Refusal(a, l, ref, side, price, qty, user, Day).None? && l < MAX_LOCATE
    ensures var r := Add(a, l, ref, side, price, qty, user, Day, ins);
      |r.log| == 1 && Same(r.state, ReplayEntry(b, r.log[0], ins))
  {
    hide Positive, Same, Execute, FreshRef, ReachQty;
    SameShape2(a, b);
    var r := Add(a, l, ref, side, price, qty, user, Day, ins);
    var e := r.log[0];
    var a1 := a.(nextSeq := Wrap64(a.nextSeq + 1));
    var s, t := NewOrder(user, ref, side, price, qty, a.nextSeq), EntryOrder(e);
    SameCounted(a, b, a1, e);
    SameIndexed(a, b);
    ExecuteEq(a1, b, l, s, t, ins);
    var b1 := Execute(b, l, t, Day, ins).state;
    SameCounted(r.state, b1, r.state, e);
  }

  lemma SameIndexed(a: State, b: State)
    requires Same(a, b)
    ensures a.indexed == b.indexed
  {
  }

  /**
    The answers have to agree exactly when there is something to answer: a logged add, answered x live and y on replay,
    has the same effect if and only if x is y or the add rested nothing.
   */
  lemma AddReplaysExact(a: State, b: State, l: nat, ref: u64, side: Side, price: u32, qty: u32, user: u64, x: bool, y: bool)
    requires Live(a) && Same(a, b) && FreshRef(a, ref) && |b.books| == MAX_LOCATE
    requires Refusal(a, l, ref, side, price, qty, user, Day).None? && l < MAX_LOCATE
    ensures var r := Add(a, l, ref, side, price, qty, user, Day, x);
      |r.log| == 1 && (Same(r.state, ReplayEntry(b, r.log[0], y)) <==> x == y || RspOk(ref) !in r.out)
  {
    hide Live, Same, Walk, Insert, Trades, Gone, ReplayEntry, FreshRef, Refusal;
    LiveShape(a);
    var r, r' := Add(a, l, ref, side, price, qty, user, Day, x), Add(a, l, ref, side, price, qty, user, Day, y);
    var taker, a1 := NewOrder(user, ref, side, price, qty, a.nextSeq), a.(nextSeq := Wrap64(a.nextSeq + 1));
    AddReplays(a, b, l, ref, side, price, qty, user, y);
    LiveUnindexed(a, ref);
    TradesAreTrades(l, side, WalkIn(a1, l, taker).fills);
    WalkKeepsTaker(Half2(a1.books[l], Opposite(side)), taker);
    if Same(r.state, ReplayEntry(b, r.log[0], y)) {
      SameShape2(r.state, ReplayEntry(b, r.log[0], y));
    }
    SameShape2(r'.state, ReplayEntry(b, r.log[0], y));
  }

  lemma LiveUnindexed(st: State, id: u64)
    requires Live(st) && FreshRef(st, id)
    ensures id !in st.indexed
  {
  }

  // ── the index along a history ──

  lemma {:induction false} DroppedEq(ix: Index, f: seq<Fill>, g: seq<Fill>)
    requires EqFills(f, g)
    ensures Dropped(ix, f) == Dropped(ix, g)
  {
    if f != [] {
      DroppedEq(ix, f[..|f| - 1], g[..|g| - 1]);
    }
  }

  /** Executing equal orders in equal states does the same to the index. */
  lemma ExecuteIndexEq(a: State, b: State, ix: Index, l: nat, s: OrderData, t: OrderData)
    requires Same(a, b) && l < |a.books| && EqOrder(s, t)
    ensures |a.books| == |b.books|
    ensures TakerAccepted(a, ix, l, s, Day) == TakerAccepted(b, ix, l, t, Day)
    ensures ExecuteIndex(a, ix, l, s, Day) == ExecuteIndex(b, ix, l, t, Day)
  {
    hide Walk, Gone, EqHalf, EqFills, Same, Dropped, Bind, Accepts;
    SameShape2(a, b);
    var opp := Opposite(s.side);
    var p, q := Half2(a.books[l], opp), Half2(b.books[l], opp);
    SameHalf(a, b, l, opp);
    WalkEq(p, q, s, t);
    EqLength(p, q);
    EqLength(Walk(p, s).rest, Walk(q, t).rest);
    DroppedEq(ix, Walk(p, s).fills, Walk(q, t).fills);
  }

  /** One command, logged and replayed, does the same to the index and gets the same answer. */
  lemma StepIndexed(a: State, b: State, ix: Index, c: Command)
    requires Live(a) && Same(a, b) && Replayable(a, c)
    ensures |b.books| == MAX_LOCATE
    ensures var r := Step(a, c, InsertAnswer(a, ix, c));
      && |r.log| <= 1
      && (r.log == [] ==> IndexAfter(a, ix, c) == ix)
      && (r.log != [] ==> EntryAnswer(b, ix, r.log[0]) == InsertAnswer(a, ix, c))
      && (r.log != [] ==> EntryIndex(b, ix, r.log[0]) == IndexAfter(a, ix, c))
  {
    hide IndexLive, Positive, Locate, Same, Execute, Refusal, Remove, Shrunk, FreshRef, TakerAccepted, ExecuteIndex, Unbind;
    SameShape2(a, b);
    match c
    case CmdAdd(l, ref, side, price, qty, user, tif) =>
      RefusalInRange(a, l, ref, side, price, qty, user, tif);
      if Refusal(a, l, ref, side, price, qty, user, tif).None? {
        AddIndexed(a, b, ix, l, ref, side, price, qty, user);
      }
    case CmdCancel(l, ref, user) =>
      if l < MAX_LOCATE {
        LocateEq(a, b, l, ref);
      }
    case CmdCancelShares(l, ref, shares, user) =>
      if l < MAX_LOCATE {
        LocateEq(a, b, l, ref);
        if Found(a, l, ref) {
          FoundPositive(a, l, ref);
        }
      }
  }

  lemma AddIndexed(a: State, b: State, ix: Index, l: nat, ref: u64, side: Side, price: u32, qty: u32, user: u64)
    requires Live(a) && Same(a, b) && FreshRef(a, ref) && |b.books| == MAX_LOCATE
    requires Refusal(a, l, ref, side, price, qty, user, Day).None? && l < MAX_LOCATE
    ensures var c := CmdAdd(l, ref, side, price, qty, user, Day); var r := Step(a, c, InsertAnswer(a, ix, c));
      && |r.log| == 1 && EntryAnswer(b, ix, r.log[0]) == InsertAnswer(a, ix, c)
      && EntryIndex(b, ix, r.log[0]) == IndexAfter(a, ix, c)
  {
    hide Live, Same, Execute, FreshRef, ReachQty, TakerAccepted, ExecuteIndex;
    var e := AddEntry(l, NewOrder(user, ref, side, price, qty, a.nextSeq), Wrap64(a.nextSeq + 1));
    LiveUnindexed(a, ref);
    SameShape2(a, b);
    ExecuteIndexEq(a, b, ix, l, NewOrder(user, ref, side, price, qty, a.nextSeq), EntryOrder(e));
  }

  /** One turn of a history: what it logged is permitted, and replaying it leads to an equal state and the same index. */
  lemma HistoryStep(a: State, b: State, ix: Index, c: Command)
    requires Live(a) && Same(a, b) && Replayable(a, c)
    ensures |a.books| == |b.books| == MAX_LOCATE
    ensures var r := Step(a, c, InsertAnswer(a, ix, c));
      && |r.log| <= 1
      && var w := if r.log == [] then Whole(b, ix) else Redone(Whole(b, ix), r.log[0]);
         && Live(Next(Whole(a, ix), c).state) && Same(Next(Whole(a, ix), c).state, w.state)
         && w.index == Next(Whole(a, ix), c).index
         && (r.log != [] ==> EntryPermitted(b, r.log[0]))
  {
    hide Same, Step, Live, Replayable, ReplayEntry, EntryPermitted, InsertAnswer, IndexAfter, EntryAnswer, EntryIndex;
    LiveShape(a);
    SameShape2(a, b);
    var ins := InsertAnswer(a, ix, c);
    NoReplaceInHistory(a, c);
    StepReplays(a, b, c, ins);
    StepIndexed(a, b, ix, c);
    StepPermitted(a, b, c, ins);
    StepKeepsLive(a, c, ins);
  }

  /** Replaying a history's log from an equal state, over the same index, keeps state and index equal throughout. */
  lemma {:induction false} HistoryReplays(a: State, b: State, ix: Index, cmds: seq<Command>)
    requires Live(a) && Same(a, b) && |a.books| == MAX_LOCATE && History(Whole(a, ix), cmds)
    ensures |b.books| == MAX_LOCATE
    ensures var w := Replayed(Whole(b, ix), LogOf(Whole(a, ix), cmds));
      Same(AfterAll(Whole(a, ix), cmds).state, w.state) && w.index == AfterAll(Whole(a, ix), cmds).index
    decreases |cmds|
  {
    hide Same, Step, Live, Replayable, Redone, InsertAnswer, Next;
    SameShape2(a, b);
    if cmds != [] {
      var c := cmds[0];
      HistoryStep(a, b, ix, c);
      var log, next := Step(a, c, InsertAnswer(a, ix, c)).log, Next(Whole(a, ix), c);
      var w := if log == [] then Whole(b, ix) else Redone(Whole(b, ix), log[0]);
      HistoryReplays(next.state, w.state, next.index, cmds[1..]);
      ReplayedConcat(Whole(b, ix), log, LogOf(next, cmds[1..]));
      assert log != [] ==> log[1..] == [];
    }
  }

  lemma LiveShape(st: State)
    requires Live(st)
    ensures |st.books| == MAX_LOCATE
  {
  }

  lemma NoReplaceInHistory(st: State, c: Command)
    requires Replayable(st, c)
    ensures !c.CmdReplace?
  {
  }

  // ── a history's log is permitted ──

  lemma SameNoId(p: seq<OrderData>, q: seq<OrderData>, id: u64)
    requires EqHalf(p, q) && NoId(p, id)
    ensures NoId(q, id)
  {
    forall i | 0 <= i < |q| ensures q[i].orderId != id {
      assert EqOrder(p[i], q[i]);
    }
  }

  lemma SameFresh(a: State, b: State, id: u64)
    requires Same(a, b) && FreshRef(a, id)
    ensures FreshRef(b, id)
  {
    hide EqHalf;
    forall l | 0 <= l < |b.books| ensures NoId(b.books[l].bids, id) && NoId(b.books[l].asks, id) {
      assert EqBook(a.books[l], b.books[l]);
      SameNoId(a.books[l].bids, b.books[l].bids, id);
      SameNoId(a.books[l].asks, b.books[l].asks, id);
    }
  }

  /** What the live state allowed to be logged, an equal state allows to be replayed. */
  lemma StepPermitted(a: State, b: State, c: Command, ins: bool)
    requires Live(a) && Same(a, b) && Replayable(a, c)
    ensures |Step(a, c, ins).log| <= 1
    ensures Step(a, c, ins).log != [] ==> EntryPermitted(b, Step(a, c, ins).log[0])
  {
    hide IndexLive, Positive, Locate, Same, Execute, Refusal, Remove, Shrunk, FreshRef, Replaced;
    SameShape2(a, b);
    match c
    case CmdAdd(l, ref, side, price, qty, user, tif) =>
      RefusalInRange(a, l, ref, side, price, qty, user, tif);
      SameFresh(a, b, ref);
    case CmdCancel(l, ref, user) =>
      if l < MAX_LOCATE {
        SameIndexed(a, b);
        LocateEq(a, b, l, ref);
      }
    case CmdCancelShares(l, ref, shares, user) =>
      if l < MAX_LOCATE {
        SameIndexed(a, b);
        LocateEq(a, b, l, ref);
      }
  }

  /** Zero entries ask nothing. */
  lemma {:induction false} ZerosPermitted(w: Whole, n: nat)
    requires |w.state.books| == MAX_LOCATE
    ensures LogPermitted(w, seq(n, i => ZERO_ENTRY))
    decreases n
  {
    if n > 0 {
      var zeros := seq(n, i => ZERO_ENTRY);
      assert zeros[1..] == seq(n - 1, i => ZERO_ENTRY);
      ZerosPermitted(Redone(w, ZERO_ENTRY), n - 1);
    }
  }

  /** A history's log can be replayed over an equal state and the same index. */
  lemma {:induction false} HistoryPermitted(a: State, b: State, ix: Index, cmds: seq<Command>, zeros: nat)
    requires Live(a) && Same(a, b) && |a.books| == MAX_LOCATE && History(Whole(a, ix), cmds)
    ensures |b.books| == MAX_LOCATE && LogPermitted(Whole(b, ix), LogOf(Whole(a, ix), cmds) + seq(zeros, i => ZERO_ENTRY))
    decreases |cmds|
  {
    hide Same, Step, Live, Replayable, Redone, EntryPermitted, InsertAnswer, Next;
    SameShape2(a, b);
    var tail := seq(zeros, i => ZERO_ENTRY);
    if cmds == [] {
      ZerosPermitted(Whole(b, ix), zeros);
      assert [] + tail == tail;
    } else {
      var c := cmds[0];
      HistoryStep(a, b, ix, c);
      var log, next := Step(a, c, InsertAnswer(a, ix, c)).log, Next(Whole(a, ix), c);
      var more := LogOf(next, cmds[1..]);
      if log == [] {
        assert [] + more == more;
        HistoryPermitted(next.state, b, next.index, cmds[1..], zeros);
      } else {
        var w := Redone(Whole(b, ix), log[0]);
        HistoryPermitted(next.state, w.state, next.index, cmds[1..], zeros);
        assert ((log + more) + tail)[0] == log[0] && ((log + more) + tail)[1..] == more + tail;
      }
    }
  }

  // ── zero entries ──

  ghost predicate Counting(st: State) {
    st.nextSeq >= 1
  }

  /** Everything but the order-id counter, which a zero entry can restart after it has wrapped to 0. */
  ghost predicate SameButNextId(a: State, b: State) {
    a == b.(nextId := a.nextId)
  }

  /** Zero entries, as the unwritten tail of the file holds, change nothing that matters. */
  lemma {:induction false} ZeroTail(w: Whole, n: nat)
    requires |w.state.books| == MAX_LOCATE && Counting(w.state)
    ensures var w' := Replayed(w, seq(n, i => ZERO_ENTRY)); SameButNextId(w'.state, w.state) && w'.index == w.index
    decreases n
  {
    var zeros := seq(n, i => ZERO_ENTRY);
    if n > 0 {
      assert zeros[1..] == seq(n - 1, i => ZERO_ENTRY);
      var w' := Redone(w, ZERO_ENTRY);
      assert SameButNextId(w'.state, w.state) && w'.index == w.index;
      ZeroTail(w', n - 1);
    }
  }

  // ── sequence numbers ──

  ghost predicate SeqHalf(q: seq<OrderData>, n: int) {
    forall i :: 0 <= i < |q| ==> q[i].sequence < n
  }

  /** Every resting sequence number is below n. */
  ghost predicate SeqUpTo(st: State, n: int) {
    forall l :: 0 <= l < |st.books| ==> SeqHalf(st.books[l].bids, n) && SeqHalf(st.books[l].asks, n)
  }

  lemma SeqWith(st: State, st': State, l: nat, side: Side, q: seq<OrderData>, n: int)
    requires SeqUpTo(st, n) && l < |st.books| && side != Invalid && SeqHalf(q, n)
    requires st'.books == st.books[l := WithHalf(st.books[l], side, q)]
    ensures SeqUpTo(st', n)
  {
  }

  lemma SeqOf(st: State, l: nat, side: Side, n: int)
    requires SeqUpTo(st, n) && l < |st.books|
    ensures SeqHalf(Half2(st.books[l], side), n)
  {
  }

  lemma ExecuteSeq(st: State, l: nat, taker: OrderData, tif: Tif, ins: bool, n: int)
    requires SeqUpTo(st, n) && l < |st.books| && taker.sequence < n
    ensures SeqUpTo(Execute(st, l, taker, tif, ins).state, n)
  {
    hide Walk, Insert, SeqUpTo;
    var opp, w, st1 := Opposite(taker.side), WalkIn(st, l, taker), AfterWalk(st, l, taker);
    var v := Half2(st.books[l], opp);
    SeqOf(st, l, opp, n);
    WalkKeepsTaker(v, taker);
    forall i | 0 <= i < |w.rest| ensures w.rest[i].sequence < n {
      var j := RestIsRemnant(v, taker, i);
    }
    SeqWith(st, st1, l, opp, w.rest, n);
    if CanRest(st1, w.taker) {
      var q := Half2(st1.books[l], w.taker.side);
      SeqOf(st1, l, w.taker.side, n);
      InsertSeq(q, w.taker, n);
      SeqWith(st1, Rest(st1, l, w.taker, ins), l, w.taker.side, Insert(q, w.taker), n);
    }
  }

  lemma InsertSeq(q: seq<OrderData>, o: OrderData, n: int)
    requires SeqHalf(q, n) && o.sequence < n
    ensures SeqHalf(Insert(q, o), n)
  {
    var k := RestPos(o.side, q, o.price);
    forall i | 0 <= i < |Insert(q, o)| ensures Insert(q, o)[i].sequence < n {
      assert Insert(q, o)[i] == if i < k then q[i] else if i == k then o else q[i - 1];
    }
  }

  lemma RemoveSeq(st: State, l: nat, id: u64, n: int)
    requires SeqUpTo(st, n) && Found(st, l, id)
    ensures SeqUpTo(Remove(st, l, id), n)
  {
    hide SeqUpTo;
    var (side, k) := Locate(st.books[l], id);
    SeqOf(st, l, side, n);
    SeqWith(st, Remove(st, l, id), l, side, RemoveAt(Half2(st.books[l], side), k), n);
  }

  lemma ShrinkSeq(st: State, l: nat, id: u64, shares: u32, n: int)
    requires SeqUpTo(st, n) && Found(st, l, id)
    ensures SeqUpTo(ShrinkIn(st, l, id, shares), n)
  {
    hide SeqUpTo;
    var (side, k) := Locate(st.books[l], id);
    var q := Half2(st.books[l], side);
    SeqOf(st, l, side, n);
    SeqWith(st, ShrinkIn(st, l, id, shares), l, side, q[k := Shrunk(q[k], shares)], n);
  }

  lemma SeqMore(st: State, st': State, n: int, n': int)
    requires SeqUpTo(st, n) && n <= n' && st'.books == st.books
    ensures SeqUpTo(st', n')
  {
  }

  /** Replay moves the counter above every sequence number it rests (short of the 64-bit limit). */
  lemma ReplayEntrySeq(st: State, e: WalEntry, ins: bool)
    requires |st.books| == MAX_LOCATE && Counting(st) && SeqUpTo(st, st.nextSeq)
    requires e.walSeq + 1 < TWO64
    ensures var st' := ReplayEntry(st, e, ins); Counting(st') && SeqUpTo(st', st'.nextSeq)
  {
    hide SeqUpTo, Execute, Remove, Locate, Shrunk, Replaced;
    var l, n := e.locate, Bump(st.nextSeq, e.walSeq);
    SeqMore(st, st, st.nextSeq, n);
    if e.kind == 1 && e.orderId !in st.indexed {
      ExecuteSeq(st, l, EntryOrder(e), Day, ins, n);
      ExecuteCounters(st, l, EntryOrder(e), Day, ins);
      SeqMore(Execute(st, l, EntryOrder(e), Day, ins).state, ReplayEntry(st, e, ins), n, n);
    } else if Found(st, l, e.orderId) {
      RemoveSeq(st, l, e.orderId, n);
      RemoveCounters(st, l, e.orderId);
      ShrinkSeq(st, l, e.orderId, e.quantity, n);
      SeqMore(Remove(st, l, e.orderId), Counted(Remove(st, l, e.orderId), e), n, n);
      SeqMore(ShrinkIn(st, l, e.orderId, e.quantity), Counted(ShrinkIn(st, l, e.orderId, e.quantity), e), n, n);
    }
    SeqMore(st, Counted(st, e), n, n);
  }

  lemma ExecuteCounters(st: State, l: nat, taker: OrderData, tif: Tif, ins: bool)
    requires l < |st.books|
    ensures var st' := Execute(st, l, taker, tif, ins).state; st'.nextSeq == st.nextSeq && st'.nextId == st.nextId
  {
  }

  lemma RemoveCounters(st: State, l: nat, id: u64)
    requires Found(st, l, id)
    ensures Remove(st, l, id).nextSeq == st.nextSeq && Remove(st, l, id).nextId == st.nextId
  {
  }

  ghost predicate Bounded(entries: seq<WalEntry>) {
    forall i :: 0 <= i < |entries| ==> entries[i].walSeq + 1 < TWO64
  }

  lemma {:induction false} ReplaySeq(w: Whole, entries: seq<WalEntry>)
    requires |w.state.books| == MAX_LOCATE && Counting(w.state) && SeqUpTo(w.state, w.state.nextSeq) && Bounded(entries)
    ensures var st := Replayed(w, entries).state; Counting(st) && SeqUpTo(st, st.nextSeq)
    decreases |entries|
  {
    hide SeqUpTo, ReplayEntry, Counting, EntryAnswer, EntryIndex;
    if entries != [] {
      ReplayEntrySeq(w.state, entries[0], EntryAnswer(w.state, w.index, entries[0]));
      ReplaySeq(Redone(w, entries[0]), entries[1..]);
    }
  }

  /** The number of entries the log file holds. */
  const WAL_ENTRIES: nat := 0x2000_0000 / 40

  lemma StepLog(st: State, c: Command, ins: bool)
    requires |st.books| == MAX_LOCATE && !c.CmdReplace? && st.nextSeq + 1 < TWO64
    ensures var r := Step(st, c, ins);
      && |r.log| <= 1 && st.nextSeq <= r.state.nextSeq <= st.nextSeq + |r.log|
      && (|r.log| == 1 ==> r.log[0].walSeq == r.state.nextSeq)
  {
    hide Refusal, Locate, Walk, Trades, Insert, Gone;
    match c
    case CmdAdd(l, ref, side, price, qty, user, tif) => RefusalInRange(st, l, ref, side, price, qty, user, tif);
    case CmdCancel(l, ref, user) =>
    case CmdCancelShares(l, ref, shares, user) =>
  }

  /** A log that fits the file carries sequence numbers far below the 64-bit limit. */
  lemma {:induction false} LogBounded(w: Whole, cmds: seq<Command>, n: nat)
    requires |w.state.books| == MAX_LOCATE && History(w, cmds)
    requires w.state.nextSeq <= 1 + n && n + |LogOf(w, cmds)| <= WAL_ENTRIES
    ensures Bounded(LogOf(w, cmds))
    decreases |cmds|
  {
    hide Step, Replayable, InsertAnswer, IndexAfter;
    if cmds != [] {
      var c := cmds[0];
      var ins := InsertAnswer(w.state, w.index, c);
      NoReplaceInHistory(w.state, c);
      StepLog(w.state, c, ins);
      LogBounded(Next(w, c), cmds[1..], n + |Step(w.state, c, ins).log|);
    }
  }

  /**
    For every history of DAY adds with fresh refs, full cancels and owner-issued partial cancels that fits the log file,
    whatever the index refused on the way: replaying that file (its unwritten zero tail included) into an empty exchange
    of the same size, over an index like the one the history started with, rebuilds the same books and index, and the
    sequence counter ends above every resting sequence.
   */
  lemma WalRebuilds(free: nat, ix: Index, cmds: seq<Command>, file: seq<WalEntry>)
    requires var w0 := Whole(Opening(free), ix);
      History(w0, cmds) && |LogOf(w0, cmds)| <= |file| == WAL_ENTRIES && Ring(file, LogOf(w0, cmds))
    ensures var live, w := AfterAll(Whole(Opening(free), ix), cmds), Replayed(Whole(Opening(free), ix), file);
      Same(live.state, w.state) && w.index == live.index && SeqUpTo(w.state, w.state.nextSeq)
  {
    hide History, LogOf, Replayed, AfterAll, Same, SeqUpTo, Ring, Bounded;
    var w0 := Whole(Opening(free), ix);
    var log := LogOf(w0, cmds);
    OpeningLive(free);
    HistoryReplays(w0.state, w0.state, ix, cmds);
    LogBounded(w0, cmds, 0);
    ReplaySeq(w0, log);
    RingUnwrapped(file, log);
    var n := |file| - |log|;
    ReplayedConcat(w0, log, seq(n, i => ZERO_ENTRY));
    ZeroTail(Replayed(w0, log), n);
    SameIgnoresId(AfterAll(w0, cmds).state, Replayed(w0, log).state, Replayed(w0, file).state);
  }

  /** The file of a history, zero tail included, can be replayed over an index like the one the history started with. */
  lemma FilePermitted(free: nat, ix: Index, cmds: seq<Command>, file: seq<WalEntry>)
    requires var w0 := Whole(Opening(free), ix);
      History(w0, cmds) && |LogOf(w0, cmds)| <= |file| && Ring(file, LogOf(w0, cmds))
    ensures LogPermitted(Whole(Opening(free), ix), file)
  {
    hide History, LogOf, Same, Ring, LogPermitted;
    var w0 := Whole(Opening(free), ix);
    OpeningLive(free);
    RingUnwrapped(file, LogOf(w0, cmds));
    HistoryPermitted(w0.state, w0.state, ix, cmds, |file| - |LogOf(w0, cmds)|);
  }

  // ── the id counter ──

  /** The id counter is above every id the index finds. */
  ghost predicate IdsUnder(st: State) {
    st.nextId >= 1 && forall id :: id in st.indexed ==> id < st.nextId
  }

  lemma RedoneIds(w: Whole, e: WalEntry)
    requires |w.state.books| == MAX_LOCATE && IdsUnder(w.state) && e.orderId != 0xFFFF_FFFF_FFFF_FFFF
    ensures var st := Redone(w, e).state; IdsUnder(st) && w.state.nextId <= st.nextId && e.orderId < st.nextId
  {
    hide Walk, Insert, Gone, Trades, Locate, Without, Replaced, EntryIndex, EntryAnswer;
    WalkKeepsTaker(Half2(w.state.books[e.locate], Opposite(EntryOrder(e).side)), EntryOrder(e));
  }

  lemma {:induction false} ReplayIdsUp(w: Whole, entries: seq<WalEntry>)
    requires |w.state.books| == MAX_LOCATE && IdsUnder(w.state)
    requires forall i :: 0 <= i < |entries| ==> entries[i].orderId != 0xFFFF_FFFF_FFFF_FFFF
    ensures var st := Replayed(w, entries).state;
      w.state.nextId <= st.nextId && forall i :: 0 <= i < |entries| ==> entries[i].orderId < st.nextId
    decreases |entries|
  {
    hide Redone, IdsUnder;
    if entries != [] {
      RedoneIds(w, entries[0]);
      ReplayIdsUp(Redone(w, entries[0]), entries[1..]);
      forall i | 0 <= i < |entries| ensures entries[i].orderId < Replayed(w, entries).state.nextId {
        assert i > 0 ==> entries[i] == entries[1..][i - 1];
      }
    }
  }

  /** After a replay the id counter is above every id in the log if and only if none of them is the largest 64-bit value. */
  lemma ReplayIds(w: Whole, entries: seq<WalEntry>)
    requires |w.state.books| == MAX_LOCATE && IdsUnder(w.state)
    ensures (forall i :: 0 <= i < |entries| ==> entries[i].orderId < Replayed(w, entries).state.nextId) <==>
            (forall i :: 0 <= i < |entries| ==> entries[i].orderId != 0xFFFF_FFFF_FFFF_FFFF)
  {
    hide Replayed, IdsUnder;
    if forall i :: 0 <= i < |entries| ==> entries[i].orderId != 0xFFFF_FFFF_FFFF_FFFF {
      ReplayIdsUp(w, entries);
    }
  }

  lemma OpeningIds(free: nat)
    ensures IdsUnder(Opening(free))
  {
  }

  // ── an index of another size ──

  /** The n-th of a series of adds, each to a book of its own. */
  ghost function NthAdd(n: nat): Command
    requires n < MAX_LOCATE
  {
    CmdAdd(n, n + 1, Sell, 10, 5, 7, Day)
  }

  /** The first n adds of the series rest in their books, in a pool of three slots; the index took these ids. */
  ghost predicate Series(st: State, n: nat, ids: set<u64>) {
    && |st.books| == MAX_LOCATE && st.free + n == 3 && st.indexed == ids
    && (forall l :: n <= l < MAX_LOCATE ==> st.books[l] == EMPTY_BOOK)
    && (forall l :: 0 <= l < n ==> st.books[l].bids == [] && Lone(st.books[l].asks, l + 1))
  }

  ghost predicate Lone(q: seq<OrderData>, id: nat) {
    |q| == 1 && q[0].orderId == id && q[0].userId == 7
  }

  /** A sell order meets nothing in an empty book, and rests. */
  lemma RestsAlone(st: State, ix: Index, l: nat, o: OrderData)
    requires l < |st.books| && st.books[l] == EMPTY_BOOK && st.free > 0
    requires o.side == Sell && o.remainingQty > 0 && o.status == Open
    ensures Rests(st, l, o, Day) && TakerAccepted(st, ix, l, o, Day) == Accepts(ix, o.orderId)
    ensures ExecuteIndex(st, ix, l, o, Day) == Bind(ix, o.orderId)
    ensures forall ins :: Execute(st, l, o, Day, ins).state == Rest(st, l, o, ins)
    ensures Insert([], o) == [o]
  {
    hide Bind, Accepts;
    assert Walk([], o) == Walked([], [], o);
    NothingGone();
    assert AfterWalk(st, l, o).books == st.books;
    assert AfterWalk(st, l, o) == st;
  }

  lemma SeriesRests(st: State, n: nat, ids: set<u64>, o: OrderData, ins: bool)
    requires n < 3 && Series(st, n, ids) && o.orderId == n + 1 && o.userId == 7 && o.side == Sell && Insert([], o) == [o]
    ensures Series(Rest(st, n, o, ins), n + 1, if ins then ids + {n + 1} else ids)
  {
    hide Insert, Lone;
    var st' := Rest(st, n, o, ins);
    assert st'.books[n] == Book([], [o]) && Lone([o], n + 1) by { LoneOne(o, n + 1); }
    assert forall l :: 0 <= l < MAX_LOCATE && l != n ==> st'.books[l] == st.books[l];
  }

  lemma LoneOne(o: OrderData, id: nat)
    requires o.orderId == id && o.userId == 7
    ensures Lone([o], id)
  {
  }

  /** One more add, live: it rests, and is logged. */
  lemma SeriesLive(w: Whole, n: nat, ids: set<u64>)
    requires n < 3 && Series(w.state, n, ids)
    ensures var c, ins := NthAdd(n), Accepts(w.index, n + 1); var r := Step(w.state, c, InsertAnswer(w.state, w.index, c));
      && Replayable(w.state, c) && Next(w, c).index == Bind(w.index, n + 1)
      && Series(Next(w, c).state, n + 1, if ins then ids + {n + 1} else ids)
      && |r.log| == 1 && LoggedAdd(r.log[0], n)
  {
    hide Execute, TakerAccepted, ExecuteIndex, Bind, Accepts, Insert;
    var o, st1 := NewOrder(7, n + 1, Sell, 10, 5, w.state.nextSeq), w.state.(nextSeq := Wrap64(w.state.nextSeq + 1));
    RestsAlone(w.state, w.index, n, o);
    RestsAlone(st1, w.index, n, o);
    SeriesRests(st1, n, ids, o, Accepts(w.index, n + 1));
  }

  /** The log entry of the n-th add. */
  ghost predicate LoggedAdd(e: WalEntry, n: nat) {
    e.kind == 1 && e.side == 2 && e.locate == n && e.orderId == n + 1 && e.userId == 7 && e.quantity == 5
  }

  /** One more add, replayed. */
  lemma SeriesReplayed(w: Whole, n: nat, ids: set<u64>, e: WalEntry)
    requires n < 3 && Series(w.state, n, ids) && n + 1 !in ids && LoggedAdd(e, n)
    ensures Redone(w, e).index == Bind(w.index, n + 1)
    ensures Series(Redone(w, e).state, n + 1, if Accepts(w.index, n + 1) then ids + {n + 1} else ids)
  {
    hide Execute, TakerAccepted, ExecuteIndex, Bind, Accepts, Insert;
    RestsAlone(w.state, w.index, n, EntryOrder(e));
    SeriesRests(w.state, n, ids, EntryOrder(e), Accepts(w.index, n + 1));
  }

  /** Three adds, then a cancel of the third. */
  ghost function ThreeThenCancel(): seq<Command> {
    [NthAdd(0), NthAdd(1), NthAdd(2), CmdCancel(2, 3, 7)]
  }

  lemma OpeningSeries()
    ensures Series(Opening(3), 0, {})
  {
  }

  /** Live on a new index of two nodes: the third id is refused, so its cancel finds nothing and the order stays. */
  lemma ThirdRefused() returns (log: seq<WalEntry>)
    ensures var w0 := Whole(Opening(3), NewIndex(2)); var w := AfterAll(w0, ThreeThenCancel());
      && History(w0, ThreeThenCancel()) && log == LogOf(w0, ThreeThenCancel()) && |w.state.books| == MAX_LOCATE
      && |w.state.books[2].asks| == 1
    ensures |log| == 4 && (forall n :: 0 <= n < 3 ==> LoggedAdd(log[n], n))
    ensures log[3].kind == 2 && log[3].locate == 2 && log[3].orderId == 3 && log[3].userId == 7
  {
    hide Step, InsertAnswer, IndexAfter, Bind, Accepts, Light, Series, Replayable;
    var w0, cmds := Whole(Opening(3), NewIndex(2)), ThreeThenCancel();
    var none: set<u64> := {};
    assert none + {1} == {1} && {1} + {2} == {1, 2};
    NewIsLight(2);
    OpeningSeries();
    SeriesLive(w0, 0, {});
    LightBind(w0.index, 0, 2, 1);
    var w1 := Next(w0, cmds[0]);
    SeriesLive(w1, 1, {1});
    LightBind(w1.index, 1, 2, 2);
    var w2 := Next(w1, cmds[1]);
    SeriesLive(w2, 2, {1, 2});
    LightBind(w2.index, 2, 2, 3);
    var w3 := Next(w2, cmds[2]);
    CancelMisses(w3);
    var l0, l1 := Step(w0.state, cmds[0], InsertAnswer(w0.state, w0.index, cmds[0])).log, LogOf(w1, cmds[1..]);
    var l2, l3 := LogOf(w2, cmds[1..][1..]), LogOf(w3, cmds[1..][1..][1..]);
    assert cmds[1..] == [NthAdd(1), NthAdd(2), CmdCancel(2, 3, 7)] && cmds[1..][1..] == [NthAdd(2), CmdCancel(2, 3, 7)];
    assert cmds[1..][1..][1..] == [CmdCancel(2, 3, 7)] && cmds[1..][1..][1..][1..] == [];
    log := LogOf(w0, cmds);
    assert log == l0 + l1;
  }

  lemma CancelMisses(w: Whole)
    requires Series(w.state, 3, {1, 2})
    ensures var c := CmdCancel(2, 3, 7); var r := Step(w.state, c, InsertAnswer(w.state, w.index, c));
      && Replayable(w.state, c) && Next(w, c).state.books == w.state.books && |w.state.books[2].asks| == 1
      && |r.log| == 1 && r.log[0].kind == 2 && r.log[0].locate == 2 && r.log[0].orderId == 3 && r.log[0].userId == 7
  {
    assert 3 !in w.state.indexed;
  }

  /** On replay over a new index of four nodes the third id is taken, and the cancel removes the order. */
  lemma ThirdTaken(log: seq<WalEntry>)
    requires |log| == 4 && (forall n :: 0 <= n < 3 ==> LoggedAdd(log[n], n))
    requires log[3].kind == 2 && log[3].locate == 2 && log[3].orderId == 3 && log[3].userId == 7
    ensures Replayed(Whole(Opening(3), NewIndex(4)), log).state.books[2].asks == []
  {
    hide Redone, Bind, Accepts, Light, Series;
    var w0 := Whole(Opening(3), NewIndex(4));
    var none: set<u64> := {};
    assert none + {1} == {1} && {1} + {2} == {1, 2} && {1, 2} + {3} == {1, 2, 3};
    NewIsLight(4);
    OpeningSeries();
    SeriesReplayed(w0, 0, {}, log[0]);
    LightBind(w0.index, 0, 4, 1);
    var w1 := Redone(w0, log[0]);
    SeriesReplayed(w1, 1, {1}, log[1]);
    LightBind(w1.index, 1, 4, 2);
    var w2 := Redone(w1, log[1]);
    SeriesReplayed(w2, 2, {1, 2}, log[2]);
    LightBind(w2.index, 2, 4, 3);
    var w3 := Redone(w2, log[2]);
    CancelHits(w3, log[3]);
    assert log[1..][0] == log[1] && log[1..][1..] == log[2..] && log[2..][0] == log[2] && log[2..][1..] == log[3..];
    assert log[3..][0] == log[3] && log[3..][1..] == [];
    assert Replayed(w0, log) == Replayed(w1, log[1..]) == Replayed(w2, log[2..]) == Replayed(w3, log[3..]);
    assert Replayed(w3, log[3..]) == Replayed(Redone(w3, log[3]), []);
  }

  lemma CancelHits(w: Whole, e: WalEntry)
    requires Series(w.state, 3, {1, 2, 3}) && e.kind == 2 && e.locate == 2 && e.orderId == 3 && e.userId == 7
    ensures Redone(w, e).state.books[2].asks == []
  {
    hide EntryIndex;
    var b := w.state.books[2];
    assert Lone(b.asks, 3) && b.bids == [];
    assert Locate(b, 3) == (Sell, 0);
  }

  /**
    The index has to be of the size it was: an add refused by a full index of two nodes is taken on replay by one of
    four, and a cancel that found nothing then removes the order.
   */
  lemma RefusedInsertDiverges()
    ensures var w0, cmds := Whole(Opening(3), NewIndex(2)), ThreeThenCancel();
      && History(w0, cmds)
      && !Same(AfterAll(w0, cmds).state, Replayed(Whole(Opening(3), NewIndex(4)), LogOf(w0, cmds)).state)
  {
    hide AfterAll, Replayed, History, LogOf, LoggedAdd, ThreeThenCancel;
    var log := ThirdRefused();
    ThirdTaken(log);
    var a, b := AfterAll(Whole(Opening(3), NewIndex(2)), ThreeThenCancel()).state,
                Replayed(Whole(Opening(3), NewIndex(4)), log).state;
    SameAsks(a, b, 2);
  }

  lemma SameAsks(a: State, b: State, l: nat)
    ensures Same(a, b) && l < |a.books| ==> |a.books[l].asks| == |b.books[l].asks|
  {
    if Same(a, b) && l < |a.books| {
      assert EqBook(a.books[l], b.books[l]);
    }
  }

  lemma SameIgnoresId(a: State, b: State, b': State)
    requires Same(a, b) && SameButNextId(b', b) && SeqUpTo(b, b.nextSeq)
    ensures Same(a, b') && SeqUpTo(b', b'.nextSeq)
  {
  }

  lemma OpeningLive(free: nat)
    ensures Live(Opening(free)) && Same(Opening(free), Opening(free))
    ensures Counting(Opening(free)) && SeqUpTo(Opening(free), Opening(free).nextSeq)
  {
  }
}
