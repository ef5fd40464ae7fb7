/** What rests and what recovery from the slot array keeps: every order that rests has a status and an id it looks for. */
module Survival {
  import opened Types
  import opened Matching
  import opened Chains
  import opened WalkFacts
  import opened Exchange
  import opened Runs
  import opened IndexRuns
  import opened Ledger
  import opened Outcomes
  import opened Volumes
  import opened Answers
  import opened SharedRecovery

  // ── a property of every resting order ──

  ghost predicate Every(p: OrderData -> bool, q: seq<OrderData>) {
    forall i :: 0 <= i < |q| ==> p(q[i])
  }

  ghost predicate EveryIn(p: OrderData -> bool, st: State) {
    forall l :: 0 <= l < |st.books| ==> Every(p, st.books[l].bids) && Every(p, st.books[l].asks)
  }

  /** A property that part fills and part cancels keep. */
  ghost predicate Lasting(p: OrderData -> bool) {
    && (forall o: OrderData, n: u32 :: p(o) && AfterFill(o, n).remainingQty != 0 ==> p(AfterFill(o, n)))
    && (forall o: OrderData, n: u32 :: p(o) ==> p(Shrunk(o, n)))
  }

  lemma EveryOf(p: OrderData -> bool, st: State, l: nat, side: Side)
    requires EveryIn(p, st) && l < |st.books|
    ensures Every(p, Half2(st.books[l], side))
  {
  }

  lemma EveryWith(p: OrderData -> bool, st: State, st': State, l: nat, side: Side, q: seq<OrderData>)
    requires EveryIn(p, st) && l < |st.books| && side != Invalid
    requires st'.books == st.books[l := WithHalf(st.books[l], side, q)]
    ensures EveryIn(p, st') <==> Every(p, q)
  {
    hide Every;
    assert side == Buy ==> st'.books[l].bids == q;
    assert side == Sell ==> st'.books[l].asks == q;
  }

  lemma {:induction false} WalkKeepsEvery(p: OrderData -> bool, opp: seq<OrderData>, taker: OrderData)
    requires Every(p, opp) && Lasting(p)
    ensures Every(p, Walk(opp, taker).rest)
  {
    if opp != [] {
      var q := Min(taker.remainingQty, opp[0].remainingQty);
      WalkKeepsEvery(p, opp[1..], taker);
      WalkKeepsEvery(p, opp[1..], AfterFill(taker, q));
    }
  }

  lemma InsertEvery(p: OrderData -> bool, q: seq<OrderData>, o: OrderData)
    requires Every(p, q)
    ensures Every(p, Insert(q, o)) <==> p(o)
  {
    var k, q' := RestPos(o.side, q, o.price), Insert(q, o);
    assert q'[k] == o;
    forall i | 0 <= i < |q'| && i != k ensures p(q'[i]) {
      assert q'[i] == if i < k then q[i] else q[i - 1];
    }
  }

  /** An execution keeps the property exactly when the order it rests, if any, has it. */
  lemma ExecuteEvery(p: OrderData -> bool, st: State, l: nat, taker: OrderData, tif: Tif, ins: bool)
    requires EveryIn(p, st) && Lasting(p) && l < |st.books|
    ensures EveryIn(p, Execute(st, l, taker, tif, ins).state) <==>
            (Rests(st, l, taker, tif) ==> p(WalkIn(st, l, taker).taker))
  {
    hide EveryIn, Every, Lasting, Walk, Insert, Gone, Trades;
    var opp, w, st1 := Opposite(taker.side), WalkIn(st, l, taker), AfterWalk(st, l, taker);
    EveryOf(p, st, l, opp);
    WalkKeepsEvery(p, Half2(st.books[l], opp), taker);
    EveryWith(p, st, st1, l, opp, w.rest);
    if Rests(st, l, taker, tif) {
      var q := Half2(st1.books[l], w.taker.side);
      EveryOf(p, st1, l, w.taker.side);
      InsertEvery(p, q, w.taker);
      EveryWith(p, st1, Rest(st1, l, w.taker, ins), l, w.taker.side, Insert(q, w.taker));
    }
  }

  lemma RemoveEvery(p: OrderData -> bool, st: State, l: nat, id: u64)
    requires EveryIn(p, st) && Found(st, l, id)
    ensures EveryIn(p, Remove(st, l, id))
  {
    hide EveryIn;
    var (side, k) := Locate(st.books[l], id);
    EveryOf(p, st, l, side);
    EveryWith(p, st, Remove(st, l, id), l, side, RemoveAt(Half2(st.books[l], side), k));
  }

  lemma ShrinkEvery(p: OrderData -> bool, st: State, l: nat, id: u64, shares: u32)
    requires EveryIn(p, st) && Lasting(p) && Found(st, l, id)
    ensures EveryIn(p, st.(books := st.books[l := Replaced(st.books[l], id, Shrunk(OrderIn(st.books[l], id), shares))]))
  {
    hide EveryIn;
    var (side, k) := Locate(st.books[l], id);
    var q, o := Half2(st.books[l], side), Shrunk(OrderIn(st.books[l], id), shares);
    EveryOf(p, st, l, side);
    EveryWith(p, st, st.(books := st.books[l := Replaced(st.books[l], id, o)]), l, side, q[k := o]);
  }

  lemma EveryAgree(p: OrderData -> bool, st: State, st': State)
    requires st'.books == st.books && EveryIn(p, st)
    ensures EveryIn(p, st')
  {
  }

  /** The order a command would rest after matching, if it gets that far. */
  ghost function Newcomer(st: State, c: Command): Option<OrderData>
    requires |st.books| == MAX_LOCATE
  {
    match c
    case CmdAdd(l, ref, side, price, qty, user, tif) =>
      if l >= MAX_LOCATE || Refusal(st, l, ref, side, price, qty, user, tif).Some? then None
      else
        var taker := NewOrder(user, ref, side, LimitOf(side, price, tif), qty, st.nextSeq);
        if Rests(st, l, taker, tif) then Some(WalkIn(st, l, taker).taker) else None
    case CmdReplace(l, oldRef, newRef, side, price, qty, user) =>
      if l >= MAX_LOCATE || !Owned(st, l, oldRef, user) then None
      else
        var st1, taker := Remove(st, l, oldRef), ReplaceTaker(st, newRef, side, price, qty);
        if Rests(st1, l, taker, Day) then Some(WalkIn(st1, l, taker).taker) else None
    case CmdCancel(_, _, _) => None
    case CmdCancelShares(_, _, _, _) => None
  }

  /** A command keeps the property exactly when its newcomer, if any, has it. */
  lemma StepEvery(p: OrderData -> bool, st: State, c: Command, ins: bool)
    requires |st.books| == MAX_LOCATE && EveryIn(p, st) && Lasting(p)
    ensures EveryIn(p, Step(st, c, ins).state) <==> (Newcomer(st, c).Some? ==> p(Newcomer(st, c).value))
  {
    hide EveryIn, Every, Lasting, Execute, Locate, Refusal, Remove, Walk, Shrunk, Replaced, LimitOf;
    match c
    case CmdAdd(l, ref, side, price, qty, user, tif) =>
      RefusalInRange(st, l, ref, side, price, qty, user, tif);
      if Refusal(st, l, ref, side, price, qty, user, tif).None? {
        var st1 := st.(nextSeq := Wrap64(st.nextSeq + 1));
        EveryAgree(p, st, st1);
        ExecuteEvery(p, st1, l, NewOrder(user, ref, side, LimitOf(side, price, tif), qty, st.nextSeq), tif, ins);
      }
    case CmdCancel(l, ref, user) =>
      if Found(st, l, ref) {
        RemoveEvery(p, st, l, ref);
      }
    case CmdCancelShares(l, ref, shares, user) =>
      if Found(st, l, ref) {
        RemoveEvery(p, st, l, ref);
        ShrinkEvery(p, st, l, ref, shares);
      }
    case CmdReplace(l, oldRef, newRef, side, price, qty, user) =>
      if l < MAX_LOCATE && Owned(st, l, oldRef, user) {
        var st0 := Remove(st, l, oldRef);
        var st1 := st0.(nextSeq := Wrap64(st.nextSeq + 1));
        RemoveEvery(p, st, l, oldRef);
        EveryAgree(p, st0, st1);
        ExecuteEvery(p, st1, l, ReplaceTaker(st, newRef, side, price, qty), Day, ins);
      }
  }

  // ── statuses ──

  ghost function Waits(): OrderData -> bool {
    (o: OrderData) => o.status == Open || o.status == PartiallyFilled
  }

  lemma WaitsLasts()
    ensures Lasting(Waits())
  {
  }

  lemma NewcomerWaits(st: State, c: Command)
    requires |st.books| == MAX_LOCATE && Newcomer(st, c).Some?
    ensures Waits()(Newcomer(st, c).value)
  {
    hide Walk, Locate, Refusal, Gone, LimitOf, Remove;
    match c
    case CmdAdd(l, ref, side, price, qty, user, tif) =>
      WalkStatus(Half2(st.books[l], Opposite(side)), NewOrder(user, ref, side, LimitOf(side, price, tif), qty, st.nextSeq));
    case CmdReplace(l, oldRef, newRef, side, price, qty, user) =>
      var st1 := Remove(st, l, oldRef);
      WalkStatus(Half2(st1.books[l], Opposite(side)), ReplaceTaker(st, newRef, side, price, qty));
  }

  /** Over every run, whatever rests is open or partly filled. */
  lemma {:induction false} RunsWait(st: State, inputs: seq<Input>)
    requires |st.books| == MAX_LOCATE && EveryIn(Waits(), st)
    ensures EveryIn(Waits(), After(st, inputs))
    decreases |inputs|
  {
    hide EveryIn, Step, Newcomer;
    if inputs != [] {
      var (c, ins) := inputs[0];
      WaitsLasts();
      StepEvery(Waits(), st, c, ins);
      if Newcomer(st, c).Some? {
        NewcomerWaits(st, c);
      }
      RunsWait(Step(st, c, ins).state, inputs[1..]);
    }
  }

  // ── ids ──

  ghost function HasId(): OrderData -> bool {
    (o: OrderData) => o.orderId != 0
  }

  lemma HasIdLasts()
    ensures Lasting(HasId())
  {
  }

  /**
    The only command that rests an order without an id: an owner's replace to ref 0, on a proper side, for more than
    stands within its price once the old order is gone (or for nothing).
   */
  ghost predicate ToRefZero(st: State, c: Command) {
    && c.CmdReplace? && c.newRef == 0 && c.side != Invalid
    && Found(st, c.locate, c.oldRef) && OrderIn(st.books[c.locate], c.oldRef).userId == c.user
    && (c.qty == 0 || Volume(Faced(Without(st.books[c.locate], c.oldRef), c.side), c.side, c.price, false) < c.qty)
  }

  lemma {:induction false} ZeroOwnsNothing(v: seq<OrderData>, side: Side, price: u32, market: bool)
    ensures OthersVolume(v, 0, side, price, market) == Volume(v, side, price, market)
  {
    if v != [] {
      ZeroOwnsNothing(v[1..], side, price, market);
    }
  }

  lemma NewcomerId(st: State, c: Command)
    requires Good(st)
    ensures (Newcomer(st, c).Some? ==> HasId()(Newcomer(st, c).value)) <==> !ToRefZero(st, c)
  {
    hide Walk, Locate, GoodBook, ReachQty, LimitOf, Without;
    match c
    case CmdAdd(l, ref, side, price, qty, user, tif) =>
      if Newcomer(st, c).Some? {
        WalkKeepsTaker(Half2(st.books[l], Opposite(side)), NewOrder(user, ref, side, LimitOf(side, price, tif), qty, st.nextSeq));
      }
    case CmdCancel(_, _, _) =>
    case CmdCancelShares(_, _, _, _) =>
    case CmdReplace(l, oldRef, newRef, side, price, qty, user) =>
      if l < MAX_LOCATE && Owned(st, l, oldRef, user) {
        ReplacedId(st, l, oldRef, newRef, side, price, qty);
      }
  }

  lemma ReplacedId(st: State, l: nat, oldRef: u64, newRef: u64, side: Side, price: u32, qty: u32)
    requires Good(st) && l < MAX_LOCATE && Found(st, l, oldRef)
    ensures var st1, taker := Remove(st, l, oldRef), ReplaceTaker(st, newRef, side, price, qty);
      && WalkIn(st1, l, taker).taker.orderId == newRef
      && (side == Invalid ==> !Rests(st1, l, taker, Day))
      && (side != Invalid && newRef == 0 ==>
            (Rests(st1, l, taker, Day) <==> qty == 0 || Volume(Faced(st1.books[l], side), side, price, false) < qty))
  {
    hide Walk, Locate, GoodBook, Without, OthersVolume, Volume, Traded32, Met, Gone;
    var st1, taker := Remove(st, l, oldRef), ReplaceTaker(st, newRef, side, price, qty);
    WalkKeepsTaker(Half2(st1.books[l], Opposite(side)), taker);
    if side != Invalid {
      RemoveKeepsGood(st, l, oldRef);
      ReplaceMeant(newRef, side, price, qty, st.nextSeq);
      WalkEnds(st1.books[l], taker, Terms(newRef, side, price, false));
      ZeroOwnsNothing(Faced(st1.books[l], side), side, price, false);
    }
  }

  ghost predicate NamedThroughout(st: State, inputs: seq<Input>)
    requires |st.books| == MAX_LOCATE
    decreases |inputs|
  {
    EveryIn(HasId(), st) && (inputs != [] ==> NamedThroughout(Step(st, inputs[0].0, inputs[0].1).state, inputs[1..]))
  }

  ghost predicate NoRefZero(st: State, inputs: seq<Input>)
    requires |st.books| == MAX_LOCATE
    decreases |inputs|
  {
    inputs != [] ==> !ToRefZero(st, inputs[0].0) && NoRefZero(Step(st, inputs[0].0, inputs[0].1).state, inputs[1..])
  }

  /** Over every run, every resting order has an id throughout if and only if no such replace is made. */
  lemma {:induction false} RunsNamed(st: State, inputs: seq<Input>)
    requires Good(st) && EveryIn(HasId(), st)
    ensures NamedThroughout(st, inputs) <==> NoRefZero(st, inputs)
    ensures NoRefZero(st, inputs) ==> EveryIn(HasId(), After(st, inputs))
    decreases |inputs|
  {
    hide GoodBook, EveryIn, Step, Newcomer, ToRefZero;
    if inputs != [] {
      var (c, ins) := inputs[0];
      HasIdLasts();
      StepEvery(HasId(), st, c, ins);
      NewcomerId(st, c);
      StepKeepsGood(st, c, ins);
      if !ToRefZero(st, c) {
        RunsNamed(Step(st, c, ins).state, inputs[1..]);
      }
    }
  }

  /** The failing case is real: an add and a replace of it to ref 0. */
  lemma RefZeroRests()
    ensures var inputs := [(CmdAdd(0, 1, Sell, 10, 5, 7, Day), true), (CmdReplace(0, 1, 0, Sell, 10, 5, 7), true)];
      LegalRun(Opening(2), inputs) && !EveryIn(HasId(), After(Opening(2), inputs))
  {
    hide EveryIn, Step, Permitted;
    var add, rep := (CmdAdd(0, 1, Sell, 10, 5, 7, Day), true), (CmdReplace(0, 1, 0, Sell, 10, 5, 7), true);
    FirstAdd(2, 1, Sell, 10, 5, 7);
    var st0, st1 := Opening(2), Step(Opening(2), add.0, true).state;
    assert [add][1..] == [] && After(st1, []) == st1;
    OpeningGood(2);
    StepKeepsGood(st0, add.0, true);
    AddThenReplace(st1);
    HasIdLasts();
    StepEvery(HasId(), st1, rep.0, true);
    NewcomerId(st1, rep.0);
    var st2 := Step(st1, rep.0, true).state;
    assert [add, rep][1..] == [rep] && [rep][1..] == [];
    assert After(st0, [add, rep]) == After(st1, [rep]) == After(st2, []) == st2;
    assert LegalRun(st2, []) && LegalRun(st1, [rep]);
    assert Permitted(st0, add.0) by { OpeningFresh(2, 1, Sell, 10, 5, 7); }
  }

  lemma OpeningFresh(free: nat, ref: u64, side: Side, price: u32, qty: u32, user: u64)
    ensures Permitted(Opening(free), CmdAdd(0, ref, side, price, qty, user, Day))
  {
  }

  lemma AddThenReplace(st: State)
    requires st == State(Opening(2).books[0 := Book([], [NewOrder(7, 1, Sell, 10, 5, 1)])], 1, {1}, 2, 1)
    ensures var c := CmdReplace(0, 1, 0, Sell, 10, 5, 7);
      EveryIn(HasId(), st) && Permitted(st, c) && ToRefZero(st, c)
  {
    var b := st.books[0];
    assert b == Book([], [NewOrder(7, 1, Sell, 10, 5, 1)]);
    assert Locate(b, 1) == (Sell, 0);
    assert Without(b, 1) == Book([], []);
    forall l | 0 <= l < |st.books| ensures Every(HasId(), st.books[l].bids) && Every(HasId(), st.books[l].asks) {
      assert l > 0 ==> st.books[l] == EMPTY_BOOK;
    }
  }

  // ── recovery ──

  /**
    Recovery drops nothing that rests: after any run from an empty exchange that makes no replace to ref 0 as above, an
    order that rests, in whatever book, is in the rebuilt half of its side if its record is in the slot array.
   */
  lemma RestingIsKept(free: nat, inputs: seq<Input>, l: nat, side: Side, i: nat, records: seq<OrderData>)
    requires NoRefZero(Opening(free), inputs) && l < MAX_LOCATE && side != Invalid
    requires i < |Half2(After(Opening(free), inputs).books[l], side)|
    requires Half2(After(Opening(free), inputs).books[l], side)[i] in records
    ensures Half2(After(Opening(free), inputs).books[l], side)[i] in Half2(Rebuilt(records)[0], side)
  {
    hide After, NoRefZero, Rebuilt, GoodBook;
    var st := After(Opening(free), inputs);
    var o := Half2(st.books[l], side)[i];
    OpeningGood(free);
    RunsStayGood(Opening(free), inputs);
    assert EveryIn(Waits(), Opening(free)) && EveryIn(HasId(), Opening(free));
    RunsWait(Opening(free), inputs);
    RunsNamed(Opening(free), inputs);
    EveryOf(Waits(), st, l, side);
    EveryOf(HasId(), st, l, side);
    assert Waits()(o) && HasId()(o);
    GoodHalves(st.books[l], side);
    assert o.side == side;
    RebuiltCounts(records, o);
    assert multiset(records)[o] > 0;
  }
}
