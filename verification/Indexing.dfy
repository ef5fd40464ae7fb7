/** The index against the books: what it finds is live, and while it accepts every id, what is live it finds. */
module Indexing {
  import opened Types
  import opened Matching
  import opened Chains
  import opened Exchange
  import opened Runs
  import opened Ledger
  import opened IndexValue
  import opened IndexRuns

  ghost function ShrinkIn(st: State, l: nat, id: u64, shares: u32): State
    requires Found(st, l, id)
  {
    st.(books := st.books[l := Replaced(st.books[l], id, Shrunk(OrderIn(st.books[l], id), shares))])
  }

  // ── the index only finds live orders ──

  ghost predicate IndexLive(st: State) {
    forall id :: FreshRef(st, id) ==> id !in st.indexed
  }

  /** An id that a walk makes disappear belongs to a maker it used up. */
  lemma {:induction false} WalkGone(opp: seq<OrderData>, taker: OrderData, id: u64)
    requires NoId(Walk(opp, taker).rest, id)
    ensures NoId(opp, id) || id in Gone(Walk(opp, taker).fills)
  {
    hide Reaches, Own;
    if opp != [] && taker.remainingQty > 0 && !NoId(opp, id) {
      var rest := Walk(opp, taker).rest;
      if Own(taker.userId, opp[0]) {
        assert forall i :: 0 <= i < |rest| - 1 ==> rest[1..][i] == rest[i + 1];
        assert rest[0] == opp[0] && rest[1..] == Walk(opp[1..], taker).rest;
        WalkGone(opp[1..], taker, id);
        NoIdCons(opp, id);
      } else if Reaches(taker.side, taker.price, opp[0].price) {
        var q := Min(taker.remainingQty, opp[0].remainingQty);
        FillExhausts(taker, opp[0]);
        if AfterFill(opp[0], q).remainingQty == 0 {
          WalkGone(opp[1..], AfterFill(taker, q), id);
          GoneConcat([Fill(opp[0], q)], Walk(opp[1..], AfterFill(taker, q)).fills);
          GoneOne(Fill(opp[0], q));
          NoIdCons(opp, id);
        } else {
          NoIdCons(opp, id);
          NoIdCons(rest, id);
        }
      }
    }
  }

  lemma NoIdCons(q: seq<OrderData>, id: u64)
    requires q != []
    ensures NoId(q, id) <==> q[0].orderId != id && NoId(q[1..], id)
  {
    if q[0].orderId != id && NoId(q[1..], id) {
      forall i | 0 <= i < |q| ensures q[i].orderId != id {
        assert i > 0 ==> q[i] == q[1..][i - 1];
      }
    }
    if NoId(q, id) {
      assert forall i :: 0 <= i < |q| - 1 ==> q[1..][i] == q[i + 1];
    }
  }

  /** Where a state's book differs from a fresh one: some half of it holds the id. */
  lemma FreshWith(st: State, st': State, l: nat, side: Side, q: seq<OrderData>, id: u64)
    requires l < |st.books| && side != Invalid && st'.books == st.books[l := WithHalf(st.books[l], side, q)]
    requires FreshRef(st', id) && NoId(Half2(st.books[l], side), id)
    ensures FreshRef(st, id)
  {
    hide NoId;
    forall i | 0 <= i < |st.books| ensures NoId(st.books[i].bids, id) && NoId(st.books[i].asks, id) {
      assert NoId(st'.books[i].bids, id) && NoId(st'.books[i].asks, id);
    }
  }

  lemma FreshHalf(st: State, l: nat, side: Side, id: u64)
    requires l < |st.books| && FreshRef(st, id)
    ensures NoId(Half2(st.books[l], side), id)
  {
  }

  lemma ExecuteKeepsIndexLive(st: State, l: nat, taker: OrderData, tif: Tif, ins: bool)
    requires l < |st.books| && IndexLive(st)
    ensures IndexLive(Execute(st, l, taker, tif, ins).state)
  {
    hide FreshRef, Walk, Gone, Insert;
    var opp, w, st1 := Opposite(taker.side), WalkIn(st, l, taker), AfterWalk(st, l, taker);
    forall id | FreshRef(st1, id) ensures id !in st1.indexed {
      FreshHalf(st1, l, opp, id);
      WalkGone(Half2(st.books[l], opp), taker, id);
      if NoId(Half2(st.books[l], opp), id) {
        FreshWith(st, st1, l, opp, w.rest, id);
      }
    }
    if CanRest(st1, w.taker) {
      var side, st2 := w.taker.side, Rest(st1, l, w.taker, ins);
      forall id | FreshRef(st2, id) ensures id !in st2.indexed {
        FreshHalf(st2, l, side, id);
        InsertNoId(Half2(st1.books[l], side), w.taker, id);
        FreshWith(st1, st2, l, side, Insert(Half2(st1.books[l], side), w.taker), id);
      }
    }
  }

  lemma InsertNoId(q: seq<OrderData>, o: OrderData, id: u64)
    requires NoId(Insert(q, o), id)
    ensures NoId(q, id) && o.orderId != id
  {
    var k := RestPos(o.side, q, o.price);
    assert Insert(q, o)[k] == o;
    forall i | 0 <= i < |q| ensures q[i].orderId != id {
      assert q[i] == Insert(q, o)[if i < k then i else i + 1];
    }
  }

  lemma RemoveKeepsIndexLive(st: State, l: nat, ref: u64)
    requires Found(st, l, ref) && IndexLive(st)
    ensures IndexLive(Remove(st, l, ref))
  {
    hide FreshRef, Locate;
    var (side, k) := Locate(st.books[l], ref);
    LocateIs(st.books[l], ref);
    var q, st' := Half2(st.books[l], side), Remove(st, l, ref);
    forall id | FreshRef(st', id) ensures id !in st'.indexed {
      FreshHalf(st', l, side, id);
      if id != ref {
        forall i | 0 <= i < |q| ensures q[i].orderId != id {
          assert i != k ==> q[i] == RemoveAt(q, k)[if i < k then i else i - 1];
        }
        FreshWith(st, st', l, side, RemoveAt(q, k), id);
      }
    }
  }

  lemma ShrinkKeepsIndexLive(st: State, l: nat, ref: u64, shares: u32)
    requires Found(st, l, ref) && IndexLive(st)
    ensures IndexLive(ShrinkIn(st, l, ref, shares))
  {
    hide FreshRef, Locate;
    var (side, k) := Locate(st.books[l], ref);
    LocateIs(st.books[l], ref);
    var q, st' := Half2(st.books[l], side), ShrinkIn(st, l, ref, shares);
    var q' := q[k := Shrunk(q[k], shares)];
    forall id | FreshRef(st', id) ensures id !in st'.indexed {
      FreshHalf(st', l, side, id);
      forall i | 0 <= i < |q| ensures q[i].orderId != id {
        assert q'[i].orderId == q[i].orderId;
      }
      FreshWith(st, st', l, side, q', id);
    }
  }

  lemma IndexLiveAgree(st: State, st': State)
    requires IndexLive(st) && st'.books == st.books && st'.indexed == st.indexed
    ensures IndexLive(st')
  {
    forall id | FreshRef(st', id) ensures id !in st'.indexed {
      assert FreshRef(st, id);
    }
  }

  /** No command, whatever the index answers, leaves an index entry for an id that is not live. */
  lemma StepKeepsIndexLive(st: State, c: Command, ins: bool)
    requires |st.books| == MAX_LOCATE && IndexLive(st)
    ensures IndexLive(Step(st, c, ins).state)
  {
    hide IndexLive, Execute, Refusal, Locate, Remove;
    match c
    case CmdAdd(l, ref, side, price, qty, user, tif) =>
      if Refusal(st, l, ref, side, price, qty, user, tif).None? {
        RefusalInRange(st, l, ref, side, price, qty, user, tif);
        var st1 := st.(nextSeq := Wrap64(st.nextSeq + 1));
        IndexLiveAgree(st, st1);
        ExecuteKeepsIndexLive(st1, l, NewOrder(user, ref, side, LimitOf(side, price, tif), qty, st.nextSeq), tif, ins);
      }
    case CmdCancel(l, ref, user) =>
      if Found(st, l, ref) {
        RemoveKeepsIndexLive(st, l, ref);
      }
    case CmdCancelShares(l, ref, shares, user) =>
      if Found(st, l, ref) {
        RemoveKeepsIndexLive(st, l, ref);
        ShrinkKeepsIndexLive(st, l, ref, shares);
      }
    case CmdReplace(l, oldRef, newRef, side, price, qty, user) =>
      if Found(st, l, oldRef) {
        RemoveKeepsIndexLive(st, l, oldRef);
        var st1 := Remove(st, l, oldRef).(nextSeq := Wrap64(st.nextSeq + 1));
        IndexLiveAgree(Remove(st, l, oldRef), st1);
        ExecuteKeepsIndexLive(st1, l, NewOrder(newRef, newRef, side, price, qty, st.nextSeq), Day, ins);
      }
  }

  // ── and finds all of them ──

  /** Every live id is in the index. */
  ghost predicate IndexComplete(st: State) {
    forall id :: LiveCount(st, id) > 0 ==> id in st.indexed
  }

  lemma LiveIsCounted(st: State, id: u64)
    ensures FreshRef(st, id) <==> LiveCount(st, id) == 0
  {
    if FreshRef(st, id) {
      FreshHasNoCount(st, id);
    } else {
      var l :| 0 <= l < |st.books| && !(NoId(st.books[l].bids, id) && NoId(st.books[l].asks, id));
      BookSumAtLeast(IdsIn(id), st.books, l);
      if !NoId(st.books[l].bids, id) {
        var i :| 0 <= i < |st.books[l].bids| && st.books[l].bids[i].orderId == id;
        CountIdPositive(st.books[l].bids, i);
      } else {
        var i :| 0 <= i < |st.books[l].asks| && st.books[l].asks[i].orderId == id;
        CountIdPositive(st.books[l].asks, i);
      }
    }
  }

  /** Each maker a walk uses up leaves the half. */
  lemma {:induction false} GoneLeaves(opp: seq<OrderData>, taker: OrderData, id: u64)
    requires id in Gone(Walk(opp, taker).fills)
    ensures CountId(Walk(opp, taker).rest, id) + 1 <= CountId(opp, id)
  {
    hide Own, Reaches, Gone;
    if opp == [] || taker.remainingQty == 0 {
      GoneNone(id);
    } else if Own(taker.userId, opp[0]) {
      GoneLeaves(opp[1..], taker, id);
      CountIdCons(opp[0], Walk(opp[1..], taker).rest, id);
    } else if !Reaches(taker.side, taker.price, opp[0].price) {
      GoneNone(id);
    } else {
      var q := Min(taker.remainingQty, opp[0].remainingQty);
      var taker' := AfterFill(taker, q);
      FillExhausts(taker, opp[0]);
      GoneOne(Fill(opp[0], q));
      if AfterFill(opp[0], q).remainingQty == 0 {
        var w := Walk(opp[1..], taker');
        GoneConcat([Fill(opp[0], q)], w.fills);
        CountIdWalk(opp[1..], taker', id);
        if id in Gone(w.fills) {
          GoneLeaves(opp[1..], taker', id);
        }
      }
    }
  }

  lemma GoneNone(id: u64)
    ensures id !in Gone([])
  {
  }

  lemma WalkKeepsComplete(st: State, l: nat, taker: OrderData)
    requires l < |st.books| && UniqueRefs(st) && IndexComplete(st)
    ensures IndexComplete(AfterWalk(st, l, taker))
  {
    hide Walk, Gone, CountId, BookSum;
    var opp, w, st1 := Opposite(taker.side), WalkIn(st, l, taker), AfterWalk(st, l, taker);
    var v := Half2(st.books[l], opp);
    forall id | LiveCount(st1, id) > 0 ensures id in st1.indexed {
      HalfCount(st, l, opp, w.rest, id);
      CountAgree(st.(books := st1.books), st1, id);
      CountIdWalk(v, taker, id);
      assert LiveCount(st, id) <= 1;
      if id in Gone(w.fills) {
        GoneLeaves(v, taker, id);
      }
    }
  }

  lemma RestKeepsComplete(st: State, l: nat, o: OrderData)
    requires l < |st.books| && IndexComplete(st) && CanRest(st, o)
    ensures IndexComplete(Rest(st, l, o, true))
  {
    hide Insert, CountId, BookSum;
    var st' := Rest(st, l, o, true);
    var q := Half2(st.books[l], o.side);
    forall id | LiveCount(st', id) > 0 ensures id in st'.indexed {
      HalfCount(st, l, o.side, Insert(q, o), id);
      CountIdInsert(q, o, id);
      CountAgree(st.(books := st'.books), st', id);
    }
  }

  lemma ExecuteKeepsComplete(st: State, l: nat, taker: OrderData, tif: Tif)
    requires l < |st.books| && UniqueRefs(st) && IndexComplete(st)
    ensures IndexComplete(Execute(st, l, taker, tif, true).state)
  {
    hide Walk, IndexComplete, UniqueRefs, Rest, AfterWalk;
    var st1, t := AfterWalk(st, l, taker), WalkIn(st, l, taker).taker;
    WalkKeepsComplete(st, l, taker);
    if CanRest(st1, t) {
      RestKeepsComplete(st1, l, t);
    }
  }

  lemma RemoveKeepsComplete(st: State, l: nat, ref: u64)
    requires Found(st, l, ref) && UniqueRefs(st) && IndexComplete(st)
    ensures IndexComplete(Remove(st, l, ref))
  {
    hide CountId, BookSum, RemoveAt, Locate;
    var (side, k) := Locate(st.books[l], ref);
    LocateIs(st.books[l], ref);
    var q, st' := Half2(st.books[l], side), Remove(st, l, ref);
    forall id | LiveCount(st', id) > 0 ensures id in st'.indexed {
      HalfCount(st, l, side, RemoveAt(q, k), id);
      CountIdRemove(q, k, id);
      CountAgree(st.(books := st'.books), st', id);
      assert LiveCount(st, id) <= 1;
    }
  }

  lemma ShrinkKeepsComplete(st: State, l: nat, ref: u64, shares: u32)
    requires Found(st, l, ref) && IndexComplete(st)
    ensures IndexComplete(ShrinkIn(st, l, ref, shares))
  {
    hide LiveCount, Locate;
    LocateIs(st.books[l], ref);
    forall id | LiveCount(ShrinkIn(st, l, ref, shares), id) > 0 ensures id in st.indexed {
      ShrinkCount(st, l, ref, Shrunk(OrderIn(st.books[l], ref), shares), id);
    }
  }

  lemma CompleteAgree(st: State, st': State)
    requires IndexComplete(st) && st'.books == st.books && st'.indexed == st.indexed
    ensures IndexComplete(st')
  {
    hide LiveCount;
    forall id | LiveCount(st', id) > 0 ensures id in st'.indexed {
      CountAgree(st, st', id);
    }
  }

  /** Every command the index accepts keeps every live id in the index. */
  lemma StepKeepsComplete(st: State, c: Command)
    requires |st.books| == MAX_LOCATE && UniqueRefs(st) && IndexComplete(st)
    ensures IndexComplete(Step(st, c, true).state)
  {
    hide IndexComplete, UniqueRefs, Execute, Refusal, Locate, Remove;
    match c
    case CmdAdd(l, ref, side, price, qty, user, tif) =>
      if Refusal(st, l, ref, side, price, qty, user, tif).None? {
        RefusalInRange(st, l, ref, side, price, qty, user, tif);
        var st1 := st.(nextSeq := Wrap64(st.nextSeq + 1));
        CompleteAgree(st, st1);
        UniqueAgree(st, st1);
        ExecuteKeepsComplete(st1, l, NewOrder(user, ref, side, LimitOf(side, price, tif), qty, st.nextSeq), tif);
      }
    case CmdCancel(l, ref, user) =>
      if Found(st, l, ref) {
        RemoveKeepsComplete(st, l, ref);
      }
    case CmdCancelShares(l, ref, shares, user) =>
      if Found(st, l, ref) {
        RemoveKeepsComplete(st, l, ref);
        ShrinkKeepsComplete(st, l, ref, shares);
      }
    case CmdReplace(l, oldRef, newRef, side, price, qty, user) =>
      if Found(st, l, oldRef) {
        RemoveKeepsComplete(st, l, oldRef);
        RemoveKeepsUnique(st, l, oldRef);
        var st0 := Remove(st, l, oldRef);
        var st1 := st0.(nextSeq := Wrap64(st.nextSeq + 1));
        CompleteAgree(st0, st1);
        UniqueAgree(st0, st1);
        ExecuteKeepsComplete(st1, l, NewOrder(newRef, newRef, side, price, qty, st.nextSeq), Day);
      }
  }

  ghost predicate AllAccepted(inputs: seq<Input>) {
    forall i :: 0 <= i < |inputs| ==> inputs[i].1
  }

  lemma {:induction false} RunsKeepIndex(st: State, inputs: seq<Input>)
    requires |st.books| == MAX_LOCATE && LegalRun(st, inputs) && AllAccepted(inputs)
    requires UniqueRefs(st) && IndexLive(st) && IndexComplete(st)
    ensures var st' := After(st, inputs); UniqueRefs(st') && IndexLive(st') && IndexComplete(st')
    decreases |inputs|
  {
    hide Step, Permitted, UniqueRefs, IndexLive, IndexComplete;
    if inputs != [] {
      var (c, ins) := inputs[0];
      StepKeepsUnique(st, c, ins);
      StepKeepsIndexLive(st, c, ins);
      StepKeepsComplete(st, c);
      RunsKeepIndex(Step(st, c, ins).state, inputs[1..]);
    }
  }

  /** Over every legal run whose inserts succeed, the index holds exactly the ids of the resting orders. */
  lemma RunsIndexExact(free: nat, inputs: seq<Input>, id: u64)
    requires LegalRun(Opening(free), inputs) && AllAccepted(inputs)
    ensures var st := After(Opening(free), inputs); id in st.indexed <==> !FreshRef(st, id)
  {
    hide After, LegalRun, FreshRef, LiveCount;
    OpeningIndexed(free);
    RunsKeepIndex(Opening(free), inputs);
    LiveIsCounted(After(Opening(free), inputs), id);
  }

  lemma OpeningIndexed(free: nat)
    ensures UniqueRefs(Opening(free)) && IndexLive(Opening(free)) && IndexComplete(Opening(free))
  {
    OpeningAccounted(free);
    forall id ensures LiveCount(Opening(free), id) == 0 {
      BookSumZero(IdsIn(id), Opening(free).books);
    }
  }

  /** So an owner's cancel of a live order, at its own locate, is found and answered, and the id is live no more. */
  lemma OwnerCancelAnswered(free: nat, inputs: seq<Input>, l: nat, id: u64)
    requires LegalRun(Opening(free), inputs) && AllAccepted(inputs) && l < MAX_LOCATE
    requires InBook(After(Opening(free), inputs).books[l], id)
    ensures var st := After(Opening(free), inputs);
      var r := Cancel(st, l, id, OrderIn(st.books[l], id).userId);
      r.out == [RspCancelled(id)] && FreshRef(r.state, id) && id !in r.state.indexed
  {
    hide After, LegalRun, LiveCount, Locate;
    var st := After(Opening(free), inputs);
    OpeningIndexed(free);
    RunsKeepIndex(Opening(free), inputs);
    RunsIndexExact(free, inputs, id);
    LocateIs(st.books[l], id);
    var (side, k) := Locate(st.books[l], id);
    assert Half2(st.books[l], side)[k].orderId == id;
    RemoveEmpties(st, l, id);
  }

  lemma RemoveEmpties(st: State, l: nat, ref: u64)
    requires Found(st, l, ref) && UniqueRefs(st)
    ensures FreshRef(Remove(st, l, ref), ref)
  {
    hide CountId, BookSum, RemoveAt, Locate, FreshRef;
    var (side, k) := Locate(st.books[l], ref);
    LocateIs(st.books[l], ref);
    var q, st' := Half2(st.books[l], side), Remove(st, l, ref);
    HalfCount(st, l, side, RemoveAt(q, k), ref);
    CountIdRemove(q, k, ref);
    CountAgree(st.(books := st'.books), st', ref);
    assert LiveCount(st, ref) <= 1;
    LiveIsCounted(st', ref);
  }

  // ── with the index's own answers ──

  /** With a node for each command, the index takes every id. */
  lemma {:induction false} RoomForAll(w: Whole, cmds: seq<Command>)
    requires |w.state.books| == MAX_LOCATE && Sized(w.index) && |cmds| <= w.index.free
    ensures AllAccepted(Answered(w, cmds))
    decreases |cmds|
  {
    hide Next, InsertAnswer, Sized;
    if cmds != [] {
      RoomAnswers(w, cmds[0]);
      RoomForAll(Next(w, cmds[0]), cmds[1..]);
    }
  }

  /** So an engine over a new index of this capacity keeps the index exact over every legal run no longer than that. */
  lemma NewIndexExact(free: nat, capacity: nat, cmds: seq<Command>, id: u64)
    requires 2 <= capacity <= 0x8000_0000 && |cmds| <= capacity
    requires LegalRun(Opening(free), Answered(Whole(Opening(free), NewIndex(capacity)), cmds))
    ensures var w := AfterAll(Whole(Opening(free), NewIndex(capacity)), cmds);
      id in w.state.indexed <==> !FreshRef(w.state, id)
  {
    hide LegalRun, Answered, AfterAll, After, FreshRef, Light;
    var w0 := Whole(Opening(free), NewIndex(capacity));
    assert Sized(w0.index) && w0.index.free == capacity by { NewIsSized(capacity); }
    RoomForAll(w0, cmds);
    AnsweredRun(w0, cmds);
    RunsIndexExact(free, Answered(w0, cmds), id);
  }

  lemma NewIsSized(capacity: nat)
    requires 2 <= capacity <= 0x8000_0000
    ensures Sized(NewIndex(capacity)) && NewIndex(capacity).free == capacity
  {
    NewIsLight(capacity);
  }
}
