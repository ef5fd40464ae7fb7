/** Time priority over whole runs: within a price, orders stand in the order they were numbered. */
module Priority {
  import opened Types
  import opened Matching
  import opened Chains
  import opened WalkFacts
  import opened Exchange
  import opened Runs
  import opened Ledger
  import opened Replay

  /** Of two orders at one price, the one in front has the smaller sequence number. */
  ghost predicate Timed(q: seq<OrderData>) {
    forall i, j :: 0 <= i < j < |q| && q[i].price == q[j].price ==> q[i].sequence < q[j].sequence
  }

  ghost predicate AllTimed(st: State) {
    forall l :: 0 <= l < |st.books| ==> Timed(st.books[l].bids) && Timed(st.books[l].asks)
  }

  /** Orders dropped, or changed in neither price nor sequence number, leave the rest timed. */
  lemma TimedThin(q: seq<OrderData>, q': seq<OrderData>, at: seq<nat>)
    requires Timed(q) && |at| == |q'|
    requires forall i :: 0 <= i < |q'| ==> at[i] < |q| && q'[i].price == q[at[i]].price && q'[i].sequence == q[at[i]].sequence
    requires forall i, j :: 0 <= i < j < |at| ==> at[i] < at[j]
    ensures Timed(q')
  {
    forall i, j | 0 <= i < j < |q'| && q'[i].price == q'[j].price ensures q'[i].sequence < q'[j].sequence {
      assert at[i] < at[j];
    }
  }

  /** A newcomer with the highest number joins behind all of its price. */
  lemma InsertTimed(side: Side, q: seq<OrderData>, o: OrderData)
    requires Timed(q) && Half(side, q) && o.side == side != Invalid && SeqHalf(q, o.sequence)
    ensures Timed(Insert(q, o))
  {
    var k, q' := RestPos(side, q, o.price), Insert(q, o);
    forall m | k <= m < |q| ensures q[m].price != o.price {
      assert m > k ==> !Ahead(side, q[m].price, q[k].price);
    }
    assert forall m :: 0 <= m < |q'| ==> q'[m] == if m < k then q[m] else if m == k then o else q[m - 1];
  }

  lemma TimedOf(st: State, l: nat, side: Side)
    requires AllTimed(st) && l < |st.books|
    ensures Timed(Half2(st.books[l], side))
  {
  }

  lemma TimedWith(st: State, st': State, l: nat, side: Side, q: seq<OrderData>)
    requires AllTimed(st) && l < |st.books| && side != Invalid && Timed(q)
    requires st'.books == st.books[l := WithHalf(st.books[l], side, q)]
    ensures AllTimed(st')
  {
  }

  lemma TimedAgree(st: State, st': State)
    requires AllTimed(st) && st'.books == st.books
    ensures AllTimed(st')
  {
  }

  lemma ExecuteTimed(st: State, l: nat, taker: OrderData, tif: Tif, ins: bool)
    requires Good(st) && AllTimed(st) && l < MAX_LOCATE && SeqUpTo(st, taker.sequence)
    ensures AllTimed(Execute(st, l, taker, tif, ins).state)
  {
    hide AllTimed, Timed, SeqUpTo, SeqHalf, GoodBook, Walk, Insert, Gone, Trades;
    var opp, w, st1 := Opposite(taker.side), WalkIn(st, l, taker), AfterWalk(st, l, taker);
    var v := Half2(st.books[l], opp);
    TimedOf(st, l, opp);
    var at := RestKeepsOrder(v, taker);
    TimedThin(v, w.rest, at);
    TimedWith(st, st1, l, opp, w.rest);
    WalkKeepsTaker(v, taker);
    if taker.side != Invalid && CanRest(st1, w.taker) {
      var side := taker.side;
      var q := Half2(st.books[l], side);
      assert Half2(st1.books[l], side) == q;
      GoodHalves(st.books[l], side);
      TimedOf(st, l, side);
      SeqOf(st, l, side, taker.sequence);
      InsertTimed(side, q, w.taker);
      TimedWith(st1, Rest(st1, l, w.taker, ins), l, side, Insert(q, w.taker));
    }
  }

  lemma RemoveTimed(st: State, l: nat, id: u64)
    requires AllTimed(st) && Found(st, l, id)
    ensures AllTimed(Remove(st, l, id))
  {
    hide AllTimed, Timed, Locate;
    LocateIs(st.books[l], id);
    var (side, k) := Locate(st.books[l], id);
    var q := Half2(st.books[l], side);
    TimedOf(st, l, side);
    TimedThin(q, RemoveAt(q, k), seq(|q| - 1, i => if i < k then i else i + 1));
    TimedWith(st, Remove(st, l, id), l, side, RemoveAt(q, k));
  }

  lemma ShrinkTimed(st: State, l: nat, id: u64, shares: u32)
    requires AllTimed(st) && Found(st, l, id)
    ensures AllTimed(st.(books := st.books[l := Replaced(st.books[l], id, Shrunk(OrderIn(st.books[l], id), shares))]))
  {
    hide AllTimed, Timed, Locate;
    LocateIs(st.books[l], id);
    var (side, k) := Locate(st.books[l], id);
    var q, o := Half2(st.books[l], side), Shrunk(OrderIn(st.books[l], id), shares);
    TimedOf(st, l, side);
    TimedThin(q, q[k := o], seq(|q|, i => i));
    TimedWith(st, st.(books := st.books[l := Replaced(st.books[l], id, o)]), l, side, q[k := o]);
  }

  /** One command: numbers go up by at most one and stay above all that rest, and every half stays timed. */
  lemma StepTimed(st: State, c: Command, ins: bool)
    requires Good(st) && AllTimed(st) && SeqUpTo(st, st.nextSeq) && st.nextSeq + 1 < TWO64
    ensures var st' := Step(st, c, ins).state;
      AllTimed(st') && SeqUpTo(st', st'.nextSeq) && st.nextSeq <= st'.nextSeq <= st.nextSeq + 1
  {
    hide AllTimed, SeqUpTo, GoodBook, Execute, Refusal, Locate, Remove, Shrunk, Replaced, LimitOf;
    match c
    case CmdAdd(l, ref, side, price, qty, user, tif) =>
      RefusalInRange(st, l, ref, side, price, qty, user, tif);
      if Refusal(st, l, ref, side, price, qty, user, tif).None? {
        NextTimed(st, st, l, NewOrder(user, ref, side, LimitOf(side, price, tif), qty, st.nextSeq), tif, ins);
      }
    case CmdCancel(l, ref, user) =>
      if Found(st, l, ref) {
        RemoveTimed(st, l, ref);
        RemoveSeq(st, l, ref, st.nextSeq);
        RemoveCounters(st, l, ref);
      }
    case CmdCancelShares(l, ref, shares, user) =>
      if Found(st, l, ref) {
        RemoveTimed(st, l, ref);
        RemoveSeq(st, l, ref, st.nextSeq);
        RemoveCounters(st, l, ref);
        ShrinkTimed(st, l, ref, shares);
        ShrinkSeq(st, l, ref, shares, st.nextSeq);
      }
    case CmdReplace(l, oldRef, newRef, side, price, qty, user) =>
      if l < MAX_LOCATE && Found(st, l, oldRef) {
        RemoveTimed(st, l, oldRef);
        RemoveSeq(st, l, oldRef, st.nextSeq);
        RemoveCounters(st, l, oldRef);
        RemoveKeepsGood(st, l, oldRef);
        NextTimed(st, Remove(st, l, oldRef), l, NewOrder(newRef, newRef, side, price, qty, st.nextSeq), Day, ins);
      }
  }

  lemma NextTimed(st: State, st0: State, l: nat, taker: OrderData, tif: Tif, ins: bool)
    requires Good(st0) && AllTimed(st0) && l < MAX_LOCATE && st0.nextSeq == st.nextSeq == taker.sequence
    requires SeqUpTo(st0, st.nextSeq) && st.nextSeq + 1 < TWO64
    ensures var st' := Execute(st0.(nextSeq := Wrap64(st.nextSeq + 1)), l, taker, tif, ins).state;
      AllTimed(st') && SeqUpTo(st', st'.nextSeq) && st'.nextSeq == st.nextSeq + 1
  {
    hide AllTimed, SeqUpTo, GoodBook, Execute;
    var st1 := st0.(nextSeq := Wrap64(st.nextSeq + 1));
    TimedAgree(st0, st1);
    SeqMore(st0, st1, st.nextSeq, st.nextSeq);
    SeqMore(st0, st1, st.nextSeq, st.nextSeq + 1);
    ExecuteTimed(st1, l, taker, tif, ins);
    ExecuteSeq(st1, l, taker, tif, ins, st.nextSeq + 1);
    ExecuteCounters(st1, l, taker, tif, ins);
  }

  lemma {:induction false} RunsTimed(st: State, inputs: seq<Input>)
    requires Good(st) && AllTimed(st) && SeqUpTo(st, st.nextSeq) && st.nextSeq + |inputs| < TWO64
    ensures AllTimed(After(st, inputs)) && SeqUpTo(After(st, inputs), After(st, inputs).nextSeq)
    decreases |inputs|
  {
    hide AllTimed, SeqUpTo, GoodBook, Step;
    if inputs != [] {
      var (c, ins) := inputs[0];
      StepTimed(st, c, ins);
      StepKeepsGood(st, c, ins);
      RunsTimed(Step(st, c, ins).state, inputs[1..]);
    }
  }

  /**
    From an empty exchange, after any commands short of 2^64, of two orders resting on one side of a book at one price
    the one in front was numbered first, and no two orders there share a number.
   */
  lemma TimePriority(free: nat, inputs: seq<Input>, l: nat, side: Side, i: nat, j: nat)
    requires |inputs| + 1 < 0x1_0000_0000_0000_0000 && l < MAX_LOCATE
    requires var q := Half2(After(Opening(free), inputs).books[l], side); i < j < |q| && q[i].price == q[j].price
    ensures var q := Half2(After(Opening(free), inputs).books[l], side); q[i].sequence < q[j].sequence
  {
    hide After, GoodBook;
    OpeningGood(free);
    RunsTimed(Opening(free), inputs);
    TimedOf(After(Opening(free), inputs), l, side);
  }
}
