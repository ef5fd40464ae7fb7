/** Exactly which logged commands a replay repeats. */
module Repeats {
  import opened Types
  import opened Matching
  import opened Chains
  import opened WalkFacts
  import opened Exchange
  import opened Runs
  import opened IndexRuns
  import opened Ledger
  import opened Volumes
  import opened Answers
  import opened Replay

  /**
    Replay takes every logged add for a DAY order, does not check the owner of a partial cancel, and knows of a replace
    only its new ref, which it cancels.
   */
  ghost predicate Repeated(st: State, c: Command)
    requires |st.books| == MAX_LOCATE
  {
    match c
    case CmdAdd(l, ref, side, price, qty, user, tif) =>
      || tif == Day || !Executed(st, l, ref, side, price, qty, user, tif)
      || Offered(st.books[l], TermsOf(side, price, user, tif)) >= qty
      || !Room(st, st.books[l], qty, TermsOf(side, price, user, tif))
    case CmdCancel(_, _, _) => true
    case CmdCancelShares(l, ref, shares, user) => !Found(st, l, ref) || Owned(st, l, ref, user) || shares == 0
    case CmdReplace(l, oldRef, newRef, side, price, qty, user) => !Owned(st, l, oldRef, user) && !Owned(st, l, newRef, user)
  }

  lemma SameLengths(a: State, b: State, l: nat, side: Side)
    requires Same(a, b) && l < |a.books|
    ensures |a.books| == |b.books| && |Half2(a.books[l], side)| == |Half2(b.books[l], side)|
    ensures SumRemaining(Half2(a.books[l], side)) == SumRemaining(Half2(b.books[l], side))
  {
    SameHalf(a, b, l, side);
    EqSums(Half2(a.books[l], side), Half2(b.books[l], side));
  }

  lemma {:induction false} EqSums(p: seq<OrderData>, q: seq<OrderData>)
    requires EqHalf(p, q)
    ensures SumRemaining(p) == SumRemaining(q)
  {
    if p != [] {
      assert EqOrder(p[0], q[0]);
      EqSums(p[1..], q[1..]);
    }
  }

  // ── IOC and FOK adds ──

  lemma JoinsLonger(side: Side, q: seq<OrderData>, q': seq<OrderData>, o: OrderData, k: nat)
    requires Joins(side, q, q', o, k)
    ensures |q'| == |q| + 1
  {
  }

  /** An execution that rests nothing leaves the same state whatever its time in force. */
  lemma TifIrrelevant(st: State, l: nat, taker: OrderData, tif: Tif, ins: bool)
    requires l < |st.books| && tif != Day && !Rests(st, l, taker, Day)
    ensures Execute(st, l, taker, tif, ins).state == Execute(st, l, taker, Day, ins).state
  {
    hide Walk, Gone, Trades;
  }

  /** A logged IOC or FOK is repeated if and only if nothing of it was left, or no slot could be had for what was. */
  lemma UnfilledReplays(a: State, b: State, l: nat, ref: u64, side: Side, price: u32, qty: u32, user: u64, tif: Tif, ins: bool)
    requires Live(a) && Good(a) && Same(a, b) && FreshRef(a, ref) && |b.books| == MAX_LOCATE && tif != Day
    requires Executed(a, l, ref, side, price, qty, user, tif)
    ensures var r, t := Add(a, l, ref, side, price, qty, user, tif, ins), TermsOf(side, price, user, tif);
      && |r.log| == 1
      && (Same(r.state, ReplayEntry(b, r.log[0], ins)) <==> Offered(a.books[l], t) >= qty || !Room(a, a.books[l], qty, t))
  {
    hide Live, GoodBook, Same, Execute, FreshRef, Joins, Offered, Faces, EqOrder, Volume;
    SameShape2(a, b);
    LiveUnindexed(a, ref);
    NotRefused(a, l, ref, side, price, qty, user, tif);
    var t, a1 := TermsOf(side, price, user, tif), a.(nextSeq := Wrap64(a.nextSeq + 1));
    var s := NewOrder(user, ref, side, LimitOf(side, price, tif), qty, a.nextSeq);
    var e := AddEntry(l, s, a1.nextSeq);
    var live, day, redo := Execute(a1, l, s, tif, ins).state, Execute(a1, l, s, Day, ins).state,
                           Execute(b, l, EntryOrder(e), Day, ins).state;
    assert EqOrder(s, EntryOrder(e)) by { EntryKeeps(s, l, a1.nextSeq); }
    SameCounted(a, b, a1, e);
    ExecuteEq(a1, b, l, s, EntryOrder(e), ins);
    SameCounted(day, redo, day, e);
    AddMeant(ref, side, price, qty, user, tif, a.nextSeq);
    var k := ExecuteRests(a1, l, s, tif, ins, t);
    var k' := ExecuteRests(a1, l, s, Day, ins, t);
    if Offered(a.books[l], t) >= qty || !Room(a, a.books[l], qty, t) {
      RestsMeans(a1, l, s, t);
      TifIrrelevant(a1, l, s, tif, ins);
    } else {
      JoinsLonger(side, Half2(a.books[l], side), Half2(day.books[l], side), Remainder(s, a.books[l], t), k');
      SameLengths(day, Counted(redo, e), l, side);
      if Same(live, Counted(redo, e)) {
        SameLengths(live, Counted(redo, e), l, side);
      }
    }
  }

  lemma EntryKeeps(o: OrderData, l: u16, walSeq: u64)
    requires o.side != Invalid && walSeq == Wrap64(o.sequence + 1) && o == NewOrder(o.userId, o.orderId, o.side, o.price, o.originalQty, o.sequence)
    ensures EqOrder(o, EntryOrder(AddEntry(l, o, walSeq)))
  {
  }

  lemma RestsMeans(st: State, l: nat, taker: OrderData, t: Terms)
    requires l < |st.books| && GoodBook(st.books[l]) && Meant(taker, t)
    ensures Rests(st, l, taker, Day) <==>
            !(Offered(st.books[l], t) >= taker.remainingQty > 0) && Room(st, st.books[l], taker.remainingQty, t)
  {
    hide GoodBook, Walk, Traded32, OthersVolume, Met, Reaches, Within, Gone;
    WalkEnds(st.books[l], taker, t);
  }

  // ── replaces ──

  /** A replace that is carried out always shows: its order rests, or trades. */
  lemma ReplaceShows(a: State, l: nat, oldRef: u64, newRef: u64, side: Side, price: u32, qty: u32, ins: bool, b: State)
    requires Good(a) && l < MAX_LOCATE && Found(a, l, oldRef) && side != Invalid
    requires Same(Remove(a, l, oldRef), b)
    ensures !Same(ReplaceFound(a, l, oldRef, newRef, side, price, qty, ins).state, b)
  {
    hide GoodBook, Same, Execute, Joins, Offered, Faces, Locate, Without, SumRemaining, Walk;
    var st0 := Remove(a, l, oldRef);
    var st1, taker := st0.(nextSeq := Wrap64(a.nextSeq + 1)), NewOrder(newRef, newRef, side, price, qty, a.nextSeq);
    var t, st' := Terms(newRef, side, price, false), Execute(st1, l, taker, Day, ins).state;
    RemoveKeepsGood(a, l, oldRef);
    ReplaceMeant(newRef, side, price, qty, a.nextSeq);
    var k := ExecuteRests(st1, l, taker, Day, ins, t);
    if Same(st', b) {
      SameLengths(st', b, l, side);
      SameLengths(st0, b, l, side);
      SameLengths(st', b, l, Opposite(side));
      SameLengths(st0, b, l, Opposite(side));
      if Offered(st0.books[l], t) >= qty > 0 {
        FilledShows(st1, l, taker, ins, t);
      } else {
        JoinsLonger(side, Half2(st0.books[l], side), Half2(st'.books[l], side), Remainder(taker, st0.books[l], t), k);
      }
    }
  }

  /** A filled order takes its quantity from the other half. */
  lemma FilledShows(st: State, l: nat, taker: OrderData, ins: bool, t: Terms)
    requires l < |st.books| && GoodBook(st.books[l]) && Meant(taker, t) && Offered(st.books[l], t) >= taker.remainingQty > 0
    ensures var opp := Opposite(t.side);
      SumRemaining(Half2(Execute(st, l, taker, Day, ins).state.books[l], opp)) < SumRemaining(Half2(st.books[l], opp))
  {
    hide GoodBook, Walk, SumRemaining, SumFilled, GoneOrders, Traded32, OthersVolume, Met, Reaches, Within, Gone, Trades;
    WalkEnds(st.books[l], taker, t);
    GoodHalves(st.books[l], Opposite(t.side));
    WalkBalances(Half2(st.books[l], Opposite(t.side)), taker);
  }

  /** Removing one order leaves another where it can be seen. */
  lemma StillThere(a: State, l: nat, oldRef: u64, newRef: u64)
    requires Found(a, l, oldRef) && newRef != oldRef && Found(a, l, newRef)
    ensures !FreshRef(Remove(a, l, oldRef), newRef)
  {
    var (s1, k1) := Locate(a.books[l], oldRef);
    var (s2, k2) := Locate(a.books[l], newRef);
    var q, b' := Half2(a.books[l], s1), Remove(a, l, oldRef).books[l];
    if s1 == s2 {
      var j := if k2 < k1 then k2 else k2 - 1;
      assert RemoveAt(q, k1)[j] == q[k2];
      assert !NoId(Half2(b', s1), newRef);
    } else {
      assert Half2(b', s2)[k2].orderId == newRef;
      assert !NoId(Half2(b', s2), newRef);
    }
  }

  lemma ExecuteForgets(st: State, l: nat, taker: OrderData, ins: bool, id: u64)
    requires l < |st.books| && id !in st.indexed && id != taker.orderId
    ensures id !in Execute(st, l, taker, Day, ins).state.indexed
  {
    hide Walk, Gone, Trades, Insert;
    WalkKeepsTaker(Half2(st.books[l], Opposite(taker.side)), taker);
  }

  /** A logged replace is repeated if and only if it was refused, and no order of its new ref and user was there to cancel. */
  lemma ReplaceReplays(a: State, b: State, l: nat, oldRef: u64, newRef: u64, side: Side, price: u32, qty: u32, user: u64, ins: bool)
    requires Live(a) && Good(a) && Same(a, b) && |b.books| == MAX_LOCATE && l < MAX_LOCATE && side != Invalid
    requires ReplaceFresh(a, l, oldRef, newRef)
    ensures var r := Replace(a, l, oldRef, newRef, side, price, qty, user, ins);
      && |r.log| == 1
      && (Same(r.state, ReplayEntry(b, r.log[0], ins)) <==> !Owned(a, l, oldRef, user) && !Owned(a, l, newRef, user))
  {
    hide Live, GoodBook, Same, Execute, FreshRef, Locate, Remove, ReplaceFound;
    var e := CancelEntry(4, l, price, qty, user, newRef, a.nextSeq);
    SameShape2(a, b);
    LocateEq(a, b, l, oldRef);
    LocateEq(a, b, l, newRef);
    SameCounted(a, b, a, e);
    if !Owned(a, l, oldRef, user) {
      if Owned(a, l, newRef, user) {
        RemovalShows(a, b, l, newRef, e);
      }
    } else if newRef == oldRef {
      RemoveEq(a, b, l, oldRef);
      var st0 := Remove(a, l, oldRef);
      SameCounted(st0, Remove(b, l, oldRef), st0, e);
      ReplaceShows(a, l, oldRef, newRef, side, price, qty, ins, Counted(Remove(b, l, oldRef), e));
    } else {
      if Found(a, l, newRef) {
        StillThere(a, l, oldRef, newRef);
      }
      ReplacedForgets(a, l, oldRef, newRef, side, price, qty, ins);
      var st' := ReplaceFound(a, l, oldRef, newRef, side, price, qty, ins).state;
      if Same(st', Counted(b, e)) {
        SameShape2(st', Counted(b, e));
      }
    }
  }

  lemma ReplacedForgets(a: State, l: nat, oldRef: u64, newRef: u64, side: Side, price: u32, qty: u32, ins: bool)
    requires Found(a, l, oldRef) && newRef != oldRef
    ensures oldRef in a.indexed && oldRef !in ReplaceFound(a, l, oldRef, newRef, side, price, qty, ins).state.indexed
  {
    hide Execute, Locate, Without;
    ExecuteForgets(Remove(a, l, oldRef).(nextSeq := Wrap64(a.nextSeq + 1)), l,
                   NewOrder(newRef, newRef, side, price, qty, a.nextSeq), ins, oldRef);
  }

  // ── every command ──

  /** From equal states and with equal answers, replaying what a command logged repeats it if and only if Repeated says so. */
  lemma StepReplaysExact(a: State, b: State, c: Command, ins: bool)
    requires Live(a) && Good(a) && Same(a, b) && Permitted(a, c) && (c.CmdReplace? ==> c.side != Invalid)
    ensures |b.books| == MAX_LOCATE
    ensures var r := Step(a, c, ins);
      && |r.log| <= 1
      && (Same(r.state, if r.log == [] then b else ReplayEntry(b, r.log[0], ins)) <==> Repeated(a, c))
  {
    hide Live, GoodBook, Same, Add, Replace, FreshRef, ReplayEntry, Executed, Offered, Room, Owned, ReplaceFresh, OwnLocate;
    SameShape2(a, b);
    match c
    case CmdAdd(l, ref, side, price, qty, user, tif) =>
      AddRefused(a, l, ref, side, price, qty, user, tif, ins);
      if Executed(a, l, ref, side, price, qty, user, tif) {
        if tif == Day {
          StepReplays(a, b, c, ins);
        } else {
          UnfilledReplays(a, b, l, ref, side, price, qty, user, tif, ins);
        }
      }
    case CmdCancel(l, ref, user) =>
      StepReplays(a, b, c, ins);
    case CmdCancelShares(l, ref, shares, user) =>
      if l < MAX_LOCATE {
        PartialCancelReplay(a, b, l, ref, shares, user);
        NoAnswerNeeded(b, CancelShares(a, l, ref, shares, user).log[0], ins);
      }
      SharesOwned(a, l, ref, user);
    case CmdReplace(l, oldRef, newRef, side, price, qty, user) =>
      if l < MAX_LOCATE {
        ReplaceReplays(a, b, l, oldRef, newRef, side, price, qty, user, ins);
      } else {
        OutOfRange(a, c, ins);
      }
  }

  lemma SharesOwned(st: State, l: nat, ref: u64, user: u64)
    ensures Found(st, l, ref) ==> (Owned(st, l, ref, user) <==> OrderIn(st.books[l], ref).userId == user)
    ensures l >= |st.books| ==> !Found(st, l, ref)
  {
  }

  lemma NoAnswerNeeded(st: State, e: WalEntry, ins: bool)
    requires |st.books| == MAX_LOCATE && e.kind == 3
    ensures ReplayEntry(st, e, ins) == ReplayEntry(st, e, true)
  {
  }

  lemma OutOfRange(st: State, c: Command, ins: bool)
    requires |st.books| == MAX_LOCATE <= c.locate && c.CmdReplace?
    ensures Step(st, c, ins).state == st && Step(st, c, ins).log == []
    ensures !Owned(st, c.locate, c.oldRef, c.user) && !Owned(st, c.locate, c.newRef, c.user)
  {
  }
}
