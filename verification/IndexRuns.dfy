/**
  The exchange together with its index: what each command does to the index, and so what the index will answer. With it
  the answers are no longer given from outside: state and index determine the whole run.
 */
module IndexRuns {
  import opened Types
  import opened Matching
  import opened Exchange
  import opened Runs
  import opened IndexValue

  /** The index after a walk, which erases each maker it uses up. */
  ghost function Dropped(ix: Index, fills: seq<Fill>): Index {
    if fills == [] then ix
    else
      var n := |fills| - 1;
      var before := Dropped(ix, fills[..n]);
      if fills[n].qty == fills[n].maker.remainingQty then Unbind(before, fills[n].maker.orderId) else before
  }

  lemma DroppedMore(ix: Index, fills: seq<Fill>, f: Fill)
    ensures Dropped(ix, fills + [f]) ==
      if f.qty == f.maker.remainingQty then Unbind(Dropped(ix, fills), f.maker.orderId) else Dropped(ix, fills)
  {
    assert (fills + [f])[..|fills|] == fills;
  }

  lemma {:induction false} DroppedKeys(ix: Index, fills: seq<Fill>)
    ensures Dropped(ix, fills).keys == ix.keys - Gone(fills)
  {
    if fills != [] {
      var n := |fills| - 1;
      DroppedKeys(ix, fills[..n]);
      assert fills == fills[..n] + [fills[n]];
      GoneConcat(fills[..n], [fills[n]]);
      GoneOne(fills[n]);
    }
  }

  /** Whether an execution rests the taker. */
  ghost predicate Rests(st: State, l: nat, taker: OrderData, tif: Tif)
    requires l < |st.books|
  {
    var w := WalkIn(st, l, taker);
    w.taker.status != Filled && tif == Day && CanRest(AfterWalk(st, l, taker), w.taker)
  }

  /** If the taker is rested, the index takes its id. */
  ghost predicate TakerAccepted(st: State, ix: Index, l: nat, taker: OrderData, tif: Tif)
    requires l < |st.books|
  {
    Rests(st, l, taker, tif) ==> Accepts(Dropped(ix, WalkIn(st, l, taker).fills), taker.orderId)
  }

  ghost function ExecuteIndex(st: State, ix: Index, l: nat, taker: OrderData, tif: Tif): Index
    requires l < |st.books|
  {
    var ix1 := Dropped(ix, WalkIn(st, l, taker).fills);
    if Rests(st, l, taker, tif) then Bind(ix1, taker.orderId) else ix1
  }

  /** Counters play no part in an execution's index. */
  lemma ExecuteIndexAgrees(st: State, st': State, ix: Index, l: nat, taker: OrderData, tif: Tif)
    requires l < |st.books| && st'.books == st.books && st'.free == st.free
    ensures TakerAccepted(st', ix, l, taker, tif) == TakerAccepted(st, ix, l, taker, tif)
    ensures ExecuteIndex(st', ix, l, taker, tif) == ExecuteIndex(st, ix, l, taker, tif)
  {
    hide Walk, Dropped, Bind, Accepts, Gone;
  }

  /** The order a found replace runs. */
  ghost function ReplaceTaker(st: State, newRef: u64, side: Side, price: u32, qty: u32): OrderData {
    NewOrder(newRef, newRef, side, price, qty, st.nextSeq)
  }

  ghost predicate Owned(st: State, l: nat, ref: u64, user: u64) {
    Found(st, l, ref) && OrderIn(st.books[l], ref).userId == user
  }

  /** The index's answer to the id a command rests; true where it rests none. */
  ghost predicate InsertAnswer(st: State, ix: Index, c: Command)
    requires |st.books| == MAX_LOCATE
  {
    match c
    case CmdAdd(l, ref, side, price, qty, user, tif) =>
      Refusal(st, l, ref, side, price, qty, user, tif).None? ==>
        l < MAX_LOCATE && TakerAccepted(st, ix, l, NewOrder(user, ref, side, LimitOf(side, price, tif), qty, st.nextSeq), tif)
    case CmdReplace(l, oldRef, newRef, side, price, qty, user) =>
      Owned(st, l, oldRef, user) ==>
        TakerAccepted(Remove(st, l, oldRef), Unbind(ix, oldRef), l, ReplaceTaker(st, newRef, side, price, qty), Day)
    case CmdCancel(_, _, _) => true
    case CmdCancelShares(_, _, _, _) => true
  }

  /** The index after a command. */
  ghost function IndexAfter(st: State, ix: Index, c: Command): Index
    requires |st.books| == MAX_LOCATE
  {
    match c
    case CmdAdd(l, ref, side, price, qty, user, tif) =>
      if l >= MAX_LOCATE || Refusal(st, l, ref, side, price, qty, user, tif).Some? then ix
      else ExecuteIndex(st, ix, l, NewOrder(user, ref, side, LimitOf(side, price, tif), qty, st.nextSeq), tif)
    case CmdReplace(l, oldRef, newRef, side, price, qty, user) =>
      if Owned(st, l, oldRef, user)
      then ExecuteIndex(Remove(st, l, oldRef), Unbind(ix, oldRef), l, ReplaceTaker(st, newRef, side, price, qty), Day)
      else ix
    case CmdCancel(l, ref, user) => if Owned(st, l, ref, user) then Unbind(ix, ref) else ix
    case CmdCancelShares(l, ref, shares, user) =>
      if Owned(st, l, ref, user) && shares >= OrderIn(st.books[l], ref).remainingQty then Unbind(ix, ref) else ix
  }

  lemma NoSuchLocate(st: State, ix: Index, c: Command)
    requires |st.books| == MAX_LOCATE <= c.locate
    ensures InsertAnswer(st, ix, c) && IndexAfter(st, ix, c) == ix
  {
  }

  lemma ReplaceIndex(st: State, ix: Index, l: nat, oldRef: u64, newRef: u64, side: Side, price: u32, qty: u32, user: u64)
    requires |st.books| == MAX_LOCATE
    ensures var c, order := CmdReplace(l, oldRef, newRef, side, price, qty, user), ReplaceTaker(st, newRef, side, price, qty);
      if Found(st, l, oldRef) && OrderIn(st.books[l], oldRef).userId == user then
        && InsertAnswer(st, ix, c) == TakerAccepted(Remove(st, l, oldRef), Unbind(ix, oldRef), l, order, Day)
        && IndexAfter(st, ix, c) == ExecuteIndex(Remove(st, l, oldRef), Unbind(ix, oldRef), l, order, Day)
      else InsertAnswer(st, ix, c) && IndexAfter(st, ix, c) == ix
  {
  }

  /** The exchange and its index. */
  datatype Whole = Whole(state: State, index: Index)

  ghost function Next(w: Whole, c: Command): (w': Whole)
    requires |w.state.books| == MAX_LOCATE
    ensures |w'.state.books| == MAX_LOCATE
  {
    Whole(Step(w.state, c, InsertAnswer(w.state, w.index, c)).state, IndexAfter(w.state, w.index, c))
  }

  ghost function AfterAll(w: Whole, cmds: seq<Command>): (w': Whole)
    requires |w.state.books| == MAX_LOCATE
    ensures |w'.state.books| == MAX_LOCATE
    decreases |cmds|
  {
    if cmds == [] then w else AfterAll(Next(w, cmds[0]), cmds[1..])
  }

  /** The same commands with the answers the index gives. */
  ghost function Answered(w: Whole, cmds: seq<Command>): (inputs: seq<Input>)
    requires |w.state.books| == MAX_LOCATE
    ensures |inputs| == |cmds|
    decreases |cmds|
  {
    if cmds == [] then [] else [(cmds[0], InsertAnswer(w.state, w.index, cmds[0]))] + Answered(Next(w, cmds[0]), cmds[1..])
  }

  /** So every statement about runs under arbitrary answers holds of the run under an index's own. */
  lemma {:induction false} AnsweredRun(w: Whole, cmds: seq<Command>)
    requires |w.state.books| == MAX_LOCATE
    ensures AfterAll(w, cmds).state == After(w.state, Answered(w, cmds))
    decreases |cmds|
  {
    hide Step, InsertAnswer, IndexAfter;
    if cmds != [] {
      AnsweredRun(Next(w, cmds[0]), cmds[1..]);
      assert Answered(w, cmds)[1..] == Answered(Next(w, cmds[0]), cmds[1..]);
    }
  }

  /** Every command keeps the index's ids those of the state. */
  lemma NextKeepsKeys(w: Whole, c: Command)
    requires |w.state.books| == MAX_LOCATE && w.index.keys == w.state.indexed
    ensures Next(w, c).index.keys == Next(w, c).state.indexed
  {
    hide Walk, Gone, Refusal, Locate, Trades, Insert, Dropped, Accepts, Without, Replaced;
    match c
    case CmdAdd(l, ref, side, price, qty, user, tif) =>
      RefusalInRange(w.state, l, ref, side, price, qty, user, tif);
      if Refusal(w.state, l, ref, side, price, qty, user, tif).None? {
        var taker := NewOrder(user, ref, side, LimitOf(side, price, tif), qty, w.state.nextSeq);
        ExecuteKeepsKeys(w.state.(nextSeq := Wrap64(w.state.nextSeq + 1)), w.index, l, taker, tif);
        ExecuteIndexAgrees(w.state, w.state.(nextSeq := Wrap64(w.state.nextSeq + 1)), w.index, l, taker, tif);
      }
    case CmdCancel(l, ref, user) =>
    case CmdCancelShares(l, ref, shares, user) =>
    case CmdReplace(l, oldRef, newRef, side, price, qty, user) =>
      if l < MAX_LOCATE && Owned(w.state, l, oldRef, user) {
        var st1, ix := Remove(w.state, l, oldRef), Unbind(w.index, oldRef);
        var st2, taker := st1.(nextSeq := Wrap64(w.state.nextSeq + 1)), ReplaceTaker(w.state, newRef, side, price, qty);
        ExecuteKeepsKeys(st2, ix, l, taker, Day);
        ExecuteIndexAgrees(st1, st2, ix, l, taker, Day);
      }
  }

  lemma ExecuteKeepsKeys(st: State, ix: Index, l: nat, taker: OrderData, tif: Tif)
    requires l < |st.books| && ix.keys == st.indexed
    ensures ExecuteIndex(st, ix, l, taker, tif).keys ==
            Execute(st, l, taker, tif, TakerAccepted(st, ix, l, taker, tif)).state.indexed
  {
    hide Walk, Gone, Trades, Insert, Dropped, Accepts;
    DroppedKeys(ix, WalkIn(st, l, taker).fills);
    WalkKeepsTaker(Half2(st.books[l], Opposite(taker.side)), taker);
  }

  // ── room ──

  lemma {:induction false} DroppedTakesNone(ix: Index, fills: seq<Fill>)
    requires Sized(ix)
    ensures Sized(Dropped(ix, fills)) && Dropped(ix, fills).free >= ix.free
  {
    hide Sized, Unbind;
    if fills != [] {
      var n := |fills| - 1;
      DroppedTakesNone(ix, fills[..n]);
      UnbindTakesNone(Dropped(ix, fills[..n]), fills[n].maker.orderId);
    }
  }

  lemma ExecuteTakesOne(st: State, ix: Index, l: nat, taker: OrderData, tif: Tif)
    requires Sized(ix) && l < |st.books|
    ensures ix.free > 0 ==> TakerAccepted(st, ix, l, taker, tif)
    ensures var ix' := ExecuteIndex(st, ix, l, taker, tif); Sized(ix') && ix'.free + 1 >= ix.free
  {
    hide Sized, Dropped, Bind, Accepts, Rests, WalkIn;
    DroppedTakesNone(ix, WalkIn(st, l, taker).fills);
    BindTakesOne(Dropped(ix, WalkIn(st, l, taker).fills), taker.orderId);
  }

  /** Every command takes at most one node, and its id is taken while one is free. */
  lemma RoomAnswers(w: Whole, c: Command)
    requires |w.state.books| == MAX_LOCATE && Sized(w.index)
    ensures w.index.free > 0 ==> InsertAnswer(w.state, w.index, c)
    ensures var ix := Next(w, c).index; Sized(ix) && ix.free + 1 >= w.index.free
  {
    hide Sized, Unbind, TakerAccepted, ExecuteIndex, Refusal, Found, Remove, OrderIn, Step;
    var st, ix := w.state, w.index;
    match c
    case CmdAdd(l, ref, side, price, qty, user, tif) =>
      RefusalInRange(st, l, ref, side, price, qty, user, tif);
      if l < MAX_LOCATE {
        ExecuteTakesOne(st, ix, l, NewOrder(user, ref, side, LimitOf(side, price, tif), qty, st.nextSeq), tif);
      }
    case CmdCancel(l, ref, user) => UnbindTakesNone(ix, ref);
    case CmdCancelShares(l, ref, shares, user) => UnbindTakesNone(ix, ref);
    case CmdReplace(l, oldRef, newRef, side, price, qty, user) =>
      UnbindTakesNone(ix, oldRef);
      if Owned(st, l, oldRef, user) {
        FoundInRange(st, l, oldRef);
        ExecuteTakesOne(Remove(st, l, oldRef), Unbind(ix, oldRef), l, ReplaceTaker(st, newRef, side, price, qty), Day);
      }
  }

  lemma FoundInRange(st: State, l: nat, id: u64)
    requires Found(st, l, id)
    ensures l < |st.books|
  {
  }
}
