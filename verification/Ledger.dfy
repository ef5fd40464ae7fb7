/** Conservation over runs: ids stay unique, every share is accounted for, and fills balance trades. */
module Ledger {
  import opened Types
  import opened Matching
  import opened Chains
  import opened WalkFacts
  import opened Exchange
  import opened Runs

  // ── sums over all books ──

  ghost function BookSum(f: Book -> nat, books: seq<Book>): nat {
    if books == [] then 0 else f(books[0]) + BookSum(f, books[1..])
  }

  lemma {:induction false} BookSumUpdate(f: Book -> nat, books: seq<Book>, l: nat, b: Book)
    requires l < |books|
    ensures BookSum(f, books[l := b]) + f(books[l]) == BookSum(f, books) + f(b)
  {
    if l == 0 {
      assert books[l := b][1..] == books[1..];
    } else {
      assert books[l := b][1..] == books[1..][l - 1 := b];
      BookSumUpdate(f, books[1..], l - 1, b);
    }
  }

  lemma {:induction false} BookSumAtLeast(f: Book -> nat, books: seq<Book>, l: nat)
    requires l < |books|
    ensures f(books[l]) <= BookSum(f, books)
  {
    if l > 0 {
      BookSumAtLeast(f, books[1..], l - 1);
    }
  }

  lemma {:induction false} BookSumAtLeastTwo(f: Book -> nat, books: seq<Book>, l: nat, l': nat)
    requires l < l' < |books|
    ensures f(books[l]) + f(books[l']) <= BookSum(f, books)
  {
    if l == 0 {
      BookSumAtLeast(f, books[1..], l' - 1);
    } else {
      BookSumAtLeastTwo(f, books[1..], l - 1, l' - 1);
    }
  }

  lemma {:induction false} BookSumZero(f: Book -> nat, books: seq<Book>)
    requires forall l :: 0 <= l < |books| ==> f(books[l]) == 0
    ensures BookSum(f, books) == 0
  {
    if books != [] {
      BookSumZero(f, books[1..]);
    }
  }

  // ── how often an id is live ──

  ghost function CountId(q: seq<OrderData>, id: u64): nat {
    if q == [] then 0 else (if q[0].orderId == id then 1 else 0) + CountId(q[1..], id)
  }

  ghost function IdsIn(id: u64): Book -> nat {
    (b: Book) => CountId(b.bids, id) + CountId(b.asks, id)
  }

  ghost function LiveCount(st: State, id: u64): nat {
    BookSum(IdsIn(id), st.books)
  }

  /** No id is live twice, in any book. */
  ghost predicate UniqueRefs(st: State) {
    forall id :: LiveCount(st, id) <= 1
  }

  lemma {:induction false} CountIdConcat(a: seq<OrderData>, b: seq<OrderData>, id: u64)
    ensures CountId(a + b, id) == CountId(a, id) + CountId(b, id)
  {
    if a == [] {
      assert a + b == b;
    } else {
      assert (a + b)[1..] == a[1..] + b;
      CountIdConcat(a[1..], b, id);
    }
  }

  lemma CountIdInsert(q: seq<OrderData>, o: OrderData, id: u64)
    ensures CountId(Insert(q, o), id) == CountId(q, id) + if o.orderId == id then 1 else 0
  {
    var k := RestPos(o.side, q, o.price);
    CountIdConcat(q[..k] + [o], q[k..], id);
    CountIdConcat(q[..k], [o], id);
    CountIdConcat(q[..k], q[k..], id);
    assert q[..k] + q[k..] == q;
  }

  lemma CountIdRemove(q: seq<OrderData>, k: nat, id: u64)
    requires k < |q|
    ensures CountId(q, id) == CountId(RemoveAt(q, k), id) + if q[k].orderId == id then 1 else 0
  {
    CountIdConcat(q[..k], q[k + 1..], id);
    CountIdConcat(q[..k], [q[k]] + q[k + 1..], id);
    CountIdConcat([q[k]], q[k + 1..], id);
    assert q == q[..k] + ([q[k]] + q[k + 1..]);
  }

  lemma {:induction false} CountIdSame(q: seq<OrderData>, q': seq<OrderData>, id: u64)
    requires |q'| == |q| && forall i :: 0 <= i < |q| ==> q'[i].orderId == q[i].orderId
    ensures CountId(q', id) == CountId(q, id)
  {
    if q != [] {
      CountIdSame(q[1..], q'[1..], id);
    }
  }

  lemma {:induction false} CountIdPositive(q: seq<OrderData>, k: nat)
    requires k < |q|
    ensures CountId(q, q[k].orderId) > 0
  {
    if k > 0 {
      assert q[1..][k - 1] == q[k];
      CountIdPositive(q[1..], k - 1);
    }
  }

  lemma {:induction false} CountIdNone(q: seq<OrderData>, id: u64)
    requires NoId(q, id)
    ensures CountId(q, id) == 0
  {
    if q != [] {
      CountIdNone(q[1..], id);
    }
  }

  lemma {:induction false} CountIdWalk(opp: seq<OrderData>, taker: OrderData, id: u64)
    ensures CountId(Walk(opp, taker).rest, id) <= CountId(opp, id)
  {
    hide Own, Reaches, AfterFill;
    if opp != [] && taker.remainingQty > 0 {
      var q := Min(taker.remainingQty, opp[0].remainingQty);
      CountIdWalk(opp[1..], taker, id);
      CountIdWalk(opp[1..], AfterFill(taker, q), id);
      CountIdCons(opp[0], Walk(opp[1..], taker).rest, id);
      CountIdCons(AfterFill(opp[0], q), opp[1..], id);
    }
  }

  lemma CountIdCons(o: OrderData, q: seq<OrderData>, id: u64)
    ensures CountId([o] + q, id) == CountId(q, id) + if o.orderId == id then 1 else 0
  {
    assert ([o] + q)[1..] == q;
  }

  lemma FreshHasNoCount(st: State, id: u64)
    requires FreshRef(st, id)
    ensures LiveCount(st, id) == 0
  {
    forall l | 0 <= l < |st.books| ensures IdsIn(id)(st.books[l]) == 0 {
      CountIdNone(st.books[l].bids, id);
      CountIdNone(st.books[l].asks, id);
    }
    BookSumZero(IdsIn(id), st.books);
  }

  /** Two places that hold the same id are the same place. */
  lemma OnePlace(st: State, l: nat, side: Side, i: nat, l': nat, side': Side, i': nat)
    requires UniqueRefs(st) && l < |st.books| && l' < |st.books| && side != Invalid && side' != Invalid
    requires i < |Half2(st.books[l], side)| && i' < |Half2(st.books[l'], side')|
    requires Half2(st.books[l], side)[i].orderId == Half2(st.books[l'], side')[i'].orderId
    ensures l == l' && side == side' && i == i'
  {
    var q, q' := Half2(st.books[l], side), Half2(st.books[l'], side');
    var id := q[i].orderId;
    CountIdPositive(q, i);
    CountIdPositive(q', i');
    assert LiveCount(st, id) <= 1;
    if l < l' {
      BookSumAtLeastTwo(IdsIn(id), st.books, l, l');
    } else if l' < l {
      BookSumAtLeastTwo(IdsIn(id), st.books, l', l);
    } else {
      BookSumAtLeast(IdsIn(id), st.books, l);
      if side == side' && i != i' {
        TwoOfOneId(q, if i < i' then i else i', if i < i' then i' else i);
      }
    }
  }

  lemma TwoOfOneId(q: seq<OrderData>, i: nat, j: nat)
    requires i < j < |q| && q[i].orderId == q[j].orderId
    ensures CountId(q, q[i].orderId) >= 2
  {
    CountIdRemove(q, i, q[i].orderId);
    assert RemoveAt(q, i)[j - 1] == q[j];
    CountIdPositive(RemoveAt(q, i), j - 1);
  }

  // ── what callers promise ──

  /** Added refs are not live, and cancels and replaces name the order's own locate. */
  ghost predicate Permitted(st: State, c: Command) {
    match c
    case CmdAdd(l, ref, side, price, qty, user, tif) => FreshRef(st, ref)
    case CmdCancel(l, ref, user) => OwnLocate(st, l, ref)
    case CmdCancelShares(l, ref, shares, user) => OwnLocate(st, l, ref)
    case CmdReplace(l, oldRef, newRef, side, price, qty, user) =>
      OwnLocate(st, l, oldRef) && ReplaceFresh(st, l, oldRef, newRef)
  }

  ghost predicate LegalRun(st: State, inputs: seq<Input>)
    requires |st.books| == MAX_LOCATE
    decreases |inputs|
  {
    inputs != [] ==>
      && Permitted(st, inputs[0].0)
      && LegalRun(Step(st, inputs[0].0, inputs[0].1).state, inputs[1..])
  }

  // ── ids stay unique ──

  lemma HalfCount(st: State, l: nat, side: Side, q: seq<OrderData>, id: u64)
    requires l < |st.books| && side != Invalid
    ensures LiveCount(st.(books := st.books[l := WithHalf(st.books[l], side, q)]), id) + CountId(Half2(st.books[l], side), id)
            == LiveCount(st, id) + CountId(q, id)
  {
    BookSumUpdate(IdsIn(id), st.books, l, WithHalf(st.books[l], side, q));
  }

  lemma CountAgree(st: State, st': State, id: u64)
    requires st'.books == st.books
    ensures LiveCount(st', id) == LiveCount(st, id)
  {
  }

  lemma ExecuteCount(st: State, l: nat, taker: OrderData, tif: Tif, ins: bool, id: u64)
    requires l < |st.books|
    ensures LiveCount(Execute(st, l, taker, tif, ins).state, id) <=
            LiveCount(st, id) + if taker.orderId == id then 1 else 0
  {
    hide Walk, Insert, CountId, BookSum;
    var opp, w, st1 := Opposite(taker.side), WalkIn(st, l, taker), AfterWalk(st, l, taker);
    HalfCount(st, l, opp, w.rest, id);
    CountIdWalk(Half2(st.books[l], opp), taker, id);
    CountAgree(st.(books := st1.books), st1, id);
    WalkKeepsTaker(Half2(st.books[l], opp), taker);
    if CanRest(st1, w.taker) {
      var q := Half2(st1.books[l], w.taker.side);
      HalfCount(st1, l, w.taker.side, Insert(q, w.taker), id);
      CountIdInsert(q, w.taker, id);
      CountAgree(st1.(books := Rest(st1, l, w.taker, ins).books), Rest(st1, l, w.taker, ins), id);
    }
  }

  lemma RemoveCount(st: State, l: nat, ref: u64, id: u64)
    requires Found(st, l, ref)
    ensures LiveCount(Remove(st, l, ref), id) <= LiveCount(st, id)
  {
    hide CountId, BookSum, RemoveAt;
    var (side, k) := Locate(st.books[l], ref);
    var q := Half2(st.books[l], side);
    HalfCount(st, l, side, RemoveAt(q, k), id);
    CountIdRemove(q, k, id);
    CountAgree(st.(books := Remove(st, l, ref).books), Remove(st, l, ref), id);
  }

  lemma ShrinkCount(st: State, l: nat, ref: u64, o: OrderData, id: u64)
    requires Found(st, l, ref) && o.orderId == ref
    ensures LiveCount(st.(books := st.books[l := Replaced(st.books[l], ref, o)]), id) == LiveCount(st, id)
  {
    hide CountId, BookSum;
    var (side, k) := Locate(st.books[l], ref);
    var q := Half2(st.books[l], side);
    HalfCount(st, l, side, q[k := o], id);
    CountIdSame(q, q[k := o], id);
  }

  /** Executing a fresh order keeps ids unique. */
  lemma ExecuteKeepsUnique(st: State, l: nat, taker: OrderData, tif: Tif, ins: bool)
    requires l < |st.books| && UniqueRefs(st) && FreshRef(st, taker.orderId)
    ensures UniqueRefs(Execute(st, l, taker, tif, ins).state)
  {
    hide Execute, LiveCount, FreshRef;
    FreshHasNoCount(st, taker.orderId);
    forall id ensures LiveCount(Execute(st, l, taker, tif, ins).state, id) <= 1 {
      ExecuteCount(st, l, taker, tif, ins, id);
      assert LiveCount(st, id) <= 1;
    }
  }

  lemma RemoveKeepsUnique(st: State, l: nat, ref: u64)
    requires Found(st, l, ref) && UniqueRefs(st)
    ensures UniqueRefs(Remove(st, l, ref))
  {
    hide LiveCount, Remove;
    forall id ensures LiveCount(Remove(st, l, ref), id) <= 1 {
      RemoveCount(st, l, ref, id);
      assert LiveCount(st, id) <= 1;
    }
  }

  lemma UniqueAgree(st: State, st': State)
    requires st'.books == st.books && UniqueRefs(st)
    ensures UniqueRefs(st')
  {
    hide LiveCount;
    forall id ensures LiveCount(st', id) <= 1 {
      CountAgree(st, st', id);
      assert LiveCount(st, id) <= 1;
    }
  }

  lemma FreshSame(st: State, st': State, id: u64)
    requires st'.books == st.books && FreshRef(st, id)
    ensures FreshRef(st', id)
  {
  }

  lemma StepKeepsUnique(st: State, c: Command, ins: bool)
    requires |st.books| == MAX_LOCATE && UniqueRefs(st) && Permitted(st, c)
    ensures UniqueRefs(Step(st, c, ins).state)
  {
    hide UniqueRefs, Execute, Refusal, FreshRef, OwnLocate, Locate, Shrunk;
    match c
    case CmdAdd(l, ref, side, price, qty, user, tif) =>
      if Refusal(st, l, ref, side, price, qty, user, tif).None? {
        RefusalInRange(st, l, ref, side, price, qty, user, tif);
        var st1 := st.(nextSeq := Wrap64(st.nextSeq + 1));
        UniqueAgree(st, st1);
        FreshSame(st, st1, ref);
        ExecuteKeepsUnique(st1, l, NewOrder(user, ref, side, LimitOf(side, price, tif), qty, st.nextSeq), tif, ins);
      }
    case CmdCancel(l, ref, user) =>
      if Found(st, l, ref) {
        RemoveKeepsUnique(st, l, ref);
      }
    case CmdCancelShares(l, ref, shares, user) =>
      if Found(st, l, ref) {
        RemoveKeepsUnique(st, l, ref);
        ShrinkKeepsUnique(st, l, ref, shares);
      }
    case CmdReplace(l, oldRef, newRef, side, price, qty, user) =>
      if Found(st, l, oldRef) {
        RemoveKeepsUnique(st, l, oldRef);
        var st0 := Remove(st, l, oldRef);
        var st1 := st0.(nextSeq := Wrap64(st.nextSeq + 1));
        UniqueAgree(st0, st1);
        FreshSame(st0, st1, newRef);
        ExecuteKeepsUnique(st1, l, NewOrder(newRef, newRef, side, price, qty, st.nextSeq), Day, ins);
      }
  }

  lemma ShrinkKeepsUnique(st: State, l: nat, ref: u64, shares: u32)
    requires Found(st, l, ref) && UniqueRefs(st)
    ensures UniqueRefs(st.(books := st.books[l := Replaced(st.books[l], ref, Shrunk(OrderIn(st.books[l], ref), shares))]))
  {
    hide LiveCount;
    var o := Shrunk(OrderIn(st.books[l], ref), shares);
    var st' := st.(books := st.books[l := Replaced(st.books[l], ref, o)]);
    forall id ensures LiveCount(st', id) <= 1 {
      ShrinkCount(st, l, ref, o, id);
      assert LiveCount(st, id) <= 1;
    }
  }

  // ── every share is accounted for ──

  /** Shares of each live id that were cancelled in part. */
  type Cancelled = map<u64, nat>

  /** An order's shares are filled, still open, or cancelled; nothing wraps because the sum is the original quantity. */
  ghost predicate Accounted(o: OrderData, m: Cancelled) {
    o.orderId in m && o.originalQty == o.filledQty + o.remainingQty + m[o.orderId]
  }

  ghost predicate AccountedHalf(q: seq<OrderData>, m: Cancelled) {
    forall i :: 0 <= i < |q| ==> Accounted(q[i], m)
  }

  ghost predicate AllAccounted(st: State, m: Cancelled) {
    forall l :: 0 <= l < |st.books| ==> AccountedHalf(st.books[l].bids, m) && AccountedHalf(st.books[l].asks, m)
  }

  /** The partial cancels so far, after one more command: only an owner's partial cancel adds to them. */
  ghost function NextCancelled(m: Cancelled, st: State, c: Command): Cancelled {
    match c
    case CmdAdd(l, ref, side, price, qty, user, tif) => m[ref := 0]
    case CmdCancel(l, ref, user) => m
    case CmdCancelShares(l, ref, shares, user) =>
      if Found(st, l, ref) && OrderIn(st.books[l], ref).userId == user && shares < OrderIn(st.books[l], ref).remainingQty
         && ref in m
      then m[ref := m[ref] + shares] else m
    case CmdReplace(l, oldRef, newRef, side, price, qty, user) =>
      if Found(st, l, oldRef) && OrderIn(st.books[l], oldRef).userId == user then m[newRef := 0] else m
  }

  lemma AccountedFill(o: OrderData, q: u32, m: Cancelled)
    requires Accounted(o, m) && q <= o.remainingQty
    ensures Accounted(AfterFill(o, q), m)
  {
  }

  lemma {:induction false} WalkAccounts(opp: seq<OrderData>, taker: OrderData, m: Cancelled)
    requires AccountedHalf(opp, m) && Accounted(taker, m)
    ensures AccountedHalf(Walk(opp, taker).rest, m) && Accounted(Walk(opp, taker).taker, m)
  {
    hide AfterFill, Own, Reaches, Accounted;
    if opp != [] && taker.remainingQty > 0 {
      var q := Min(taker.remainingQty, opp[0].remainingQty);
      AccountedFill(taker, q, m);
      AccountedFill(opp[0], q, m);
      WalkAccounts(opp[1..], taker, m);
      WalkAccounts(opp[1..], AfterFill(taker, q), m);
    }
  }

  /** Opening an account for an id that is not live disturbs nobody. */
  lemma OpenAccount(st: State, m: Cancelled, id: u64)
    requires AllAccounted(st, m) && FreshRef(st, id)
    ensures AllAccounted(st, m[id := 0])
  {
  }

  lemma WithHalfAccounted(st: State, st': State, m: Cancelled, l: nat, side: Side, q: seq<OrderData>)
    requires AllAccounted(st, m) && l < |st.books| && side != Invalid && AccountedHalf(q, m)
    requires st'.books == st.books[l := WithHalf(st.books[l], side, q)]
    ensures AllAccounted(st', m)
  {
  }

  lemma InsertAccounted(q: seq<OrderData>, o: OrderData, m: Cancelled)
    requires AccountedHalf(q, m) && Accounted(o, m)
    ensures AccountedHalf(Insert(q, o), m)
  {
    hide Accounted;
    var k := RestPos(o.side, q, o.price);
    forall i | 0 <= i < |Insert(q, o)| ensures Accounted(Insert(q, o)[i], m) {
      assert Insert(q, o)[i] == if i < k then q[i] else if i == k then o else q[i - 1];
    }
  }

  lemma ExecuteAccounts(st: State, l: nat, taker: OrderData, tif: Tif, ins: bool, m: Cancelled)
    requires l < |st.books| && AllAccounted(st, m) && Accounted(taker, m)
    ensures AllAccounted(Execute(st, l, taker, tif, ins).state, m)
  {
    hide Walk, Insert, Accounted, AccountedHalf;
    var opp, w, st1 := Opposite(taker.side), WalkIn(st, l, taker), AfterWalk(st, l, taker);
    WalkAccounts(Half2(st.books[l], opp), taker, m);
    WithHalfAccounted(st, st1, m, l, opp, w.rest);
    WalkKeepsTaker(Half2(st.books[l], opp), taker);
    if CanRest(st1, w.taker) {
      var q := Half2(st1.books[l], w.taker.side);
      InsertAccounted(q, w.taker, m);
      WithHalfAccounted(st1, Rest(st1, l, w.taker, ins), m, l, w.taker.side, Insert(q, w.taker));
    }
  }

  lemma RemoveAccounts(st: State, l: nat, ref: u64, m: Cancelled)
    requires Found(st, l, ref) && AllAccounted(st, m)
    ensures AllAccounted(Remove(st, l, ref), m)
  {
    hide Accounted;
    var (side, k) := Locate(st.books[l], ref);
    var q := Half2(st.books[l], side);
    forall i | 0 <= i < |RemoveAt(q, k)| ensures Accounted(RemoveAt(q, k)[i], m) {
      assert RemoveAt(q, k)[i] == q[if i < k then i else i + 1];
    }
    WithHalfAccounted(st, Remove(st, l, ref), m, l, side, RemoveAt(q, k));
  }

  /** A partial cancel moves its shares from one order's remainder to that order's cancelled shares, and nothing else. */
  lemma ShrinkAccounts(st: State, l: nat, ref: u64, shares: u32, m: Cancelled)
    requires Found(st, l, ref) && AllAccounted(st, m) && UniqueRefs(st) && ref in m
    requires shares < OrderIn(st.books[l], ref).remainingQty
    ensures AllAccounted(
      st.(books := st.books[l := Replaced(st.books[l], ref, Shrunk(OrderIn(st.books[l], ref), shares))]),
      m[ref := m[ref] + shares])
  {
    hide UniqueRefs, Locate;
    var (side, k) := Locate(st.books[l], ref);
    var q, o, m' := Half2(st.books[l], side), OrderIn(st.books[l], ref), m[ref := m[ref] + shares];
    LocateIs(st.books[l], ref);
    var st' := st.(books := st.books[l := Replaced(st.books[l], ref, Shrunk(o, shares))]);
    forall l', side', i | 0 <= l' < |st'.books| && side' != Invalid && 0 <= i < |Half2(st'.books[l'], side')|
      ensures Accounted(Half2(st'.books[l'], side')[i], m')
    {
      ShrinkAccountsAt(st, l, ref, shares, m, l', side', i);
    }
    SidesCover(st', m');
  }

  lemma SidesCover(st: State, m: Cancelled)
    requires forall l, side, i :: 0 <= l < |st.books| && side != Invalid && 0 <= i < |Half2(st.books[l], side)| ==>
               Accounted(Half2(st.books[l], side)[i], m)
    ensures AllAccounted(st, m)
  {
    forall l | 0 <= l < |st.books| ensures AccountedHalf(st.books[l].bids, m) && AccountedHalf(st.books[l].asks, m) {
      assert Half2(st.books[l], Buy) == st.books[l].bids;
      assert Half2(st.books[l], Sell) == st.books[l].asks;
    }
  }

  lemma LocateIs(b: Book, id: u64)
    requires InBook(b, id)
    ensures var (side, k) := Locate(b, id); side != Invalid && k < |Half2(b, side)| && Half2(b, side)[k].orderId == id
  {
  }

  lemma ShrinkAccountsAt(st: State, l: nat, ref: u64, shares: u32, m: Cancelled, l': nat, side': Side, i: nat)
    requires Found(st, l, ref) && AllAccounted(st, m) && UniqueRefs(st) && ref in m
    requires shares < OrderIn(st.books[l], ref).remainingQty
    requires l' < |st.books| && side' != Invalid
    requires i < |Half2(st.books[l := Replaced(st.books[l], ref, Shrunk(OrderIn(st.books[l], ref), shares))][l'], side')|
    ensures Accounted(
      Half2(st.books[l := Replaced(st.books[l], ref, Shrunk(OrderIn(st.books[l], ref), shares))][l'], side')[i],
      m[ref := m[ref] + shares])
  {
    hide UniqueRefs, Locate;
    var (side, k) := Locate(st.books[l], ref);
    LocateIs(st.books[l], ref);
    if l' != l || side' != side || i != k {
      var o := Half2(st.books[l'], side')[i];
      if o.orderId == ref {
        OnePlace(st, l, side, k, l', side', i);
      }
      assert Accounted(o, m);
    }
  }

  lemma AccountedAgree(st: State, st': State, m: Cancelled)
    requires st'.books == st.books && AllAccounted(st, m)
    ensures AllAccounted(st', m)
  {
  }

  lemma FoundIsAccounted(st: State, l: nat, ref: u64, m: Cancelled)
    requires Found(st, l, ref) && AllAccounted(st, m)
    ensures ref in m
  {
    var (side, k) := Locate(st.books[l], ref);
    assert Accounted(Half2(st.books[l], side)[k], m);
  }

  lemma StepAccounts(st: State, c: Command, ins: bool, m: Cancelled)
    requires |st.books| == MAX_LOCATE && UniqueRefs(st) && Permitted(st, c) && AllAccounted(st, m)
    ensures AllAccounted(Step(st, c, ins).state, NextCancelled(m, st, c))
  {
    hide UniqueRefs, AllAccounted, Execute, Refusal, FreshRef, OwnLocate, Locate, Shrunk, Remove;
    match c
    case CmdAdd(l, ref, side, price, qty, user, tif) =>
      OpenAccount(st, m, ref);
      if Refusal(st, l, ref, side, price, qty, user, tif).None? {
        RefusalInRange(st, l, ref, side, price, qty, user, tif);
        var st1 := st.(nextSeq := Wrap64(st.nextSeq + 1));
        AccountedAgree(st, st1, m[ref := 0]);
        ExecuteAccounts(st1, l, NewOrder(user, ref, side, LimitOf(side, price, tif), qty, st.nextSeq), tif, ins, m[ref := 0]);
      }
    case CmdCancel(l, ref, user) =>
      if Found(st, l, ref) {
        RemoveAccounts(st, l, ref, m);
      }
    case CmdCancelShares(l, ref, shares, user) =>
      if Found(st, l, ref) {
        RemoveAccounts(st, l, ref, m);
        FoundIsAccounted(st, l, ref, m);
        if shares < OrderIn(st.books[l], ref).remainingQty {
          ShrinkAccounts(st, l, ref, shares, m);
        }
      }
    case CmdReplace(l, oldRef, newRef, side, price, qty, user) =>
      if Found(st, l, oldRef) {
        RemoveAccounts(st, l, oldRef, m);
        var st0 := Remove(st, l, oldRef);
        OpenAccount(st0, m, newRef);
        var st1 := st0.(nextSeq := Wrap64(st.nextSeq + 1));
        AccountedAgree(st0, st1, m[newRef := 0]);
        ExecuteAccounts(st1, l, NewOrder(newRef, newRef, side, price, qty, st.nextSeq), Day, ins, m[newRef := 0]);
      }
  }

  /** The partial cancels accumulated over a run. */
  ghost function CancelledAfter(m: Cancelled, st: State, inputs: seq<Input>): Cancelled
    requires |st.books| == MAX_LOCATE
    decreases |inputs|
  {
    if inputs == [] then m
    else CancelledAfter(NextCancelled(m, st, inputs[0].0), Step(st, inputs[0].0, inputs[0].1).state, inputs[1..])
  }

  /** Over every legal run, ids stay unique and every resting order has original = filled + remaining + cancelled. */
  lemma {:induction false} RunsAccount(st: State, inputs: seq<Input>, m: Cancelled)
    requires |st.books| == MAX_LOCATE && UniqueRefs(st) && AllAccounted(st, m) && LegalRun(st, inputs)
    ensures UniqueRefs(After(st, inputs))
    ensures AllAccounted(After(st, inputs), CancelledAfter(m, st, inputs))
    decreases |inputs|
  {
    hide UniqueRefs, AllAccounted, Step, NextCancelled, Permitted;
    if inputs != [] {
      var (c, ins) := inputs[0];
      StepKeepsUnique(st, c, ins);
      StepAccounts(st, c, ins, m);
      RunsAccount(Step(st, c, ins).state, inputs[1..], NextCancelled(m, st, c));
    }
  }

  lemma OpeningAccounted(free: nat)
    ensures UniqueRefs(Opening(free)) && AllAccounted(Opening(free), map[])
  {
    forall id ensures LiveCount(Opening(free), id) <= 1 {
      BookSumZero(IdsIn(id), Opening(free).books);
    }
  }

  /** From an empty exchange, every legal run accounts for every share of every resting order. */
  lemma OpeningRunsAccount(free: nat, inputs: seq<Input>)
    requires LegalRun(Opening(free), inputs)
    ensures UniqueRefs(After(Opening(free), inputs))
    ensures AllAccounted(After(Opening(free), inputs), CancelledAfter(map[], Opening(free), inputs))
  {
    hide UniqueRefs, AllAccounted, LegalRun, After;
    OpeningAccounted(free);
    RunsAccount(Opening(free), inputs, map[]);
  }

  // ── fills balance trades ──

  /** Shares traded, as the responses report them. */
  ghost function TradedIn(out: seq<Response>): nat {
    if out == [] then 0 else (if out[0].RspTrade? then out[0].quantity else 0) + TradedIn(out[1..])
  }

  ghost function FilledIn(): Book -> nat {
    (b: Book) => SumFilled(b.bids) + SumFilled(b.asks)
  }

  /** Shares filled so far on all resting orders. */
  ghost function FilledResting(st: State): nat {
    BookSum(FilledIn(), st.books)
  }

  /** The orders that leave the exchange when a new order is executed, as they are when they leave. */
  ghost function LeftByExecute(st: State, l: nat, taker: OrderData, tif: Tif): seq<OrderData>
    requires l < |st.books|
  {
    var w := WalkIn(st, l, taker);
    GoneOrders(w.fills)
    + if w.taker.status != Filled && tif == Day && CanRest(AfterWalk(st, l, taker), w.taker) then [] else [w.taker]
  }

  /** The orders that leave the exchange in one command. */
  ghost function Left(st: State, c: Command): seq<OrderData>
    requires |st.books| == MAX_LOCATE
  {
    match c
    case CmdAdd(l, ref, side, price, qty, user, tif) =>
      if Refusal(st, l, ref, side, price, qty, user, tif).None? && l < MAX_LOCATE
      then LeftByExecute(st, l, NewOrder(user, ref, side, LimitOf(side, price, tif), qty, st.nextSeq), tif)
      else []
    case CmdCancel(l, ref, user) =>
      if Found(st, l, ref) && OrderIn(st.books[l], ref).userId == user then [OrderIn(st.books[l], ref)] else []
    case CmdCancelShares(l, ref, shares, user) =>
      if Found(st, l, ref) && OrderIn(st.books[l], ref).userId == user && shares >= OrderIn(st.books[l], ref).remainingQty
      then [OrderIn(st.books[l], ref)] else []
    case CmdReplace(l, oldRef, newRef, side, price, qty, user) =>
      if Found(st, l, oldRef) && OrderIn(st.books[l], oldRef).userId == user
      then [OrderIn(st.books[l], oldRef)]
           + LeftByExecute(Remove(st, l, oldRef), l, NewOrder(newRef, newRef, side, price, qty, st.nextSeq), Day)
      else []
  }

  lemma {:induction false} TradedConcat(a: seq<Response>, b: seq<Response>)
    ensures TradedIn(a + b) == TradedIn(a) + TradedIn(b)
  {
    if a == [] {
      assert a + b == b;
    } else {
      assert (a + b)[1..] == a[1..] + b;
      TradedConcat(a[1..], b);
    }
  }

  /** The trade frames of a walk report exactly its fills. */
  lemma {:induction false} TradesReportFills(l: nat, side: Side, fills: seq<Fill>)
    ensures TradedIn(Trades(l, side, fills)) == Traded32(fills)
  {
    if fills != [] {
      TradesReportFills(l, side, fills[1..]);
      assert Trades(l, side, fills)[1..] == Trades(l, side, fills[1..]);
    }
  }

  lemma {:induction false} SumFilledConcat(a: seq<OrderData>, b: seq<OrderData>)
    ensures SumFilled(a + b) == SumFilled(a) + SumFilled(b)
  {
    if a == [] {
      assert a + b == b;
    } else {
      assert (a + b)[1..] == a[1..] + b;
      SumFilledConcat(a[1..], b);
    }
  }

  lemma SumFilledInsert(q: seq<OrderData>, o: OrderData)
    ensures SumFilled(Insert(q, o)) == SumFilled(q) + o.filledQty
  {
    var k := RestPos(o.side, q, o.price);
    SumFilledConcat(q[..k] + [o], q[k..]);
    SumFilledConcat(q[..k], [o]);
    SumFilledConcat(q[..k], q[k..]);
    assert q[..k] + q[k..] == q;
  }

  lemma SumFilledRemove(q: seq<OrderData>, k: nat)
    requires k < |q|
    ensures SumFilled(q) == SumFilled(RemoveAt(q, k)) + q[k].filledQty
  {
    SumFilledOne(q[k]);
    hide SumFilled;
    SumFilledConcat(q[..k], q[k + 1..]);
    SumFilledConcat(q[..k], [q[k]] + q[k + 1..]);
    SumFilledConcat([q[k]], q[k + 1..]);
    assert q == q[..k] + ([q[k]] + q[k + 1..]);
  }

  lemma SumFilledOne(o: OrderData)
    ensures SumFilled([o]) == o.filledQty
  {
  }

  lemma {:induction false} SumFilledSame(q: seq<OrderData>, q': seq<OrderData>)
    requires |q'| == |q| && forall i :: 0 <= i < |q| ==> q'[i].filledQty == q[i].filledQty
    ensures SumFilled(q') == SumFilled(q)
  {
    if q != [] {
      SumFilledSame(q[1..], q'[1..]);
    }
  }

  lemma HalfFilled(st: State, st': State, l: nat, side: Side, q: seq<OrderData>)
    requires l < |st.books| && side != Invalid && st'.books == st.books[l := WithHalf(st.books[l], side, q)]
    ensures FilledResting(st') + SumFilled(Half2(st.books[l], side)) == FilledResting(st) + SumFilled(q)
  {
    BookSumUpdate(FilledIn(), st.books, l, WithHalf(st.books[l], side, q));
  }

  lemma SettleTradesNothing(st: State, l: nat, taker: OrderData, tif: Tif, ins: bool)
    requires l < |st.books|
    ensures TradedIn(Settle(st, l, taker, tif, ins).out) == 0
  {
  }

  lemma ExecuteBalances(st: State, l: nat, taker: OrderData, tif: Tif, ins: bool)
    requires l < |st.books| && AllSane(Half2(st.books[l], Opposite(taker.side))) && Sane(taker)
    ensures FilledResting(Execute(st, l, taker, tif, ins).state) + SumFilled(LeftByExecute(st, l, taker, tif)) ==
            FilledResting(st) + taker.filledQty + 2 * TradedIn(Execute(st, l, taker, tif, ins).out)
  {
    hide Walk, Insert, SumFilled, TradedIn, FilledResting, AllSane, Sane, Trades, GoneOrders;
    var opp, w, st1 := Opposite(taker.side), WalkIn(st, l, taker), AfterWalk(st, l, taker);
    WalkBalances(Half2(st.books[l], opp), taker);
    HalfFilled(st, st1, l, opp, w.rest);
    WalkKeepsTaker(Half2(st.books[l], opp), taker);
    TradesReportFills(l, taker.side, w.fills);
    var done := Settle(st1, l, w.taker, tif, ins);
    SettleTradesNothing(st1, l, w.taker, tif, ins);
    TradedConcat(Trades(l, taker.side, w.fills), done.out);
    SumFilledConcat(GoneOrders(w.fills), [w.taker]);
    SumFilledOne(w.taker);
    assert GoneOrders(w.fills) + [] == GoneOrders(w.fills);
    if w.taker.status != Filled && tif == Day && CanRest(st1, w.taker) {
      var q := Half2(st1.books[l], w.taker.side);
      SumFilledInsert(q, w.taker);
      HalfFilled(st1, done.state, l, w.taker.side, Insert(q, w.taker));
    }
  }

  lemma RemoveBalances(st: State, l: nat, ref: u64)
    requires Found(st, l, ref)
    ensures FilledResting(Remove(st, l, ref)) + OrderIn(st.books[l], ref).filledQty == FilledResting(st)
  {
    hide SumFilled, FilledResting, RemoveAt;
    var (side, k) := Locate(st.books[l], ref);
    var q := Half2(st.books[l], side);
    SumFilledRemove(q, k);
    HalfFilled(st, Remove(st, l, ref), l, side, RemoveAt(q, k));
  }

  lemma ShrinkBalances(st: State, l: nat, ref: u64, shares: u32)
    requires Found(st, l, ref)
    ensures FilledResting(st.(books := st.books[l := Replaced(st.books[l], ref, Shrunk(OrderIn(st.books[l], ref), shares))]))
            == FilledResting(st)
  {
    hide SumFilled, FilledResting;
    var (side, k) := Locate(st.books[l], ref);
    var q, o := Half2(st.books[l], side), Shrunk(OrderIn(st.books[l], ref), shares);
    SumFilledSame(q, q[k := o]);
    HalfFilled(st, st.(books := st.books[l := Replaced(st.books[l], ref, o)]), l, side, q[k := o]);
  }

  lemma FilledAgree(st: State, st': State)
    requires st'.books == st.books
    ensures FilledResting(st') == FilledResting(st)
  {
  }

  lemma NoTradeOut(r: Response)
    requires !r.RspTrade?
    ensures TradedIn([r]) == 0
  {
  }

  lemma ExecuteAgree(st: State, st': State, l: nat, taker: OrderData, tif: Tif)
    requires st'.books == st.books && st'.free == st.free && l < |st.books|
    ensures LeftByExecute(st', l, taker, tif) == LeftByExecute(st, l, taker, tif)
  {
  }

  /** One command: fills on resting orders plus fills of the orders that left grow by twice what was traded. */
  lemma StepBalances(st: State, c: Command, ins: bool)
    requires Good(st)
    ensures FilledResting(Step(st, c, ins).state) + SumFilled(Left(st, c)) ==
            FilledResting(st) + 2 * TradedIn(Step(st, c, ins).out)
  {
    hide GoodBook, Execute, Refusal, Locate, Shrunk, SumFilled, TradedIn, FilledResting, LeftByExecute, Remove;
    SumNone();
    match c
    case CmdAdd(l, ref, side, price, qty, user, tif) =>
      var refused := Refusal(st, l, ref, side, price, qty, user, tif);
      RefusalInRange(st, l, ref, side, price, qty, user, tif);
      if refused.None? {
        var st1 := st.(nextSeq := Wrap64(st.nextSeq + 1));
        var taker := NewOrder(user, ref, side, LimitOf(side, price, tif), qty, st.nextSeq);
        GoodHalves(st.books[l], Opposite(side));
        ExecuteBalances(st1, l, taker, tif, ins);
        FilledAgree(st, st1);
        ExecuteAgree(st, st1, l, taker, tif);
      } else {
        NoTradeOut(RspError(refused.value));
      }
    case CmdCancel(l, ref, user) =>
      NoTradeOut(RspError(OrderNotFound));
      NoTradeOut(RspCancelled(ref));
      if Found(st, l, ref) {
        RemoveBalances(st, l, ref);
        SumFilledOne(OrderIn(st.books[l], ref));
      }
    case CmdCancelShares(l, ref, shares, user) =>
      NoTradeOut(RspError(OrderNotFound));
      NoTradeOut(RspCancelled(ref));
      NoTradeOut(RspOk(ref));
      if Found(st, l, ref) {
        RemoveBalances(st, l, ref);
        SumFilledOne(OrderIn(st.books[l], ref));
        ShrinkBalances(st, l, ref, shares);
      }
    case CmdReplace(l, oldRef, newRef, side, price, qty, user) =>
      NoTradeOut(RspError(OrderNotFound));
      if Found(st, l, oldRef) {
        RemoveKeepsGood(st, l, oldRef);
        ReplaceBalances(st, l, oldRef, newRef, side, price, qty, ins);
      }
  }

  lemma SumNone()
    ensures SumFilled([]) == 0
  {
  }

  lemma ReplaceBalances(st: State, l: nat, oldRef: u64, newRef: u64, side: Side, price: u32, qty: u32, ins: bool)
    requires Found(st, l, oldRef) && Good(Remove(st, l, oldRef)) && l < MAX_LOCATE
    ensures var r := ReplaceFound(st, l, oldRef, newRef, side, price, qty, ins);
      var taker := NewOrder(newRef, newRef, side, price, qty, st.nextSeq);
      FilledResting(r.state)
        + SumFilled([OrderIn(st.books[l], oldRef)] + LeftByExecute(Remove(st, l, oldRef), l, taker, Day))
      == FilledResting(st) + 2 * TradedIn(r.out)
  {
    hide GoodBook, Execute, Locate, SumFilled, TradedIn, FilledResting, LeftByExecute, Remove;
    var st0 := Remove(st, l, oldRef);
    var st1 := st0.(nextSeq := Wrap64(st.nextSeq + 1));
    var taker := NewOrder(newRef, newRef, side, price, qty, st.nextSeq);
    RemoveBalances(st, l, oldRef);
    GoodHalves(st0.books[l], Opposite(side));
    ExecuteBalances(st1, l, taker, Day, ins);
    FilledAgree(st0, st1);
    ExecuteAgree(st0, st1, l, taker, Day);
    SumFilledConcat([OrderIn(st.books[l], oldRef)], LeftByExecute(st0, l, taker, Day));
    SumFilledOne(OrderIn(st.books[l], oldRef));
  }

  /** Shares filled on the orders that left over a run, and shares traded over it. */
  ghost function FilledLeft(st: State, inputs: seq<Input>): nat
    requires |st.books| == MAX_LOCATE
    decreases |inputs|
  {
    if inputs == [] then 0
    else SumFilled(Left(st, inputs[0].0)) + FilledLeft(Step(st, inputs[0].0, inputs[0].1).state, inputs[1..])
  }

  ghost function TradedOver(st: State, inputs: seq<Input>): nat
    requires |st.books| == MAX_LOCATE
    decreases |inputs|
  {
    if inputs == [] then 0
    else
      var r := Step(st, inputs[0].0, inputs[0].1);
      TradedIn(r.out) + TradedOver(r.state, inputs[1..])
  }

  /** Over every run, total filled over all orders ever seen is twice the total traded: each trade fills two orders. */
  lemma {:induction false} RunsBalance(st: State, inputs: seq<Input>)
    requires Good(st)
    ensures |st.books| == MAX_LOCATE
    ensures FilledResting(After(st, inputs)) + FilledLeft(st, inputs) == FilledResting(st) + 2 * TradedOver(st, inputs)
    decreases |inputs|
  {
    hide Good, Step, SumFilled, Left, TradedIn, FilledResting;
    GoodShape(st);
    if inputs != [] {
      var (c, ins) := inputs[0];
      StepKeepsGood(st, c, ins);
      StepBalances(st, c, ins);
      RunsBalance(Step(st, c, ins).state, inputs[1..]);
    }
  }
}
