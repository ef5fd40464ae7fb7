/** The matching engine: lazily created books over one slot pool and one index, counters, and the write-ahead log. */
module MatchingEngineModel {
  import opened Types
  import opened Matching
  import opened Chains
  import opened BookMem
  import opened OrderPoolModel
  import opened IndexValue
  import opened OrderMapModel
  import opened OrderBookModel
  import opened Exchange
  import opened MatchLoop
  import opened WalModel
  import opened Runs
  import opened IndexRuns
  import opened Ledger
  import opened Replay
  import opened SharedRecovery
  import opened Snapshots
  import opened Survival

  class MatchingEngine {
    const books: array<OrderBook?>
    const pool: OrderPool
    const index: OrderMap
    const wal: WalWriter?
    var nextSeq: u64
    var nextId: u64
    ghost var st: State

    /** The pool alone, as the memory of a book with no orders. */
    ghost function P(): Mem
      reads pool, pool.storage
    {
      Mem(pool.storage[..], pool.owner, pool.headIdx, pool.free, map[], map[], [], [])
    }

    /** Pool, index and books are distinct objects. */
    ghost predicate Apart()
      reads books
    {
      && pool !in index.Repr() && pool.storage !in index.Repr()
      && books as object !in index.Repr()
      && books as object != pool.storage as object && index.Apart()
      && (wal != null ==>
            && wal !in index.Repr() && wal.base as object !in index.Repr()
            && wal.base as object != pool.storage as object
            && wal.base as object != books as object)
      && forall l :: 0 <= l < books.Length && books[l] != null ==> books[l] !in index.Repr()
    }

    /** The free stack is exact, the index sound, ids unique, and every slot free or resting. */
    ghost predicate Shared()
      reads pool, pool.storage, index, index.nodes, index.buckets, index.bucketLen, index.states
    {
      && pool.Valid() && index.Valid()
      && IndexSound(P(), index.m) && UniqueIds(P()) && Proper(P())
    }

    /** Every resting slot belongs to a book that exists. */
    ghost predicate NoStray()
      reads pool, books
    {
      forall y :: 0 <= y < |pool.owner| && pool.owner[y].Resting? ==>
        pool.owner[y].locate < books.Length && books[pool.owner[y].locate] != null
    }

    /** Book l is well formed and its halves are the abstract book; a null pointer is an empty book. */
    ghost predicate Tied(l: nat)
      requires l < books.Length && l < |st.books|
      reads this, books, books[..], pool, pool.storage
    {
      if books[l] == null then st.books[l] == EMPTY_BOOK
      else
        var b := books[l];
        && b.locate == l && b.pool == pool && b.index == index
        && MemOk(b.M(), l)
        && st.books[l] == Book(b.Orders(Buy), b.Orders(Sell))
    }

    ghost predicate Counters()
      reads this, pool, index
    {
      st.free == |pool.free| && st.indexed == index.m.Keys && st.nextSeq == nextSeq && st.nextId == nextId
    }

    ghost predicate WalOk()
      reads wal, if wal != null then {wal.base} else {}
    {
      wal != null ==> wal.Valid()
    }

    ghost predicate Valid()
      reads this, books, books[..], pool, pool.storage, index, index.nodes, index.buckets, index.bucketLen, index.states
      reads wal, if wal != null then {wal.base} else {}
    {
      && Apart() && books.Length == MAX_LOCATE == |st.books|
      && Shared() && NoStray() && Counters() && WalOk()
      && forall l :: 0 <= l < MAX_LOCATE ==> Tied(l)
    }

    /** No book yet and an empty index; nothing is known of the slot array. */
    ghost predicate Attached()
      reads this, books, books[..], pool, index, index.nodes, index.buckets, index.bucketLen, index.states
      reads wal, if wal != null then {wal.base} else {}
    {
      && Apart() && books.Length == MAX_LOCATE && index.Valid() && index.m == map[] && WalOk()
      && forall l :: 0 <= l < MAX_LOCATE ==> books[l] == null
    }

    constructor (pool: OrderPool, index: OrderMap, wal: WalWriter?)
      requires index.Valid() && index.m == map[]
      requires wal != null ==> wal.Valid()
      ensures Attached() && fresh(books) && this.pool == pool && this.index == index && this.wal == wal
      ensures pool.Valid() && (forall y :: 0 <= y < |pool.owner| ==> pool.owner[y].Free?) ==>
                Valid() && st == Opening(|pool.free|)
      ensures nextSeq == nextId == 1
    {
      hide PoolOk, OrderMap.Valid, Ring, MemOk;
      books := new OrderBook?[MAX_LOCATE](i => null);
      this.pool, this.index, this.wal := pool, index, wal;
      nextSeq, nextId := 1, 1;
      st := Opening(|pool.free|);
      new;
      if pool.Valid() && forall y :: 0 <= y < |pool.owner| ==> pool.owner[y].Free? {
        AllFree(P(), index.m);
      }
    }

    /** Everything an engine operation may write. */
    ghost function Footprint(): set<object>
      reads books
    {
      {this, books, pool, pool.storage, index, index.nodes, index.buckets, index.bucketLen, index.states}
      + (set l | 0 <= l < books.Length && books[l] != null :: books[l])
      + (if wal != null then {wal, wal.base} else {})
    }

    lemma BookValid(l: nat)
      requires Valid() && l < MAX_LOCATE && books[l] != null
      ensures books[l].Valid() && books[l].locate == l && books[l].pool == pool && books[l].index == index
      ensures st.books[l] == Book(books[l].Orders(Buy), books[l].Orders(Sell))
    {
      hide MemOk, PoolOk, IndexSound, UniqueIds, Proper, OrderMap.Valid, OrdersOf;
      assert Tied(l);
      SharedAgree(P(), books[l].M(), index.m);
    }

    /** The remaining book, from its own invariant. */
    lemma TieBook(l: nat)
      requires l < books.Length && l < |st.books| && books[l] != null
      requires books[l].locate == l && books[l].pool == pool && books[l].index == index && books[l].Valid()
      requires st.books[l] == Book(books[l].Orders(Buy), books[l].Orders(Sell))
      ensures Tied(l)
    {
    }

    lemma DistinctBooks(l: nat)
      requires Valid() && l < MAX_LOCATE && books[l] != null
      ensures forall i :: 0 <= i < MAX_LOCATE && i != l && books[i] != null ==> books[i] != books[l]
    {
      forall i | 0 <= i < MAX_LOCATE && i != l && books[i] != null ensures books[i] != books[l] {
        assert Tied(i) && Tied(l);
      }
    }

    /** Rebuild the engine invariant after an operation on book l, from the invariant before it. */
    twostate lemma Retie(l: nat)
      requires books.Length == MAX_LOCATE == |st.books| == |old(st.books)| && l < MAX_LOCATE
      requires books[..] == old(books[..]) && books[l] != null && allocated(books[l]) && old(allocated(books[l]))
      requires forall i :: 0 <= i < MAX_LOCATE && i != l ==> st.books[i] == old(st.books)[i]
      requires forall i :: 0 <= i < MAX_LOCATE && i != l && books[i] != null ==> unchanged(books[i])
      requires OthersSame(old(books[l].M()), books[l].M(), l)
      requires books[l].Valid() && old(Valid())
      ensures NoStray() && Shared()
      ensures forall i :: 0 <= i < MAX_LOCATE && i != l ==> Tied(i)
    {
      hide MemOk, PoolOk, IndexSound, UniqueIds, Proper, OrderMap.Valid, OrdersOf;
      assert old(Tied(l));
      SharedAgree(P(), books[l].M(), index.m);
      MemShape(books[l].M(), l, Buy);
      forall i | 0 <= i < MAX_LOCATE && i != l ensures Tied(i) {
        assert old(Tied(i));
        if books[i] != null {
          OtherKept(old(books[l].M()), books[l].M(), l, old(books[i].M()), books[i].M(), i);
        }
      }
    }

    /** The book of a locate, created on first use; null when the locate is out of range. */
    method BookFor(locate: nat) returns (b: OrderBook?)
      requires Valid()
      modifies books
      ensures Valid()
      ensures b == null <==> locate >= MAX_LOCATE
      ensures b != null ==> books[locate] == b
      ensures fresh(Footprint() - old(Footprint()))
    {
      hide MemOk, PoolOk, IndexSound, UniqueIds, Proper, OrderMap.Valid, OrdersOf, Ring;
      if locate >= MAX_LOCATE {
        return null;
      }
      if books[locate] != null {
        return books[locate];
      }
      assert Tied(locate);
      var nb := new OrderBook(locate, pool, index);
      EmptyBookOk(nb.M(), locate);
      label L:
      books[locate] := nb;
      forall l | 0 <= l < MAX_LOCATE ensures Tied(l) {
        assert old@L(Tied(l));
      }
      return nb;
    }

    /** Match a taker in book l. */
    method MatchIn(l: nat, order: OrderData) returns (taker: OrderData, out: seq<Response>)
      requires Valid() && l < MAX_LOCATE && books[l] != null
      modifies this`st, books[l], pool, pool.storage, index, index.nodes, index.buckets, index.bucketLen
      ensures Valid() && st == AfterWalk(old(st), l, order)
      ensures taker == WalkIn(old(st), l, order).taker
      ensures out == Trades(l, order.side, WalkIn(old(st), l, order).fills)
      ensures index.Value() == Dropped(old(index.Value()), WalkIn(old(st), l, order).fills)
    {
      hide MemOk, PoolOk, OrdersOf, OthersSame, IndexSound, UniqueIds, Proper, OrderBook.Valid, OrderMap.Valid,
           Ring, Walk, Gone, Trades, Dropped;
      BookValid(l);
      DistinctBooks(l);
      taker, out := Match(books[l], l, order);
      st := AfterWalk(st, l, order);
      Retie(l);
      TieBook(l);
    }
  
    /** An id that no abstract book holds is in no resting slot. */
    lemma FreshSlots(l: nat, id: u64)
      requires Valid() && FreshRef(st, id) && l < MAX_LOCATE && books[l] != null
      ensures FreshId(books[l].M(), id)
    {
      hide MemOk, PoolOk, IndexSound, UniqueIds, OrderMap.Valid, OrdersOf, Ring;
      assert Tied(l);
      MemShape(books[l].M(), l, Buy);
      forall y | 0 <= y < |pool.owner| && pool.owner[y].Resting? ensures pool.storage[y].data.orderId != id {
        var l', side := pool.owner[y].locate, pool.owner[y].side;
        assert Tied(l');
        var k := RestingListed(books[l'].M(), l', y);
      }
    }

    /** Rest a record in book l: it goes to the top free slot, and no other slot's order changes. */
    method RestRecord(l: nat, order: Order) returns (ok: bool, ghost indexed: bool)
      requires Valid() && l < MAX_LOCATE && books[l] != null && FreshRef(st, order.data.orderId)
      modifies this`st, books[l], pool, pool.storage, index, index.nodes, index.buckets, index.bucketLen, index.states
      ensures Valid() && ok == CanRest(old(st), order.data)
      ensures st == if ok then Rest(old(st), l, order.data, indexed) else old(st)
      ensures !ok ==> P() == old(P())
      ensures ok ==>
                && old(pool.free) != [] && pool.free == old(pool.free)[1..]
                && OnlyAt(old(P()), P(), old(pool.free)[0]) && pool.storage[old(pool.free)[0]].data == order.data
      ensures ok && old(index.NoTrees()) && index.nodes.Length >= pool.storage.Length ==> indexed
      ensures indexed == (ok && Accepts(old(index.Value()), order.data.orderId))
      ensures index.Value() == if ok then Bind(old(index.Value()), order.data.orderId) else old(index.Value())
    {
      hide MemOk, PoolOk, OrdersOf, OthersSame, IndexSound, UniqueIds, Proper, FreshId, OrderBook.Valid, OrderMap.Valid,
           Ring, Insert, FreshRef, OrderMap.NoTrees, Accepts, Bind;
      BookValid(l);
      DistinctBooks(l);
      FreshSlots(l, order.data.orderId);
      ok, indexed := books[l].AddOrder(order);
      if ok {
        st := Rest(st, l, order.data, indexed);
      }
      Retie(l);
      TieBook(l);
    }

    /** Rest an order in book l. */
    method RestIn(l: nat, order: OrderData) returns (ok: bool, ghost indexed: bool)
      requires Valid() && l < MAX_LOCATE && books[l] != null && FreshRef(st, order.orderId)
      modifies this`st, books[l], pool, pool.storage, index, index.nodes, index.buckets, index.bucketLen, index.states
      ensures Valid() && ok == CanRest(old(st), order)
      ensures st == if ok then Rest(old(st), l, order, indexed) else old(st)
      ensures ok && old(index.NoTrees()) && index.nodes.Length >= pool.storage.Length ==> indexed
      ensures indexed == (ok && Accepts(old(index.Value()), order.orderId))
      ensures index.Value() == if ok then Bind(old(index.Value()), order.orderId) else old(index.Value())
    {
      hide Valid, FreshRef, OnlyAt, OrderMap.NoTrees, CanRest, Accepts, Bind;
      ok, indexed := RestRecord(l, Order(order, NIL, NIL, NIL));
    }

    /** Remove the order in slot x, at position k of one half of book l. */
    method RemoveIn(l: nat, x: u32, ghost id: u64)
      requires Valid() && l < MAX_LOCATE && books[l] != null && Found(st, l, id)
      requires var (side, k) := Locate(st.books[l], id); k < |books[l].Queue(side)| && books[l].Queue(side)[k] == x
      modifies this`st, books[l], pool, pool.storage, index, index.nodes, index.buckets, index.bucketLen
      ensures Valid() && st == Remove(old(st), l, id) && index.Value() == Unbind(old(index.Value()), id)
    {
      hide MemOk, PoolOk, OrdersOf, OthersSame, IndexSound, UniqueIds, Proper, OrderBook.Valid, OrderMap.Valid,
           Ring, RemoveAt, Unbind;
      BookValid(l);
      DistinctBooks(l);
      LocateIs(st.books[l], id);
      ghost var (side, k) := Locate(st.books[l], id);
      books[l].RemoveOrder(x, side, k);
      st := Remove(st, l, id);
      Retie(l);
      TieBook(l);
    }

    /** Reduce the order in slot x by a partial cancel. */
    method ShrinkIn(l: nat, x: u32, amount: u32, ghost id: u64)
      requires Valid() && l < MAX_LOCATE && books[l] != null && Found(st, l, id)
      requires var (side, k) := Locate(st.books[l], id); k < |books[l].Queue(side)| && books[l].Queue(side)[k] == x
      requires amount <= OrderIn(st.books[l], id).remainingQty
      modifies this`st, books[l], pool.storage
      ensures Valid()
      ensures st == old(st).(books := old(st).books[l :=
                Replaced(old(st).books[l], id, Shrunk(OrderIn(old(st).books[l], id), amount))])
    {
      hide MemOk, PoolOk, OrdersOf, OthersSame, IndexSound, UniqueIds, Proper, OrderBook.Valid, OrderMap.Valid, Ring;
      BookValid(l);
      DistinctBooks(l);
      ghost var (side, k) := Locate(st.books[l], id);
      SlotOf(books[l], side, k);
      books[l].ReduceQtyCancel(x, amount, side, k);
      st := st.(books := st.books[l := Replaced(st.books[l], id, Shrunk(OrderIn(st.books[l], id), amount))]);
      Retie(l);
      TieBook(l);
    }
  
    /** The log grew by exactly these entries (when there is a log). */
    twostate predicate Logged(entries: seq<WalEntry>)
      reads wal
    {
      wal != null ==> wal.log == old(wal.log) + entries
    }

    method Log(e: WalEntry)
      requires Valid()
      modifies if wal != null then {wal, wal.base} else {}
      ensures Valid() && Logged([e])
    {
      hide MemOk, PoolOk, OrdersOf, IndexSound, UniqueIds, Proper, OrderMap.Valid, Ring;
      if wal != null {
        wal.Append(e);
        forall l | 0 <= l < MAX_LOCATE ensures Tied(l) {
          assert old(Tied(l));
        }
      }
    }

    method NextSequence() returns (seqNo: u64)
      requires Valid()
      modifies this`nextSeq, this`st
      ensures Valid() && seqNo == old(st).nextSeq
      ensures st == old(st).(nextSeq := Wrap64(old(st).nextSeq + 1))
    {
      hide MemOk, PoolOk, OrdersOf, IndexSound, UniqueIds, Proper, OrderMap.Valid, Ring;
      seqNo := nextSeq;
      nextSeq := Wrap64(nextSeq + 1);
      st := st.(nextSeq := nextSeq);
      forall l | 0 <= l < MAX_LOCATE ensures Tied(l) {
        assert old(Tied(l));
      }
    }

    /** The index answered a command, and changed, as its value says. */
    twostate predicate Filed(c: Command, ins: bool)
      requires |old(st).books| == MAX_LOCATE
      reads this, index, index.bucketLen, index.states
    {
      && ins == InsertAnswer(old(st), old(index.Value()), c)
      && index.Value() == IndexAfter(old(st), old(index.Value()), c)
    }

    /** Match a new order, then answer and settle it by its time in force. */
    method ExecuteIn(l: nat, order: OrderData, tif: Tif) returns (out: seq<Response>, ghost ins: bool)
      requires Valid() && l < MAX_LOCATE && books[l] != null && FreshRef(st, order.orderId)
      modifies this`st, books[l], pool, pool.storage, index, index.nodes, index.buckets, index.bucketLen, index.states
      ensures Valid()
      ensures st == Execute(old(st), l, order, tif, ins).state
      ensures out == Execute(old(st), l, order, tif, ins).out
      ensures old(index.NoTrees()) && index.nodes.Length >= pool.storage.Length ==> ins
      ensures ins == TakerAccepted(old(st), old(index.Value()), l, order, tif)
      ensures index.Value() == ExecuteIndex(old(st), old(index.Value()), l, order, tif)
    {
      hide Tied, Shared, NoStray, Counters, WalOk, FreshRef, AfterWalk, WalkIn, Rest, Trades, OrderMap.NoTrees,
           Accepts, Bind, Dropped;
      WalkKeepsId(st, l, order);
      FreshAfterWalk(st, l, order, order.orderId);
      var taker, trades := MatchIn(l, order);
      ins := TakerAccepted(old(st), old(index.Value()), l, order, tif);
      if taker.status == Filled {
        out := trades + [RspFilled(order.orderId)];
      } else if tif == Ioc {
        out := trades + if taker.filledQty == 0 then [RspError(MktNoLiquidity)] else [];
      } else if tif == Fok {
        out := trades + if taker.filledQty < taker.originalQty then [RspError(FokNoFullFill)] else [];
      } else {
        var ok, _ := RestIn(l, taker);
        out := trades + if ok then [RspOk(order.orderId)] else [RspError(PoolFull)];
      }
    }
  
    /** canFullFill: the 32-bit reachable volume covers the quantity. */
    method CanFullFill(l: nat, side: Side, price: u32, qty: u32) returns (ok: bool)
      requires Valid() && l < MAX_LOCATE && books[l] != null
      ensures ok == (ReachQty(side, price, Half2(st.books[l], Opposite(side))) % TWO32 >= qty)
    {
      hide MemOk, PoolOk, OrdersOf, IndexSound, UniqueIds, Proper, OrderMap.Valid, Ring, OrderBook.Valid, ReachQty;
      BookValid(l);
      ValidSound(books[l]);
      var total := books[l].AvailableQty(side, price);
      ok := total >= qty;
    }

    /** The accepted part of an add: take a sequence number, log, match, settle. */
    method AcceptAdd(l: nat, ref: u64, side: Side, limit: u32, qty: u32, user: u64, tif: Tif)
      returns (out: seq<Response>, ghost ins: bool)
      requires Valid() && l < MAX_LOCATE && books[l] != null && FreshRef(st, ref)
      modifies this`nextSeq, this`st, books[l], pool, pool.storage
      modifies index, index.nodes, index.buckets, index.bucketLen, index.states
      modifies if wal != null then {wal, wal.base} else {}
      ensures Valid()
      ensures var r := Accept(old(st), l, ref, side, limit, qty, user, tif, ins);
        st == r.state && out == r.out && Logged(r.log)
      ensures old(index.NoTrees()) && index.nodes.Length >= pool.storage.Length ==> ins
      ensures var order := NewOrder(user, ref, side, limit, qty, old(st).nextSeq);
        && ins == TakerAccepted(old(st), old(index.Value()), l, order, tif)
        && index.Value() == ExecuteIndex(old(st), old(index.Value()), l, order, tif)
    {
      hide Tied, Shared, NoStray, WalOk, FreshRef, Execute, OrderMap.NoTrees, TakerAccepted, ExecuteIndex;
      var seqNo := NextSequence();
      var order := NewOrder(user, ref, side, limit, qty, seqNo);
      FreshSame(old(st), st, ref);
      ExecuteIndexAgrees(old(st), st, index.Value(), l, order, tif);
      Log(WalEntry(1, if side == Buy then 1 else 2, l, order.price, qty, user, ref, nextSeq));
      out, ins := ExecuteIn(l, order, tif);
    }

    /** The checks of an add, in the order the source makes them. */
    method CheckAdd(l: nat, ref: u64, side: Side, price: u32, limit: u32, qty: u32, user: u64, tif: Tif)
      returns (refused: Option<ErrorCode>)
      requires Valid() && (l < MAX_LOCATE ==> books[l] != null) && limit == LimitOf(side, price, tif)
      ensures refused == Refusal(st, l, ref, side, price, qty, user, tif)
    {
      hide Tied, Shared, NoStray, Counters, WalOk, ReachQty, LimitOf;
      if l >= MAX_LOCATE {
        return Some(InvalidCommandType);
      }
      if side == Invalid {
        return Some(InvalidSide);
      }
      if (!IsMarket(price, tif) && price == 0) || qty == 0 || user == 0 || ref == 0 {
        return Some(InvalidPriceQtyUser);
      }
      if tif == Fok {
        var enough := CanFullFill(l, side, limit, qty);
        if !enough {
          return Some(FokNoFullFill);
        }
      }
      return None;
    }

    /** A / F: add an order. */
    method ProcessAdd(locate: nat, ref: u64, side: Side, price: u32, qty: u32, user: u64, tif: Tif)
      returns (out: seq<Response>, ghost ins: bool)
      requires Valid() && FreshRef(st, ref)
      modifies Footprint()
      ensures Valid() && fresh(Footprint() - old(Footprint()))
      ensures var r := Add(old(st), locate, ref, side, price, qty, user, tif, ins);
        st == r.state && out == r.out && Logged(r.log)
      ensures old(index.NoTrees()) && index.nodes.Length >= pool.storage.Length ==> ins
      ensures var c := CmdAdd(locate, ref, side, price, qty, user, tif); Filed(c, ins)
    {
      hide Tied, Shared, NoStray, Counters, WalOk, FreshRef, Accept, Refusal, OrderMap.NoTrees, TakerAccepted, ExecuteIndex;
      var book := BookFor(locate);
      var limit := LimitOf(side, price, tif);
      var refused := CheckAdd(locate, ref, side, price, limit, qty, user, tif);
      if refused.Some? {
        return [RspError(refused.value)], true;
      }
      RefusalInRange(st, locate, ref, side, price, qty, user, tif);
      out, ins := AcceptAdd(locate, ref, side, limit, qty, user, tif);
    }
  
    /** Slot x holds the order that id names in book l. */
    ghost predicate At(l: nat, id: u64, x: u32)
      reads this, books, books[..], pool, pool.storage
    {
      && l < books.Length && books[l] != null && Found(st, l, id)
      && var (side, k) := Locate(st.books[l], id);
         && k < |books[l].Queue(side)| && books[l].Queue(side)[k] == x
         && x < pool.storage.Length && pool.storage[x].data == OrderIn(st.books[l], id)
    }

    /** The index entry of an id of book l is its slot. */
    lemma IndexedAt(l: nat, id: u64)
      requires Valid() && l < MAX_LOCATE && books[l] != null && Found(st, l, id)
      ensures id in index.m && At(l, id, index.m[id])
    {
      hide MemOk, PoolOk, IndexSound, UniqueIds, Proper, OrderMap.Valid, OrdersOf, Ring;
      BookValid(l);
      var (side, k) := Locate(st.books[l], id);
      IndexedSlot(books[l].M(), l, index.m, id, side, k);
      OrderInSlot(books[l].M(), l, side, k);
    }

    /** findOrder followed by the owner check that every cancel and replace makes. */
    method FindOwned(l: nat, id: u64, user: u64) returns (r: Option<u32>)
      requires Valid() && l < MAX_LOCATE && books[l] != null && OwnLocate(st, l, id)
      ensures r.Some? <==> Found(st, l, id) && OrderIn(st.books[l], id).userId == user
      ensures r.Some? ==> At(l, id, r.value)
    {
      hide Tied, NoStray, WalOk, PoolOk, IndexSound, UniqueIds, Proper, OrderMap.Valid, Locate;
      if Found(st, l, id) {
        IndexedAt(l, id);
      }
      r := index.Find(id);
      if r.Some? && pool.storage[r.value].data.userId != user {
        r := None;
      }
    }

    /** A cancel in a book that exists. */
    method CancelIn(l: nat, ref: u64, user: u64) returns (out: seq<Response>)
      requires Valid() && l < MAX_LOCATE && books[l] != null && OwnLocate(st, l, ref)
      modifies this`st, books[l], pool, pool.storage, index, index.nodes, index.buckets, index.bucketLen
      modifies if wal != null then {wal, wal.base} else {}
      ensures Valid()
      ensures var r := Cancel(old(st), l, ref, user); st == r.state && out == r.out && Logged(r.log)
      ensures Filed(CmdCancel(l, ref, user), true)
    {
      hide Tied, Shared, NoStray, WalOk, OwnLocate, Found, Remove, OrderIn, Locate, Counters, Unbind;
      SlotCount();
      Log(WalEntry(2, 0, l, 0, 0, user, ref, nextSeq));
      var x := FindOwned(l, ref, user);
      if x.Some? {
        RemoveIn(l, x.value, ref);
        return [RspCancelled(ref)];
      }
      return [RspError(OrderNotFound)];
    }

    /** D: cancel an order. */
    method ProcessCancel(locate: nat, ref: u64, user: u64) returns (out: seq<Response>)
      requires Valid() && OwnLocate(st, locate, ref)
      modifies Footprint()
      ensures Valid() && fresh(Footprint() - old(Footprint()))
      ensures var r := Cancel(old(st), locate, ref, user); st == r.state && out == r.out && Logged(r.log)
      ensures Filed(CmdCancel(locate, ref, user), true)
    {
      hide Tied, Shared, NoStray, Counters, WalOk, OwnLocate, Found, Remove, OrderIn, InsertAnswer, IndexAfter;
      var book := BookFor(locate);
      if book == null {
        NoSuchLocate(st, index.Value(), CmdCancel(locate, ref, user));
        return [RspError(OrderNotFound)];
      }
      out := CancelIn(locate, ref, user);
    }
  
    /** A partial cancel in a book that exists. */
    method CancelSharesIn(l: nat, ref: u64, shares: u32, user: u64) returns (out: seq<Response>)
      requires Valid() && l < MAX_LOCATE && books[l] != null && OwnLocate(st, l, ref)
      modifies this`st, books[l], pool, pool.storage, index, index.nodes, index.buckets, index.bucketLen
      modifies if wal != null then {wal, wal.base} else {}
      ensures Valid()
      ensures var r := CancelShares(old(st), l, ref, shares, user); st == r.state && out == r.out && Logged(r.log)
      ensures Filed(CmdCancelShares(l, ref, shares, user), true)
    {
      hide Tied, Shared, NoStray, WalOk, OwnLocate, Found, Remove, OrderIn, Locate, Replaced, Counters, Unbind;
      SlotCount();
      Log(WalEntry(3, 0, l, 0, shares, user, ref, nextSeq));
      var x := FindOwned(l, ref, user);
      if x.None? {
        return [RspError(OrderNotFound)];
      }
      if shares >= pool.storage[x.value].data.remainingQty {
        RemoveIn(l, x.value, ref);
        return [RspCancelled(ref)];
      }
      ShrinkIn(l, x.value, shares, ref);
      return [RspOk(ref)];
    }

    /** X: cancel part of an order; at least the remainder cancels all of it. */
    method ProcessCancelShares(locate: nat, ref: u64, shares: u32, user: u64) returns (out: seq<Response>)
      requires Valid() && OwnLocate(st, locate, ref)
      modifies Footprint()
      ensures Valid() && fresh(Footprint() - old(Footprint()))
      ensures var r := CancelShares(old(st), locate, ref, shares, user); st == r.state && out == r.out && Logged(r.log)
      ensures Filed(CmdCancelShares(locate, ref, shares, user), true)
    {
      hide Tied, Shared, NoStray, Counters, WalOk, OwnLocate, Found, Remove, OrderIn, Replaced, InsertAnswer, IndexAfter;
      var book := BookFor(locate);
      if book == null {
        NoSuchLocate(st, index.Value(), CmdCancelShares(locate, ref, shares, user));
        return [RspError(OrderNotFound)];
      }
      out := CancelSharesIn(locate, ref, shares, user);
    }

    /** The accepted part of a replace: drop the old order, then run the new one under its new ref. */
    method AcceptReplace(l: nat, x: u32, oldRef: u64, newRef: u64, side: Side, price: u32, qty: u32)
      returns (out: seq<Response>, ghost ins: bool)
      requires Valid() && l < MAX_LOCATE && books[l] != null && At(l, oldRef, x) && ReplaceFresh(st, l, oldRef, newRef)
      modifies this`nextSeq, this`st, books[l], pool, pool.storage
      modifies index, index.nodes, index.buckets, index.bucketLen, index.states
      ensures Valid()
      ensures var r := ReplaceFound(old(st), l, oldRef, newRef, side, price, qty, ins); st == r.state && out == r.out
      ensures old(index.NoTrees()) && index.nodes.Length >= pool.storage.Length ==> ins
      ensures var st1, ix := Remove(old(st), l, oldRef), Unbind(old(index.Value()), oldRef);
        var order := ReplaceTaker(old(st), newRef, side, price, qty);
        ins == TakerAccepted(st1, ix, l, order, Day) && index.Value() == ExecuteIndex(st1, ix, l, order, Day)
    {
      hide Tied, Shared, NoStray, WalOk, FreshRef, Found, Execute, OrderMap.NoTrees, Locate, Without, Counters,
           TakerAccepted, ExecuteIndex, Unbind;
      RemoveIn(l, x, oldRef);
      ghost var st1 := st;
      var seqNo := NextSequence();
      ExecuteIndexAgrees(st1, st, index.Value(), l, ReplaceTaker(old(st), newRef, side, price, qty), Day);
      FreshSame(st1, st, newRef);
      out, ins := ExecuteIn(l, NewOrder(newRef, newRef, side, price, qty, seqNo), Day);
    }

    /** A replace in a book that exists: log, find the order and check its owner, then run the accepted part. */
    method ReplaceIn(l: nat, oldRef: u64, newRef: u64, side: Side, price: u32, qty: u32, user: u64)
      returns (out: seq<Response>, ghost ins: bool)
      requires Valid() && l < MAX_LOCATE && books[l] != null
      requires OwnLocate(st, l, oldRef) && ReplaceFresh(st, l, oldRef, newRef)
      modifies this`nextSeq, this`st, books[l], pool, pool.storage
      modifies index, index.nodes, index.buckets, index.bucketLen, index.states
      modifies if wal != null then {wal, wal.base} else {}
      ensures Valid()
      ensures var r := Replace(old(st), l, oldRef, newRef, side, price, qty, user, ins);
        st == r.state && out == r.out && Logged(r.log)
      ensures old(index.NoTrees()) && index.nodes.Length >= pool.storage.Length ==> ins
      ensures var c := CmdReplace(l, oldRef, newRef, side, price, qty, user); Filed(c, ins)
    {
      hide Tied, Shared, NoStray, WalOk, OwnLocate, Found, OrderIn, Locate, ReplaceFound, ReplaceFresh, OrderMap.NoTrees,
           Counters, TakerAccepted, ExecuteIndex, Unbind, Remove, InsertAnswer, IndexAfter;
      SlotCount();
      ReplaceIndex(st, index.Value(), l, oldRef, newRef, side, price, qty, user);
      Log(WalEntry(4, 0, l, price, qty, user, newRef, nextSeq));
      var x := FindOwned(l, oldRef, user);
      if x.None? {
        return [RspError(OrderNotFound)], true;
      }
      out, ins := AcceptReplace(l, x.value, oldRef, newRef, side, price, qty);
    }

    /** U: replace an order. The new order is owned by its own ref. */
    method ProcessReplace(locate: nat, oldRef: u64, newRef: u64, side: Side, price: u32, qty: u32, user: u64)
      returns (out: seq<Response>, ghost ins: bool)
      requires Valid() && OwnLocate(st, locate, oldRef) && ReplaceFresh(st, locate, oldRef, newRef)
      modifies Footprint()
      ensures Valid() && fresh(Footprint() - old(Footprint()))
      ensures var r := Replace(old(st), locate, oldRef, newRef, side, price, qty, user, ins);
        st == r.state && out == r.out && Logged(r.log)
      ensures old(index.NoTrees()) && index.nodes.Length >= pool.storage.Length ==> ins
      ensures var c := CmdReplace(locate, oldRef, newRef, side, price, qty, user); Filed(c, ins)
    {
      hide Tied, Shared, NoStray, Counters, WalOk, OwnLocate, Found, ReplaceFound, ReplaceFresh, OrderMap.NoTrees, IndexAfter,
           InsertAnswer;
      var book := BookFor(locate);
      if book == null {
        NoSuchLocate(st, index.Value(), CmdReplace(locate, oldRef, newRef, side, price, qty, user));
        return [RspError(OrderNotFound)], true;
      }
      out, ins := ReplaceIn(locate, oldRef, newRef, side, price, qty, user);
    }

    /** Q: the top of a book; a locate out of range or without a book reads as empty. */
    method GetBook(locate: nat) returns (out: Response)
      requires Valid()
      ensures out == RspBook(locate, if locate < MAX_LOCATE then Top(st.books[locate].bids, st.books[locate].asks)
                                     else TopOfBook(0, 0, 0, 0))
    {
      hide MemOk, PoolOk, OrdersOf, IndexSound, UniqueIds, Proper, OrderMap.Valid, Ring, OrderBook.Valid;
      if locate >= MAX_LOCATE {
        return RspBook(locate, TopOfBook(0, 0, 0, 0));
      }
      assert Tied(locate);
      if books[locate] == null {
        return RspBook(locate, TopOfBook(0, 0, 0, 0));
      }
      BookValid(locate);
      ValidSound(books[locate]);
      var top := books[locate].GetTopOfBook();
      return RspBook(locate, top);
    }
  
    /** Move both counters past what an entry mentions. */
    method Count(seqSeen: u64, idSeen: u64)
      requires Valid()
      modifies this`nextSeq, this`nextId, this`st
      ensures Valid()
      ensures st == old(st).(nextSeq := Bump(old(st).nextSeq, seqSeen), nextId := Bump(old(st).nextId, idSeen))
    {
      hide MemOk, PoolOk, OrdersOf, IndexSound, UniqueIds, Proper, OrderMap.Valid, Ring;
      if seqSeen >= nextSeq {
        nextSeq := Wrap64(seqSeen + 1);
      }
      if idSeen >= nextId {
        nextId := Wrap64(idSeen + 1);
      }
      st := st.(nextSeq := nextSeq, nextId := nextId);
      forall l | 0 <= l < MAX_LOCATE ensures Tied(l) {
        assert old(Tied(l));
      }
    }

    /** findOrder without an owner check. */
    method FindAny(l: nat, id: u64) returns (r: Option<u32>)
      requires Valid() && l < MAX_LOCATE && books[l] != null && OwnLocate(st, l, id)
      ensures r.Some? <==> Found(st, l, id)
      ensures r.Some? ==> At(l, id, r.value)
    {
      hide Tied, NoStray, WalOk, PoolOk, IndexSound, UniqueIds, Proper, OrderMap.Valid, Locate;
      if Found(st, l, id) {
        IndexedAt(l, id);
      }
      r := index.Find(id);
    }

    /** The cancelling part of replay: entry kinds 2, 3 and 4. */
    method ReplayCancel(l: nat, e: WalEntry)
      requires Valid() && l < MAX_LOCATE && books[l] != null && l == e.locate && EntryPermitted(st, e)
      modifies this`st, books[l], pool, pool.storage, index, index.nodes, index.buckets, index.bucketLen
      ensures Valid() && (e.kind != 1 ==> Counted(st, e) == ReplayEntry(old(st), e, true))
      ensures index.Value() == if e.kind == 1 then old(index.Value()) else EntryIndex(old(st), old(index.Value()), e)
      ensures e.kind == 1 ==> st == old(st)
    {
      hide Tied, Shared, NoStray, WalOk, OwnLocate, Found, Remove, OrderIn, Locate, Replaced, Counters, Unbind;
      if e.kind == 2 || e.kind == 4 {
        var x := FindOwned(l, e.orderId, e.userId);
        if x.Some? {
          RemoveIn(l, x.value, e.orderId);
        }
      } else if e.kind == 3 {
        var x := FindAny(l, e.orderId);
        if x.Some? && e.quantity > 0 {
          if e.quantity >= pool.storage[x.value].data.remainingQty {
            RemoveIn(l, x.value, e.orderId);
          } else {
            ShrinkIn(l, x.value, e.quantity, e.orderId);
          }
        }
      }
    }
  
    /** A NEW entry whose id is unknown: match it and rest the remainder, answering nobody. */
    method ReplayNew(l: nat, e: WalEntry) returns (ghost ins: bool)
      requires Valid() && l < MAX_LOCATE && books[l] != null && l == e.locate && FreshRef(st, e.orderId)
      modifies this`st, this`nextSeq, this`nextId, books[l], pool, pool.storage
      modifies index, index.nodes, index.buckets, index.bucketLen, index.states
      ensures Valid() && st == Counted(Execute(old(st), l, EntryOrder(e), Day, ins).state, e)
      ensures ins == TakerAccepted(old(st), old(index.Value()), l, EntryOrder(e), Day)
      ensures index.Value() == ExecuteIndex(old(st), old(index.Value()), l, EntryOrder(e), Day)
    {
      hide Tied, Shared, NoStray, WalOk, FreshRef, Execute, Counters, TakerAccepted, ExecuteIndex;
      var order := NewOrder(e.userId, e.orderId, if e.side == 1 then Buy else Sell, e.price, e.quantity, e.walSeq);
      var out: seq<Response>;
      out, ins := ExecuteIn(l, order, Day);
      Count(e.walSeq, e.orderId);
    }

    /** The exchange as a value, together with its index. */
    ghost function W(): Whole
      reads this, index, index.bucketLen, index.states
    {
      Whole(st, index.Value())
    }

    /** The body of the replay loop. */
    method ReplayOne(e: WalEntry)
      requires Valid() && EntryPermitted(st, e)
      modifies Footprint()
      ensures Valid() && fresh(Footprint() - old(Footprint()))
      ensures W() == Redone(old(W()), e)
    {
      hide Tied, Shared, NoStray, WalOk, OwnLocate, FreshRef, Execute, Remove, Locate, Found, Replaced,
           TakerAccepted, ExecuteIndex, Unbind;
      var book := BookFor(e.locate);
      if e.kind == 1 {
        var known := Knows(e.orderId);
        if !known {
          ghost var ins := ReplayNew(e.locate, e);
        }
      } else {
        ReplayCancel(e.locate, e);
        Count(e.walSeq, e.orderId);
      }
    }

    /** Whether the index finds an id at all. */
    method Knows(id: u64) returns (known: bool)
      requires Valid()
      ensures known == (id in st.indexed)
    {
      hide Tied, NoStray, WalOk, PoolOk, IndexSound, UniqueIds, Proper, OrderMap.Valid;
      var r := index.Find(id);
      known := r.Some?;
    }

    /** recoverFromWal over the entries of the log file. */
    method RecoverFromWal(entries: seq<WalEntry>)
      requires Valid() && LogPermitted(W(), entries)
      modifies Footprint()
      ensures Valid() && fresh(Footprint() - old(Footprint()))
      ensures W() == Replayed(old(W()), entries)
    {
      hide Tied, Shared, NoStray, Counters, WalOk, Redone, EntryPermitted, LogPermitted, Replaying;
      var i := 0;
      ReplayingStarts(W(), entries);
      while i < |entries|
        invariant 0 <= i <= |entries|
        invariant Valid() && fresh(Footprint() - old(Footprint()))
        invariant Replaying(old(W()), W(), entries, i)
      {
        ReplayingNext(old(W()), W(), entries, i);
        ReplayOne(entries[i]);
        i := i + 1;
      }
      ReplayingEnds(old(W()), W(), entries);
    }

    /**
      An engine started empty over the log file of a history rebuilds that history's books and index. The history may be
      of any length that fits the file and its inserts may have been refused: all that is asked is that pool and index
      start as they did for the history.
     */
    method RestartFromLog(file: seq<WalEntry>, ghost cmds: seq<Command>)
      requires Valid() && st == Opening(st.free) && History(W(), cmds)
      requires |LogOf(W(), cmds)| <= |file| == WAL_ENTRIES && Ring(file, LogOf(W(), cmds))
      modifies Footprint()
      ensures Valid() && fresh(Footprint() - old(Footprint()))
      ensures var live := AfterAll(old(W()), cmds); Same(live.state, st) && index.Value() == live.index
      ensures SeqUpTo(st, st.nextSeq)
      ensures (forall i :: 0 <= i < |file| ==> file[i].orderId < st.nextId) <==>
              (forall i :: 0 <= i < |file| ==> file[i].orderId != 0xFFFF_FFFF_FFFF_FFFF)
    {
      hide Valid, History, LogOf, AfterAll, Same, SeqUpTo, Ring, LogPermitted, Replayed, IdsUnder;
      ghost var free, ix := st.free, index.Value();
      OpeningIds(free);
      ReplayIds(W(), file);
      FilePermitted(free, ix, cmds, file);
      RecoverFromWal(file);
      WalRebuilds(free, ix, cmds, file);
    }

    /** What every slot holds, links aside. */
    ghost function Records(): (r: seq<OrderData>)
      reads pool, pool.storage
      ensures |r| == pool.storage.Length
    {
      seq(pool.storage.Length, i requires 0 <= i < pool.storage.Length reads pool, pool.storage => pool.storage[i].data)
    }

    /** Every order of every book lies in some slot. */
    lemma RestingRecorded(l: nat, side: Side, i: nat)
      requires Valid() && l < MAX_LOCATE && side != Invalid && i < |Half2(st.books[l], side)|
      ensures Half2(st.books[l], side)[i] in Records()
    {
      hide MemOk, PoolOk, IndexSound, UniqueIds, Proper, OrderMap.Valid, Ring, OrderBook.Valid;
      assert Tied(l);
      if books[l] != null {
        BookValid(l);
        OrderInSlot(books[l].M(), l, side, i);
        var x := books[l].Queue(side)[i];
        assert Records()[x] == pool.storage[x].data;
      }
    }

    /**
      So recovery from the slot array finds every order that rests now: after a run from an empty exchange with no replace
      to ref 0 that rests, each is in the rebuilt half of its side.
     */
    lemma RestingSurvives(free: nat, inputs: seq<Input>, l: nat, side: Side, i: nat)
      requires Valid() && NoRefZero(Opening(free), inputs) && st == After(Opening(free), inputs)
      requires l < MAX_LOCATE && side != Invalid && i < |Half2(st.books[l], side)|
      ensures Half2(st.books[l], side)[i] in Half2(Rebuilt(Records())[0], side)
    {
      hide Valid, NoRefZero, After, Rebuilt, Records;
      RestingRecorded(l, side, i);
      RestingIsKept(free, inputs, l, side, i, Records());
    }

    /** All slots free, no book: a fresh start over the same array. */
    method ResetPool()
      requires Attached() && 0 < pool.storage.Length <= NIL
      modifies this`st, pool, pool.storage
      ensures Valid() && pool.free == FreeFrom(0, pool.storage.Length) && Records() == old(Records())
      ensures st == Opening(pool.storage.Length).(nextSeq := nextSeq, nextId := nextId)
      ensures forall l :: 0 <= l < MAX_LOCATE ==> books[l] == null
    {
      hide PoolOk, OrderMap.Valid, Ring, MemOk;
      pool.RebuildFreelist();
      st := Opening(pool.storage.Length).(nextSeq := nextSeq, nextId := nextId);
      AllFree(P(), index.m);
      forall l | 0 <= l < MAX_LOCATE ensures Tied(l) {
        assert books[l] == null;
      }
    }

    /** Move the record of slot i to the top free slot k and rest it in book 0. */
    method RecoverSlot(i: nat, ghost k: nat)
      requires Valid() && books[0] != null && k <= i < pool.storage.Length
      requires pool.free == FreeFrom(k, pool.storage.Length)
      requires FreshRef(st, pool.storage[i].data.orderId)
      modifies this`st, this`nextSeq, this`nextId, books[0], pool, pool.storage
      modifies index, index.nodes, index.buckets, index.bucketLen, index.states
      ensures var o := old(pool.storage[i].data);
        && Valid()
        && st.books == (if o.side == Invalid then old(st).books else Rest(old(st), 0, o, false).books)
        && st.nextSeq == Bump(old(st).nextSeq, o.sequence) && st.nextId == Bump(old(st).nextId, o.orderId)
        && pool.free == FreeFrom(if o.side == Invalid then k else k + 1, pool.storage.Length)
        && Records() == (if o.side == Invalid then old(Records()) else old(Records())[k := o])
        && index.Value() == if o.side == Invalid then old(index.Value()) else Bind(old(index.Value()), o.orderId)
    {
      hide Valid, FreshRef, OrderMap.NoTrees, Insert, Bind, Accepts;
      var o := pool.storage[i];
      ghost var was := P();
      assert st.free == |pool.free| by { SlotCount(); }
      var ok, _ := RestRecord(0, o.(prevIdx := NIL, nextIdx := NIL));
      assert ok ==> was.free[0] == k;
      Count(pool.storage[i].data.sequence, pool.storage[i].data.orderId);
    }

    lemma SlotCount()
      requires Valid()
      ensures st.free == |pool.free| && |st.books| == MAX_LOCATE && st.nextSeq == nextSeq && st.indexed == index.Value().keys
    {
    }

    /** Deal with the record in slot i. */
    method RecoverNext(i: nat, ghost records: seq<OrderData>, ghost s0: u64, ghost i0: u64, ghost ix0: Index)
      requires Valid() && books[0] != null && i < pool.storage.Length == |records| && DistinctRecords(records)
      requires Scanned(records, i, Records(), st, pool.free, s0, i0)
      requires index.Value() == BindAll(ix0, Accepted(records[..i]))
      modifies this`st, this`nextSeq, this`nextId, books[0], pool, pool.storage
      modifies index, index.nodes, index.buckets, index.bucketLen, index.states
      ensures Valid() && Scanned(records, i + 1, Records(), st, pool.free, s0, i0)
      ensures index.Value() == BindAll(ix0, Accepted(records[..i + 1]))
    {
      hide Valid, Scanned, FreshRef, DistinctRecords, Rebuilt, Accepted, Recoverable, Insert, BindAll, Bind;
      ghost var now, before, free := Records(), st, pool.free;
      ScanAt(records, i, now, before, free, s0, i0);
      AcceptedBinds(records, i, ix0);
      if Recoverable(pool.storage[i].data) {
        NextRecordFresh(records, i, st);
        RecoverSlot(i, |Accepted(records[..i])|);
      }
      ScanNext(records, i, now, before, free, Records(), st, pool.free, s0, i0);
    }

    /** The scan over all slots. */
    method RecoverAll(ghost records: seq<OrderData>, ghost s0: u64, ghost i0: u64)
      requires Valid() && books[0] != null && pool.storage.Length == |records| && DistinctRecords(records)
      requires Scanned(records, 0, Records(), st, pool.free, s0, i0)
      modifies this`st, this`nextSeq, this`nextId, books[0], pool, pool.storage
      modifies index, index.nodes, index.buckets, index.bucketLen, index.states
      ensures Valid() && Recovered(records, Records(), st, pool.free, s0, i0)
      ensures index.Value() == BindAll(old(index.Value()), Accepted(records))
    {
      hide Shared, NoStray, Counters, WalOk, Tied, Scanned, DistinctRecords, Recovered, Records, Bind;
      var i := 0;
      assert records[..0] == [];
      while i < pool.storage.Length
        invariant 0 <= i <= pool.storage.Length
        invariant Valid() && books[0] == old(books[0]) && Scanned(records, i, Records(), st, pool.free, s0, i0)
        invariant index.Value() == BindAll(old(index.Value()), Accepted(records[..i]))
      {
        RecoverNext(i, records, s0, i0, old(index.Value()));
        i := i + 1;
      }
      assert records[..i] == records;
      ScanEnds(records, Records(), st, pool.free, s0, i0);
    }

    /**
      Rebuild book 0 from the slot array, compacting it in place: the k-th record kept moves to slot k, never past the
      scan, so no record is overwritten before it is read.
     */
    method RecoverFromShared()
      requires Attached() && 0 < pool.storage.Length <= NIL && DistinctRecords(Records())
      modifies Footprint()
      ensures Valid() && fresh(Footprint() - old(Footprint()))
      ensures Recovered(old(Records()), Records(), st, pool.free, old(nextSeq), old(nextId))
      ensures index.Value() == BindAll(old(index.Value()), Accepted(old(Records()))) && st.indexed == index.Value().keys
    {
      hide Valid, WalOk, Apart, OrderMap.Valid, Scanned, DistinctRecords, Recovered, Records, BindAll, Accepted;
      ghost var records, s0, i0 := Records(), nextSeq, nextId;
      ResetPool();
      ScanStarts(records, st, pool.free, s0, i0);
      var book := BookFor(0);
      assert book in Footprint();
      RecoverAll(records, s0, i0);
      SlotCount();
    }

    /** Rest a snapshot stream in book 0, and find the largest sequence and id in it. */
    method LoadStream(stream: seq<Order>) returns (maxSeq: u64, maxId: u64)
      requires Valid() && books[0] != null && DistinctRefs(Datas(stream)) && AllFresh(st, Datas(stream))
      modifies this`st, books[0], pool, pool.storage, index, index.nodes, index.buckets, index.bucketLen, index.states
      ensures Valid() && LoadedUpTo(old(st), st, Datas(stream), |stream|)
      ensures index.Value() == BindAll(old(index.Value()), Rested(old(st).free, Datas(stream)))
      ensures maxSeq == MaxSeq(Datas(stream)) && maxId == MaxId(Datas(stream))
    {
      hide Shared, NoStray, Counters, WalOk, Tied, DistinctRefs, AllFresh, LoadedUpTo, FreshRef, OnlyAt, Insert,
           OrderMap.NoTrees, Datas, Bind, Accepts;
      ghost var os := Datas(stream);
      maxSeq, maxId := 0, 0;
      LoadStarts(st, os);
      assert os[..0] == [];
      var i := 0;
      while i < |stream|
        invariant 0 <= i <= |stream|
        invariant Valid() && books[0] == old(books[0]) && LoadedUpTo(old(st), st, os, i)
        invariant maxSeq == MaxSeq(os[..i]) && maxId == MaxId(os[..i])
        invariant index.Value() == BindAll(old(index.Value()), Rested(old(st).free, os[..i]))
      {
        ghost var before := st;
        RestedBinds(old(st), st, os, i, old(index.Value()));
        DatasAt(stream, i);
        LoadFresh(old(st), st, os, i);
        PrefixStep(os, i);
        if stream[i].data.sequence > maxSeq {
          maxSeq := stream[i].data.sequence;
        }
        if stream[i].data.orderId > maxId {
          maxId := stream[i].data.orderId;
        }
        var _, ins := RestRecord(0, stream[i].(prevIdx := NIL, nextIdx := NIL, poolNextFree := NIL));
        LoadNext(old(st), before, st, os, i, ins);
        i := i + 1;
      }
      assert os[..i] == os;
    }

    /** loadSnapshot over an already opened stream. */
    method LoadSnapshot(stream: seq<Order>)
      requires Valid() && DistinctRefs(Datas(stream)) && AllFresh(st, Datas(stream))
      modifies Footprint()
      ensures Valid() && fresh(Footprint() - old(Footprint()))
      ensures var (b, f), os := Loaded(old(st).books[0], old(st).free, Datas(stream)), Datas(stream);
        && st.books == old(st).books[0 := b] && st.free == f
        && st.nextSeq == (if MaxSeq(os) > 0 then Wrap64(MaxSeq(os) + 1) else old(st).nextSeq)
        && st.nextId == (if MaxId(os) > 0 then Wrap64(MaxId(os) + 1) else old(st).nextId)
        && index.Value() == BindAll(old(index.Value()), Rested(old(st).free, os)) && st.indexed == index.Value().keys
    {
      hide BindAll, Rested, Shared, NoStray, WalOk, Tied, DistinctRefs, AllFresh, Loaded, MaxSeq, MaxId;
      var book := BookFor(0);
      assert book in Footprint();
      var maxSeq, maxId := LoadStream(stream);
      assert Datas(stream)[..|stream|] == Datas(stream);
      Resume(maxSeq, maxId);
    }

    /** Restart the counters after the largest values loaded. */
    method Resume(maxSeq: u64, maxId: u64)
      requires Valid()
      modifies this`nextSeq, this`nextId, this`st
      ensures Valid()
      ensures st == old(st).(nextSeq := if maxSeq > 0 then Wrap64(maxSeq + 1) else old(st).nextSeq,
                             nextId := if maxId > 0 then Wrap64(maxId + 1) else old(st).nextId)
    {
      hide MemOk, PoolOk, OrdersOf, IndexSound, UniqueIds, Proper, OrderMap.Valid, Ring;
      if maxSeq > 0 {
        nextSeq := Wrap64(maxSeq + 1);
      }
      if maxId > 0 {
        nextId := Wrap64(maxId + 1);
      }
      st := st.(nextSeq := nextSeq, nextId := nextId);
      forall l | 0 <= l < MAX_LOCATE ensures Tied(l) {
        assert old(Tied(l));
      }
    }
  }

  /**
    Starting the program after a crash: rebuild the free stack, make an index of the pool's size, and replay the log file.
    If the file is the log of a history that began the same way, of whatever length fits it and whatever its index
    refused, the books, the owners, the queues and the index are those the history ended with.
   */
  method ColdStart(pool: OrderPool, wal: WalWriter?, file: seq<WalEntry>, ghost cmds: seq<Command>)
    returns (engine: MatchingEngine)
    requires 2 <= pool.storage.Length <= 0x8000_0000 && (wal != null ==> wal.Valid())
    requires var w0 := Whole(Opening(pool.storage.Length), NewIndex(pool.storage.Length));
      History(w0, cmds) && |LogOf(w0, cmds)| <= |file| == WAL_ENTRIES && Ring(file, LogOf(w0, cmds))
    modifies pool, pool.storage, if wal != null then {wal, wal.base} else {}
    ensures engine.Valid() && fresh(engine.Footprint() - {pool, pool.storage} - if wal != null then {wal, wal.base} else {})
    ensures var live := AfterAll(Whole(Opening(pool.storage.Length), NewIndex(pool.storage.Length)), cmds);
      Same(live.state, engine.st) && engine.index.Value() == live.index
    ensures SeqUpTo(engine.st, engine.st.nextSeq)
  {
    hide MatchingEngine.Valid, OrderMap.Valid, History, LogOf, AfterAll, Same, SeqUpTo, Ring, NewIndex, PoolOk;
    pool.RebuildFreelist();
    var index := new OrderMap(pool.storage.Length);
    engine := new MatchingEngine(pool, index, wal);
    engine.RestartFromLog(file, cmds);
  }

  lemma AllFree(t: Mem, m: map<u64, u32>)
    requires PoolOk(t.s, t.owner, t.head, t.free) && m == map[]
    requires forall y :: 0 <= y < |t.owner| ==> t.owner[y].Free?
    ensures IndexSound(t, m) && UniqueIds(t) && Proper(t)
  {
  }

  /** Matching never changes who the taker is. */
  lemma WalkKeepsId(st: State, l: nat, taker: OrderData)
    requires l < |st.books|
    ensures SameTaker(taker, WalkIn(st, l, taker).taker)
  {
    WalkKeepsTaker(Half2(st.books[l], Opposite(taker.side)), taker);
  }
}
