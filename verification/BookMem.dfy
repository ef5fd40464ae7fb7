/**
  The memory one book works on, as a value: the shared slots with their owners and free stack, and the book's own
  level maps and queues. Each operation is a function on this value, with a lemma that it keeps the invariant.
 */
module BookMem {
  import opened Types
  import opened Matching
  import opened Chains
  import opened SideRep
  import opened SideUpdates
  import opened OrderPoolModel

  datatype Mem = Mem(
    s: seq<Order>, owner: seq<Owner>, head: u32, free: seq<nat>,
    bids: map<u32, PriceLevel>, asks: map<u32, PriceLevel>, bidQ: seq<nat>, askQ: seq<nat>)

  function LevelsOf(t: Mem, side: Side): map<u32, PriceLevel> {
    if side == Buy then t.bids else t.asks
  }

  ghost function QueueOf(t: Mem, side: Side): seq<nat> {
    if side == Buy then t.bidQ else t.askQ
  }

  ghost function WithSide(t: Mem, side: Side, levels: map<u32, PriceLevel>, Q: seq<nat>): Mem {
    if side == Buy then t.(bids := levels, bidQ := Q) else t.(asks := levels, askQ := Q)
  }

  /** One half of the book as orders in priority order. */
  ghost function OrdersOf(t: Mem, side: Side): seq<OrderData> {
    View(t.s, QueueOf(t, side))
  }

  ghost predicate HalfOk(t: Mem, locate: nat, side: Side) {
    SideOk(t.s, t.owner, Resting(locate, side), side, LevelsOf(t, side), QueueOf(t, side))
  }

  ghost predicate MemOk(t: Mem, locate: nat) {
    && PoolOk(t.s, t.owner, t.head, t.free)
    && HalfOk(t, locate, Buy)
    && HalfOk(t, locate, Sell)
  }

  /** Nothing that belongs to another locate's book changed. */
  ghost predicate OthersSame(t: Mem, t': Mem, locate: nat) {
    && |t'.s| == |t'.owner| == |t.s| == |t.owner|
    && (forall y: nat :: y < |t.s| && t.owner[y].Resting? && t.owner[y].locate != locate ==>
          t'.owner[y] == t.owner[y] && t'.s[y].(poolNextFree := NIL) == t.s[y].(poolNextFree := NIL))
    && (forall y: nat :: y < |t.s| && t'.owner[y].Resting? && t'.owner[y].locate != locate ==>
          t'.owner[y] == t.owner[y])
  }

  /** Orders and owners are unchanged in every slot but x. */
  ghost predicate OnlyAt(t: Mem, t': Mem, x: nat) {
    && |t'.s| == |t'.owner| == |t.s| == |t.owner| && x < |t.s|
    && forall y: nat :: y < |t.s| && y != x ==> t'.owner[y] == t.owner[y] && t'.s[y].data == t.s[y].data
  }

  lemma OnlyTrans(a: Mem, b: Mem, c: Mem, x: nat)
    requires OnlyAt(a, b, x) && OnlyAt(b, c, x)
    ensures OnlyAt(a, c, x)
  {
  }

  lemma OthersRefl(t: Mem, locate: nat)
    requires |t.owner| == |t.s|
    ensures OthersSame(t, t, locate)
  {
  }

  lemma OthersTrans(a: Mem, b: Mem, c: Mem, locate: nat)
    requires OthersSame(a, b, locate) && OthersSame(b, c, locate)
    ensures OthersSame(a, c, locate)
  {
  }

  lemma MemShape(t: Mem, locate: nat, side: Side)
    requires MemOk(t, locate) && side != Invalid
    ensures |t.owner| == |t.s| <= NIL && InRange(t.s, QueueOf(t, side)) && |OrdersOf(t, side)| == |QueueOf(t, side)|
    ensures HalfOk(t, locate, side) && HalfOk(t, locate, Opposite(side)) && PoolOk(t.s, t.owner, t.head, t.free)
  {
  }

  /** A resting slot of this book is somewhere in its queue. */
  lemma MemOwners(t: Mem, locate: nat, side: Side, x: nat) returns (k: nat)
    requires MemOk(t, locate) && side != Invalid && x < |t.s| && x < |t.owner| && t.owner[x] == Resting(locate, side)
    ensures k < |QueueOf(t, side)| && QueueOf(t, side)[k] == x
  {
    assert HalfOk(t, locate, side);
    k :| 0 <= k < |QueueOf(t, side)| && QueueOf(t, side)[k] == x;
  }

  /** Both halves survive a change to slots that are not theirs. */
  lemma HalvesFrame(t: Mem, t': Mem, locate: nat)
    requires HalfOk(t, locate, Buy) && HalfOk(t, locate, Sell)
    requires t'.bids == t.bids && t'.asks == t.asks && t'.bidQ == t.bidQ && t'.askQ == t.askQ
    requires |t'.s| == |t'.owner| == |t.s|
    requires |t.owner| == |t.s|
    requires forall y: nat :: y < |t.s| && (t.owner[y].Resting? || t'.owner[y].Resting?) ==>
               t'.owner[y] == t.owner[y] && t'.s[y].(poolNextFree := NIL) == t.s[y].(poolNextFree := NIL)
    ensures HalfOk(t', locate, Buy) && HalfOk(t', locate, Sell)
    ensures OrdersOf(t', Buy) == OrdersOf(t, Buy) && OrdersOf(t', Sell) == OrdersOf(t, Sell)
  {
    hide SideOk, View;
    SideFrame(t.s, t'.s, t.owner, t'.owner, Resting(locate, Buy), Buy, t.bids, t.bidQ);
    SideFrame(t.s, t'.s, t.owner, t'.owner, Resting(locate, Sell), Sell, t.asks, t.askQ);
  }

  // ── taking and giving back a slot ──

  ghost function TakeSlot(t: Mem): Mem
    requires t.head < |t.s| == |t.owner| && t.free != []
  {
    t.(head := t.s[t.head].poolNextFree, free := t.free[1..], owner := t.owner[t.head := Loose])
  }

  lemma TakeOk(t: Mem, locate: nat)
    requires MemOk(t, locate) && t.free != []
    ensures t.head < |t.s| == |t.owner| && t.head == t.free[0] && t.owner[t.head] == Free
    ensures var t' := TakeSlot(t);
      && MemOk(t', locate) && OthersSame(t, t', locate) && OnlyAt(t, t', t.head)
      && OrdersOf(t', Buy) == OrdersOf(t, Buy) && OrdersOf(t', Sell) == OrdersOf(t, Sell)
  {
    hide SideOk, PoolOk, View;
    MemShape(t, locate, Buy);
    PopFree(t.s, t.owner, t.head, t.free);
    HalvesFrame(t, TakeSlot(t), locate);
  }

  ghost function GiveSlot(t: Mem, x: nat): Mem
    requires x < |t.s| == |t.owner| && x <= NIL
  {
    t.(s := t.s[x := t.s[x].(poolNextFree := t.head)], head := x, free := [x] + t.free, owner := t.owner[x := Free])
  }

  lemma GiveOk(t: Mem, locate: nat, x: nat)
    requires MemOk(t, locate) && x < |t.s| && x < |t.owner| && t.owner[x] == Loose
    ensures |t.owner| == |t.s| <= NIL
    ensures var t' := GiveSlot(t, x);
      && MemOk(t', locate) && OthersSame(t, t', locate) && OnlyAt(t, t', x)
      && OrdersOf(t', Buy) == OrdersOf(t, Buy) && OrdersOf(t', Sell) == OrdersOf(t, Sell)
  {
    hide SideOk, PoolOk, View;
    MemShape(t, locate, Buy);
    PushFree(t.s, t.owner, t.head, t.free, x);
    HalvesFrame(t, GiveSlot(t, x), locate);
  }

  // ── linking ──

  ghost function LinkSlot(t: Mem, locate: nat, x: nat, order: Order): Mem
    requires x < |t.s| == |t.owner| && |t.s| <= NIL
    requires var l := LevelAt(LevelsOf(t, order.data.side), order.data.price);
             l.count < NIL && (l.count > 0 ==> l.tailIdx < |t.s|)
  {
    var side, p := order.data.side, order.data.price;
    var l, Q := LevelAt(LevelsOf(t, side), p), QueueOf(t, side);
    var k := RestPos(side, OrdersOf(t, side), p);
    WithSide(t.(s := AppendSlots(t.s, x, order, l), owner := t.owner[x := Resting(locate, side)]), side,
             LevelsOf(t, side)[p := AppendLevel(l, x, order.data)], if k <= |Q| then InsertAt(Q, k, x) else Q)
  }

  /** Writes to slots of one half, or to loose slots, leave the other half, the free stack and other books in place. */
  lemma TouchFrame(t: Mem, s': seq<Order>, owner': seq<Owner>, locate: nat, side: Side)
    requires side != Invalid && PoolOk(t.s, t.owner, t.head, t.free) && HalfOk(t, locate, Opposite(side))
    requires |s'| == |owner'| == |t.s| == |t.owner|
    requires forall y: nat :: y < |t.s| ==>
               || t.owner[y] == Resting(locate, side) || t.owner[y] == Loose
               || (owner'[y] == t.owner[y] && s'[y] == t.s[y])
    requires forall y: nat :: y < |t.s| && owner'[y] != t.owner[y] ==> owner'[y] == Loose || owner'[y] == Resting(locate, side)
    ensures var opp := Opposite(side);
      && SideOk(s', owner', Resting(locate, opp), opp, LevelsOf(t, opp), QueueOf(t, opp))
      && View(s', QueueOf(t, opp)) == View(t.s, QueueOf(t, opp))
    ensures PoolOk(s', owner', t.head, t.free)
    ensures OthersSame(t, t.(s := s', owner := owner'), locate)
  {
    hide SideOk, PoolOk, View;
    var opp := Opposite(side);
    SideFrame(t.s, s', t.owner, owner', Resting(locate, opp), opp, LevelsOf(t, opp), QueueOf(t, opp));
    PoolFrame(t.s, s', t.owner, owner', t.head, t.free);
  }

  lemma OthersFields(t: Mem, a: Mem, b: Mem, locate: nat)
    requires OthersSame(t, a, locate) && b.s == a.s && b.owner == a.owner
    ensures OthersSame(t, b, locate)
  {
  }

  /** A book from its halves. */
  lemma MemFrom(t: Mem, locate: nat, side: Side)
    requires side != Invalid && PoolOk(t.s, t.owner, t.head, t.free)
    requires HalfOk(t, locate, side) && HalfOk(t, locate, Opposite(side))
    ensures MemOk(t, locate)
  {
    hide SideOk, PoolOk;
  }

  lemma LinkOk(t: Mem, locate: nat, x: nat, order: Order)
    requires MemOk(t, locate) && x < |t.s| && x < |t.owner| && t.owner[x] == Loose
    requires order.data.side != Invalid
    ensures |t.owner| == |t.s| <= NIL
    ensures var l := LevelAt(LevelsOf(t, order.data.side), order.data.price);
      && l.count < NIL && (l.count > 0 ==> l.tailIdx < |t.s|)
      && var t' := LinkSlot(t, locate, x, order);
         && MemOk(t', locate) && OthersSame(t, t', locate)
         && OrdersOf(t', order.data.side) == Insert(OrdersOf(t, order.data.side), order.data)
         && OrdersOf(t', Opposite(order.data.side)) == OrdersOf(t, Opposite(order.data.side))
         && t'.s[x].data == order.data && OnlyAt(t, t', x)
  {
    hide SideOk, PoolOk, View, RestPos, Insert, InsertAt, InRange, MemOk, OthersSame;
    var side, p := order.data.side, order.data.price;
    MemShape(t, locate, side);
    var me, Q := Resting(locate, side), QueueOf(t, side);
    var l, owner' := LevelAt(LevelsOf(t, side), p), t.owner[x := me];
    var Q' := InsertAt(Q, RestPos(side, View(t.s, Q), p), x);
    SideInsert(t.s, t.owner, owner', me, side, LevelsOf(t, side), Q, x, order, Q');
    var s', t' := AppendSlots(t.s, x, order, l), LinkSlot(t, locate, x, order);
    TouchFrame(t, s', owner', locate, side);
    OthersFields(t, t.(s := s', owner := owner'), t', locate);
    MemFrom(t', locate, side);
  }

  // ── unlinking ──

  /** Slot x can be unlinked: its links and its level are in place. */
  ghost predicate CanUnlink(t: Mem, x: nat) {
    && x < |t.s| == |t.owner| && |t.s| <= NIL
    && (t.s[x].prevIdx == NIL || t.s[x].prevIdx < |t.s|)
    && (t.s[x].nextIdx == NIL || t.s[x].nextIdx < |t.s|)
    && t.s[x].data.price in LevelsOf(t, t.s[x].data.side)
    && LevelsOf(t, t.s[x].data.side)[t.s[x].data.price].count > 0
  }

  ghost function UnlinkSlot(t: Mem, x: nat, k: nat): Mem
    requires CanUnlink(t, x) && k < |QueueOf(t, t.s[x].data.side)|
  {
    var o := t.s[x];
    var side, p := o.data.side, o.data.price;
    var levels := LevelsOf(t, side);
    WithSide(t.(s := UnlinkSlots(t.s, x), owner := t.owner[x := Loose]), side,
             DropFrom(levels, p, UnlinkedLevel(levels[p], x, o)), RemoveAt(QueueOf(t, side), k))
  }

  lemma UnlinkOk(t: Mem, locate: nat, side: Side, k: nat)
    requires MemOk(t, locate) && side != Invalid && k < |QueueOf(t, side)|
    ensures var x := QueueOf(t, side)[k];
      && x < |t.s| && t.s[x].data.side == side && CanUnlink(t, x) && t.owner[x] == Resting(locate, side)
      && var t' := UnlinkSlot(t, x, k);
         && MemOk(t', locate) && OthersSame(t, t', locate) && t'.owner[x] == Loose
         && |OrdersOf(t, side)| == |QueueOf(t, side)|
         && OrdersOf(t', side) == RemoveAt(OrdersOf(t, side), k)
         && OrdersOf(t', Opposite(side)) == OrdersOf(t, Opposite(side))
         && t'.s[x].data == t.s[x].data && OnlyAt(t, t', x)
  {
    hide SideOk, PoolOk, View, RemoveAt, UnlinkSlots, InRange, MemOk, OthersSame, DropFrom, UnlinkedLevel;
    MemShape(t, locate, side);
    var Q, me := QueueOf(t, side), Resting(locate, side);
    var x := Q[k];
    SideOfSlot(t.s, t.owner, me, side, LevelsOf(t, side), Q, k);
    OwnerOfSlot(t, locate, side, k);
    SideRemove(t.s, t.owner, t.owner[x := Loose], me, side, LevelsOf(t, side), Q, k);
    var s', owner' := UnlinkSlots(t.s, x), t.owner[x := Loose];
    UnlinkTouchesHalf(t, locate, side, k);
    UnlinkSlotsAt(t.s, x);
    TouchFrame(t, s', owner', locate, side);
    var t' := UnlinkSlot(t, x, k);
    OthersFields(t, t.(s := s', owner := owner'), t', locate);
    MemFrom(t', locate, side);
  }

  lemma SideOfSlot(s: seq<Order>, owner: seq<Owner>, me: Owner, side: Side, levels: map<u32, PriceLevel>, Q: seq<nat>, k: nat)
    requires SideOk(s, owner, me, side, levels, Q) && k < |Q|
    ensures Q[k] < |s| && s[Q[k]].data.side == side
  {
    assert View(s, Q)[k] == s[Q[k]].data;
  }

  /** Unlinking writes only slots of its own half. */
  lemma UnlinkTouchesHalf(t: Mem, locate: nat, side: Side, k: nat)
    requires MemOk(t, locate) && side != Invalid && k < |QueueOf(t, side)|
    ensures var x := QueueOf(t, side)[k];
      && x < |t.s| == |t.owner|
      && (t.s[x].prevIdx == NIL || t.s[x].prevIdx < |t.s|)
      && (t.s[x].nextIdx == NIL || t.s[x].nextIdx < |t.s|)
      && forall y: nat :: y < |t.s| && t.owner[y] != Resting(locate, side) ==> UnlinkSlots(t.s, x)[y] == t.s[y]
  {
    hide Holds, NoDup, Half, Totals, Ends, Linked, UnlinkSlots, PoolOk;
    var Q := QueueOf(t, side);
    assert HalfOk(t, locate, side);
    HeldBy(t.owner, Q, Resting(locate, side));
    LinksInHalf(t.s, Q, k);
    var x := Q[k];
    var s' := UnlinkSlots(t.s, x);
    UnlinkSlotsAt(t.s, x);
    forall y: nat | y < |t.s| && t.owner[y] != Resting(locate, side) ensures s'[y] == t.s[y] {
      assert y != t.s[x].prevIdx && y != t.s[x].nextIdx;
    }
  }

  lemma OwnerOfSlot(t: Mem, locate: nat, side: Side, k: nat)
    requires MemOk(t, locate) && side != Invalid && k < |QueueOf(t, side)|
    ensures var x := QueueOf(t, side)[k]; x < |t.s| && x < |t.owner| && t.owner[x] == Resting(locate, side)
  {
    assert HalfOk(t, locate, side);
  }

  /** A slot is never its own predecessor. */
  lemma NotOwnPrev(t: Mem, locate: nat, side: Side, k: nat)
    requires MemOk(t, locate) && side != Invalid && k < |QueueOf(t, side)|
    ensures var x := QueueOf(t, side)[k]; x < |t.s| <= NIL && t.s[x].prevIdx != x
  {
    hide Holds, Half, Totals, Ends, Linked, PoolOk;
    assert HalfOk(t, locate, side);
    LinksInHalf(t.s, QueueOf(t, side), k);
  }

  lemma OrderInSlot(t: Mem, locate: nat, side: Side, k: nat)
    requires MemOk(t, locate) && side != Invalid && k < |QueueOf(t, side)|
    ensures QueueOf(t, side)[k] < |t.s| && |OrdersOf(t, side)| == |QueueOf(t, side)|
    ensures OrdersOf(t, side)[k] == t.s[QueueOf(t, side)[k]].data
    ensures t.s[QueueOf(t, side)[k]].data.side == side
  {
    assert HalfOk(t, locate, side);
    SideOfSlot(t.s, t.owner, Resting(locate, side), side, LevelsOf(t, side), QueueOf(t, side), k);
  }

  // ── reducing ──

  ghost function ReduceSlot(t: Mem, x: nat, d: OrderData): Mem
    requires x < |t.s| && d.price in LevelsOf(t, d.side)
  {
    var levels := LevelsOf(t, d.side);
    var total := Wrap32(levels[d.price].totalQty - (t.s[x].data.remainingQty - d.remainingQty));
    WithSide(t.(s := t.s[x := t.s[x].(data := d)]), d.side,
             levels[d.price := levels[d.price].(totalQty := total)], QueueOf(t, d.side))
  }

  lemma ReduceOk(t: Mem, locate: nat, side: Side, k: nat, d: OrderData)
    requires MemOk(t, locate) && side != Invalid && k < |QueueOf(t, side)|
    requires var x := QueueOf(t, side)[k];
      x < |t.s| && d.price == t.s[x].data.price && d.side == side && d.remainingQty <= t.s[x].data.remainingQty
    ensures d.price in LevelsOf(t, side)
    ensures var t' := ReduceSlot(t, QueueOf(t, side)[k], d);
      && MemOk(t', locate) && OthersSame(t, t', locate) && OnlyAt(t, t', QueueOf(t, side)[k])
      && |OrdersOf(t, side)| == |QueueOf(t, side)|
      && OrdersOf(t', side) == OrdersOf(t, side)[k := d]
      && OrdersOf(t', Opposite(side)) == OrdersOf(t, Opposite(side))
  {
    hide SideOk, PoolOk, View, InRange;
    MemShape(t, locate, side);
    var Q, opp := QueueOf(t, side), Opposite(side);
    var x := Q[k];
    OwnerOfSlot(t, locate, side, k);
    SideOfSlot(t.s, t.owner, Resting(locate, side), side, LevelsOf(t, side), Q, k);
    SideReduce(t.s, t.owner, Resting(locate, side), side, LevelsOf(t, side), Q, k, d);
    var s' := t.s[x := t.s[x].(data := d)];
    SideFrame(t.s, s', t.owner, t.owner, Resting(locate, opp), opp, LevelsOf(t, opp), QueueOf(t, opp));
    PoolFrame(t.s, s', t.owner, t.owner, t.head, t.free);
  }

  // ── ids and the index ──

  /** Every index entry points at a resting slot that carries its id. */
  ghost predicate IndexSound(t: Mem, m: map<u64, u32>) {
    && |t.owner| == |t.s|
    && forall id :: id in m ==> m[id] < |t.s| && t.owner[m[id]].Resting? && t.s[m[id]].data.orderId == id
  }

  /** Every resting slot's id is in the index. */
  ghost predicate IndexFull(t: Mem, m: map<u64, u32>) {
    && |t.owner| == |t.s|
    && forall x :: 0 <= x < |t.s| && t.owner[x].Resting? ==> t.s[x].data.orderId in m
  }

  /** No two resting slots carry the same id. */
  ghost predicate UniqueIds(t: Mem) {
    && |t.owner| == |t.s|
    && forall i, j :: 0 <= i < j < |t.s| && t.owner[i].Resting? && t.owner[j].Resting? ==>
         t.s[i].data.orderId != t.s[j].data.orderId
  }

  /** Between operations every slot is free or rests on a proper side. */
  ghost predicate Proper(t: Mem) {
    forall y :: 0 <= y < |t.owner| ==> t.owner[y].Free? || (t.owner[y].Resting? && t.owner[y].side != Invalid)
  }

  ghost predicate FreshId(t: Mem, id: u64) {
    && |t.owner| == |t.s|
    && forall i :: 0 <= i < |t.s| && t.owner[i].Resting? ==> t.s[i].data.orderId != id
  }

  /** Placing a fresh id in slot x keeps the index sound, whether or not the id gets indexed. */
  lemma SharedInsert(t: Mem, t': Mem, m: map<u64, u32>, x: u32, id: u64)
    requires OnlyAt(t, t', x) && IndexSound(t, m) && UniqueIds(t) && FreshId(t, id)
    requires !t.owner[x].Resting? && t'.owner[x].Resting? && t'.s[x].data.orderId == id
    ensures id !in m
    ensures UniqueIds(t') && IndexSound(t', m) && IndexSound(t', m[id := x])
    ensures IndexFull(t, m) ==> IndexFull(t', m[id := x])
  {
  }

  /** Removing a resting slot together with its id's entry keeps the index sound. */
  lemma SharedRemove(t: Mem, t': Mem, m: map<u64, u32>, x: nat)
    requires OnlyAt(t, t', x) && IndexSound(t, m) && UniqueIds(t)
    requires t.owner[x].Resting? && !t'.owner[x].Resting?
    ensures UniqueIds(t') && IndexSound(t', m - {t.s[x].data.orderId})
    ensures IndexFull(t, m) ==> IndexFull(t', m - {t.s[x].data.orderId})
  {
  }

  /** Rewriting an order in place under its own id keeps the index sound. */
  lemma SharedRewrite(t: Mem, t': Mem, m: map<u64, u32>, x: nat)
    requires OnlyAt(t, t', x) && IndexSound(t, m) && UniqueIds(t)
    requires t'.owner[x] == t.owner[x] && t'.s[x].data.orderId == t.s[x].data.orderId
    ensures UniqueIds(t') && IndexSound(t', m)
    ensures IndexFull(t, m) ==> IndexFull(t', m)
  {
  }

  /** The slots an index points at, as a duplicate-free list. */
  lemma IndexSlots(t: Mem, m: map<u64, u32>) returns (Q: seq<nat>)
    requires IndexSound(t, m)
    ensures |Q| == |m| && NoDup(Q)
    ensures forall i :: 0 <= i < |Q| ==> Q[i] < |t.s| && t.owner[Q[i]].Resting? && t.s[Q[i]].data.orderId in m
    decreases |m|
  {
    if m == map[] {
      Q := [];
    } else {
      var id :| id in m;
      var m' := m - {id};
      assert m == m'[id := m[id]];
      Q := IndexSlots(t, m');
      Q := Q + [m[id]];
    }
  }

  /** The index is smaller than the pool while some slot is not resting. */
  lemma IndexSmaller(t: Mem, m: map<u64, u32>, x: nat)
    requires IndexSound(t, m) && x < |t.s| && !t.owner[x].Resting?
    ensures |m| < |t.s|
  {
    var Q := IndexSlots(t, m);
    NoDupBound(Q + [x], |t.s|);
  }

  // ── walking a half ──

  lemma LevelsAndOrders(t: Mem, locate: nat, side: Side)
    requires MemOk(t, locate) && side != Invalid
    ensures Sorted(side, OrdersOf(t, side)) && Totals(LevelsOf(t, side), OrdersOf(t, side))
  {
    assert HalfOk(t, locate, side);
  }

  /** A level that exists holds some order. */
  lemma LevelWitness(levels: map<u32, PriceLevel>, v: seq<OrderData>, p: u32) returns (i: nat)
    requires Totals(levels, v) && p in levels
    ensures i < |v| && v[i].price == p
  {
    CountPositive(v, p);
    i :| 0 <= i < |v| && v[i].price == p;
  }

  /** The first level of a half, in map order, starts at its first order. */
  lemma FirstLevel(side: Side, levels: map<u32, PriceLevel>, v: seq<OrderData>, r: Option<u32>)
    requires Sorted(side, v) && Totals(levels, v)
    requires r.None? ==> levels == map[]
    requires r.Some? ==> r.value in levels && forall p :: p in levels ==> !Ahead(side, p, r.value)
    ensures r.None? <==> v == []
    ensures r.Some? ==> r.value == v[0].price
  {
    hide Totals;
    if v != [] {
      PriceInLevels(levels, v, 0);
    }
    if r.Some? {
      var i := LevelWitness(levels, v, r.value);
      assert i > 0 ==> !Ahead(side, v[i].price, v[0].price);
    }
  }

  /** The level after the one that ends before position i starts at position i. */
  lemma LaterLevel(side: Side, levels: map<u32, PriceLevel>, v: seq<OrderData>, i: nat, r: Option<u32>)
    requires Sorted(side, v) && Totals(levels, v)
    requires 0 < i <= |v| && (i < |v| ==> v[i].price != v[i - 1].price)
    requires r.None? ==> forall q :: q in levels ==> !Ahead(side, v[i - 1].price, q)
    requires r.Some? ==> r.value in levels && Ahead(side, v[i - 1].price, r.value)
    requires r.Some? ==> forall q :: q in levels && Ahead(side, v[i - 1].price, q) ==> !Ahead(side, q, r.value)
    ensures r.None? <==> i == |v|
    ensures r.Some? ==> r.value == v[i].price
  {
    hide Totals;
    if i < |v| {
      PriceInLevels(levels, v, i);
      assert !Ahead(side, v[i].price, v[i - 1].price);
    }
    if r.Some? {
      var j := LevelWitness(levels, v, r.value);
      assert j > i ==> !Ahead(side, v[j].price, v[i].price);
    }
  }

  lemma PriceInLevels(levels: map<u32, PriceLevel>, v: seq<OrderData>, i: nat)
    requires Totals(levels, v) && i < |v|
    ensures v[i].price in levels
  {
  }

  /** Entering a level at its first order, the head index is that order's slot. */
  lemma LevelHead(t: Mem, locate: nat, side: Side, i: nat)
    requires MemOk(t, locate) && side != Invalid && i < |OrdersOf(t, side)|
    requires i > 0 ==> OrdersOf(t, side)[i - 1].price != OrdersOf(t, side)[i].price
    ensures OrdersOf(t, side)[i].price in LevelsOf(t, side) && i < |QueueOf(t, side)|
    ensures LevelsOf(t, side)[OrdersOf(t, side)[i].price].headIdx == QueueOf(t, side)[i]
    ensures LevelsOf(t, side)[OrdersOf(t, side)[i].price].count > 0
  {
    hide PoolOk, Holds, Linked, NoDup, Half;
    assert HalfOk(t, locate, side);
    assert First(OrdersOf(t, side), i);
  }

  /** Following next_idx from position i stays in the level or ends it. */
  lemma LevelStep(t: Mem, locate: nat, side: Side, i: nat)
    requires MemOk(t, locate) && side != Invalid && i < |QueueOf(t, side)|
    ensures |OrdersOf(t, side)| == |QueueOf(t, side)| && QueueOf(t, side)[i] < |t.s| <= NIL
    ensures OrdersOf(t, side)[i] == t.s[QueueOf(t, side)[i]].data
    ensures var v, next := OrdersOf(t, side), t.s[QueueOf(t, side)[i]].nextIdx;
      if i + 1 < |v| && v[i + 1].price == v[i].price then next == QueueOf(t, side)[i + 1] != NIL else next == NIL
  {
    hide PoolOk, Holds, Linked, NoDup, Half, Ends, Totals;
    assert HalfOk(t, locate, side);
    LinksInHalf(t.s, QueueOf(t, side), i);
  }

  // ── several books over one pool ──

  /** An operation on book l leaves the halves of every other book in place. */
  lemma OtherKept(b: Mem, b': Mem, l: nat, t: Mem, t': Mem, l': nat)
    requires MemOk(t, l') && MemOk(b', l) && OthersSame(b, b', l) && l' != l
    requires t.s == b.s && t.owner == b.owner
    requires t' == t.(s := b'.s, owner := b'.owner, head := b'.head, free := b'.free)
    ensures MemOk(t', l')
    ensures OrdersOf(t', Buy) == OrdersOf(t, Buy) && OrdersOf(t', Sell) == OrdersOf(t, Sell)
  {
    hide SideOk, PoolOk, View;
    MemShape(b', l, Buy);
    SideFrame(t.s, t'.s, t.owner, t'.owner, Resting(l', Buy), Buy, t.bids, t.bidQ);
    SideFrame(t.s, t'.s, t.owner, t'.owner, Resting(l', Sell), Sell, t.asks, t.askQ);
  }

  /** A book with no slots is well formed over any pool. */
  lemma EmptyBookOk(t: Mem, l: nat)
    requires PoolOk(t.s, t.owner, t.head, t.free)
    requires t.bids == map[] && t.asks == map[] && t.bidQ == [] && t.askQ == []
    requires forall y :: 0 <= y < |t.owner| && t.owner[y].Resting? ==> t.owner[y].locate != l
    ensures MemOk(t, l) && OrdersOf(t, Buy) == [] && OrdersOf(t, Sell) == []
  {
    hide PoolOk;
    PoolShape(t.s, t.owner, t.head, t.free);
  }

  lemma PoolShape(s: seq<Order>, owner: seq<Owner>, head: u32, free: seq<nat>)
    requires PoolOk(s, owner, head, free)
    ensures |owner| == |s| <= NIL
  {
  }

  /** The index and id facts look only at slots and owners. */
  lemma SharedAgree(t: Mem, t': Mem, m: map<u64, u32>)
    requires t'.s == t.s && t'.owner == t.owner
    ensures IndexSound(t', m) == IndexSound(t, m) && UniqueIds(t') == UniqueIds(t) && Proper(t') == Proper(t)
  {
  }

  /** A resting slot's order appears in its book's half. */
  lemma RestingListed(t: Mem, l: nat, y: nat) returns (k: nat)
    requires MemOk(t, l) && Proper(t) && y < |t.s| && y < |t.owner| && t.owner[y].Resting? && t.owner[y].locate == l
    ensures k < |OrdersOf(t, t.owner[y].side)| && OrdersOf(t, t.owner[y].side)[k] == t.s[y].data
  {
    hide SideOk, PoolOk, View, OrdersOf;
    k := MemOwners(t, l, t.owner[y].side, y);
    OrderInSlot(t, l, t.owner[y].side, k);
  }

  /** The slot the index holds for an id is the one at that id's place in the book. */
  lemma IndexedSlot(t: Mem, l: nat, m: map<u64, u32>, id: u64, side: Side, k: nat)
    requires MemOk(t, l) && IndexSound(t, m) && UniqueIds(t) && id in m && side != Invalid
    requires k < |OrdersOf(t, side)| && OrdersOf(t, side)[k].orderId == id
    ensures k < |QueueOf(t, side)| && QueueOf(t, side)[k] == m[id]
  {
    hide SideOk, PoolOk, View;
    MemShape(t, l, side);
    OrderInSlot(t, l, side, k);
    OwnerOfSlot(t, l, side, k);
  }
}
