/**
  How one half of a book is laid out in the shared slot storage.

  `Q` lists the slots of the half in priority order, across all its price levels; `v` is the same list as
  order values. Slots of one price form a doubly linked list, and `levels` caches head, tail, count and volume.
 */
module SideRep {
  import opened Types
  import opened Matching
  import opened Chains

  /** Who holds a slot: the free stack, an operation in progress, or one half of one book. */
  datatype Owner = Free | Loose | Resting(locate: nat, side: Side)

  ghost predicate InRange(s: seq<Order>, Q: seq<nat>) {
    forall i :: 0 <= i < |Q| ==> Q[i] < |s|
  }

  /** The orders in the slots Q (empty when Q leaves the storage, which no valid state does). */
  ghost function View(s: seq<Order>, Q: seq<nat>): (v: seq<OrderData>)
    ensures InRange(s, Q) ==> |v| == |Q| && forall i :: 0 <= i < |Q| ==> v[i] == s[Q[i]].data
  {
    if InRange(s, Q) then seq(|Q|, i requires 0 <= i < |Q| => s[Q[i]].data) else []
  }

  // ── links ──

  ghost function NextLink(Q: seq<nat>, v: seq<OrderData>, i: nat): int
    requires |v| == |Q| && i < |Q|
  {
    if i + 1 < |Q| && v[i + 1].price == v[i].price then Q[i + 1] else NIL
  }

  ghost function PrevLink(Q: seq<nat>, v: seq<OrderData>, i: nat): int
    requires |v| == |Q| && i < |Q|
  {
    if i > 0 && v[i - 1].price == v[i].price then Q[i - 1] else NIL
  }

  ghost predicate Linked(s: seq<Order>, Q: seq<nat>, v: seq<OrderData>)
    requires InRange(s, Q) && |v| == |Q|
  {
    forall i :: 0 <= i < |Q| ==>
      s[Q[i]].nextIdx == NextLink(Q, v, i) && s[Q[i]].prevIdx == PrevLink(Q, v, i)
  }

  // ── levels ──

  ghost function CountAt(v: seq<OrderData>, p: u32): nat {
    if v == [] then 0 else (if v[0].price == p then 1 else 0) + CountAt(v[1..], p)
  }

  ghost function SumAt(v: seq<OrderData>, p: u32): nat {
    if v == [] then 0 else (if v[0].price == p then v[0].remainingQty else 0) + SumAt(v[1..], p)
  }

  ghost predicate First(v: seq<OrderData>, i: int)
    requires 0 <= i < |v|
  {
    i == 0 || v[i - 1].price != v[i].price
  }

  ghost predicate Last(v: seq<OrderData>, i: int)
    requires 0 <= i < |v|
  {
    i + 1 == |v| || v[i + 1].price != v[i].price
  }

  ghost predicate Totals(levels: map<u32, PriceLevel>, v: seq<OrderData>) {
    && (forall i :: 0 <= i < |v| ==> v[i].price in levels)
    && (forall p :: p in levels ==>
          && 0 < levels[p].count == CountAt(v, p)
          && levels[p].totalQty == SumAt(v, p) % TWO32)
  }

  ghost predicate Ends(levels: map<u32, PriceLevel>, Q: seq<nat>, v: seq<OrderData>)
    requires |v| == |Q|
    requires Totals(levels, v)
  {
    && (forall i :: 0 <= i < |v| && First(v, i) ==> levels[v[i].price].headIdx == Q[i])
    && (forall i :: 0 <= i < |v| && Last(v, i) ==> levels[v[i].price].tailIdx == Q[i])
  }

  /** The representation invariant of one half. */
  ghost predicate SideOk(s: seq<Order>, owner: seq<Owner>, me: Owner, side: Side,
                         levels: map<u32, PriceLevel>, Q: seq<nat>)
  {
    && |owner| == |s| <= NIL
    && InRange(s, Q)
    && NoDup(Q)
    && Holds(owner, Q, me)
    && Half(side, View(s, Q))
    && Linked(s, Q, View(s, Q))
    && Totals(levels, View(s, Q))
    && Ends(levels, Q, View(s, Q))
  }

  // ── counting lemmas ──

  lemma {:induction false} CountConcat(a: seq<OrderData>, b: seq<OrderData>, p: u32)
    ensures CountAt(a + b, p) == CountAt(a, p) + CountAt(b, p)
    ensures SumAt(a + b, p) == SumAt(a, p) + SumAt(b, p)
  {
    if a == [] {
      assert a + b == b;
    } else {
      assert (a + b)[1..] == a[1..] + b;
      CountConcat(a[1..], b, p);
    }
  }

  lemma {:induction false} CountPositive(v: seq<OrderData>, p: u32)
    ensures CountAt(v, p) > 0 <==> exists i :: 0 <= i < |v| && v[i].price == p
    ensures CountAt(v, p) <= |v|
  {
    if v != [] {
      CountPositive(v[1..], p);
      if i :| 0 <= i < |v| && v[i].price == p {
        assert i > 0 ==> v[1..][i - 1].price == p;
      }
      if j :| 0 <= j < |v[1..]| && v[1..][j].price == p {
        assert v[j + 1].price == p;
      }
    }
  }

  /** q' is q with x inserted at position k (stated without slices, to keep proofs about it small). */
  ghost predicate Inserted<T>(q: seq<T>, k: nat, x: T, q': seq<T>) {
    && k <= |q| && |q'| == |q| + 1
    && q'[k] == x
    && (forall i :: 0 <= i < k ==> q'[i] == q[i])
    && (forall i :: k < i < |q'| ==> q'[i] == q[i - 1])
  }

  lemma {:induction false} CountInsert(v: seq<OrderData>, k: nat, o: OrderData, v': seq<OrderData>, p: u32)
    requires Inserted(v, k, o, v')
    ensures CountAt(v', p) == CountAt(v, p) + (if p == o.price then 1 else 0)
    ensures SumAt(v', p) == SumAt(v, p) + (if p == o.price then o.remainingQty else 0)
  {
    if k == 0 {
      assert v'[1..] == v;
    } else {
      assert v'[0] == v[0];
      CountInsert(v[1..], k - 1, o, v'[1..], p);
    }
  }

  lemma InsertTotals(levels: map<u32, PriceLevel>, v: seq<OrderData>, k: nat, o: OrderData, v': seq<OrderData>, l: PriceLevel)
    requires Inserted(v, k, o, v') && Totals(levels, v)
    requires l.count == CountAt(v, o.price) + 1
    requires l.totalQty == (SumAt(v, o.price) + o.remainingQty) % TWO32
    requires o.price !in levels ==> CountAt(v, o.price) == 0
    ensures Totals(levels[o.price := l], v')
  {
    forall p ensures CountAt(v', p) == CountAt(v, p) + (if p == o.price then 1 else 0)
             ensures SumAt(v', p) == SumAt(v, p) + (if p == o.price then o.remainingQty else 0)
    {
      CountInsert(v, k, o, v', p);
    }
  }

  /** s' is s with slot x written and, when the level exists, its old tail pointing at x. */
  ghost predicate AppendedLinks(s: seq<Order>, s': seq<Order>, Q: seq<nat>, v: seq<OrderData>, k: nat, x: nat, p: u32)
    requires InRange(s, Q) && |v| == |Q| && |s'| == |s| && x < |s| && k <= |Q|
  {
    && s'[x].nextIdx == NIL
    && s'[x].prevIdx == (if k > 0 && v[k - 1].price == p then Q[k - 1] else NIL)
    && (forall i :: 0 <= i < |Q| ==> s'[Q[i]].prevIdx == s[Q[i]].prevIdx)
    && (forall i :: 0 <= i < |Q| && !(i == k - 1 && v[i].price == p) ==> s'[Q[i]].nextIdx == s[Q[i]].nextIdx)
    && (k > 0 && v[k - 1].price == p ==> s'[Q[k - 1]].nextIdx == x)
  }

  /** Position k is where a level of price p ends, or where it would start. */
  ghost predicate LevelGap(v: seq<OrderData>, k: nat, p: u32) {
    && k <= |v|
    && (k < |v| ==> v[k].price != p)
    && (0 < k < |v| ==> v[k].price != v[k - 1].price)
  }

  lemma InsertLinked(s: seq<Order>, s': seq<Order>, Q: seq<nat>, v: seq<OrderData>, k: nat, x: nat, o: OrderData,
                     Q': seq<nat>, v': seq<OrderData>)
    requires InRange(s, Q) && |v| == |Q| && |s'| == |s| && x < |s|
    requires Inserted(Q, k, x, Q') && Inserted(v, k, o, v')
    requires Linked(s, Q, v) && LevelGap(v, k, o.price)
    requires AppendedLinks(s, s', Q, v, k, x, o.price)
    ensures InRange(s', Q')
    ensures Linked(s', Q', v')
  {
    hide NextLink, PrevLink, AppendedLinks, LevelGap, Linked;
    forall i | 0 <= i < |Q'| ensures Q'[i] < |s'| {
      assert i != k ==> Q'[i] == Q[if i < k then i else i - 1];
    }
    forall i | 0 <= i < |Q'|
      ensures s'[Q'[i]].nextIdx == NextLink(Q', v', i) && s'[Q'[i]].prevIdx == PrevLink(Q', v', i)
    {
      InsertLinkedAt(s, s', Q, v, k, x, o, Q', v', i);
    }
    assert InRange(s', Q');
    LinkedFrom(s', Q', v');
  }

  lemma LinkedFrom(s: seq<Order>, Q: seq<nat>, v: seq<OrderData>)
    requires InRange(s, Q) && |v| == |Q|
    requires forall i :: 0 <= i < |Q| ==> s[Q[i]].nextIdx == NextLink(Q, v, i) && s[Q[i]].prevIdx == PrevLink(Q, v, i)
    ensures Linked(s, Q, v)
  {
    hide NextLink, PrevLink;
  }

  lemma LinkedAt(s: seq<Order>, Q: seq<nat>, v: seq<OrderData>, i: nat)
    requires InRange(s, Q) && |v| == |Q| && Linked(s, Q, v) && i < |Q|
    ensures s[Q[i]].nextIdx == NextLink(Q, v, i) && s[Q[i]].prevIdx == PrevLink(Q, v, i)
  {
    hide NextLink, PrevLink;
  }

  lemma InsertedAt<T>(q: seq<T>, k: nat, x: T, q': seq<T>, i: int)
    requires Inserted(q, k, x, q') && 0 <= i < |q'|
    ensures i < k ==> q'[i] == q[i]
    ensures i == k ==> q'[i] == x
    ensures i > k ==> q'[i] == q[i - 1]
  {
  }

  /** The links of position i after an append. */
  lemma InsertLinkedAt(s: seq<Order>, s': seq<Order>, Q: seq<nat>, v: seq<OrderData>, k: nat, x: nat, o: OrderData,
                       Q': seq<nat>, v': seq<OrderData>, i: nat)
    requires InRange(s, Q) && |v| == |Q| && |s'| == |s| && x < |s|
    requires k <= |Q| && i < |Q'| == |v'| == |Q| + 1
    requires Inserted(Q, k, x, Q') && Inserted(v, k, o, v')
    requires Linked(s, Q, v) && LevelGap(v, k, o.price)
    requires AppendedLinks(s, s', Q, v, k, x, o.price)
    ensures Q'[i] < |s'| && s'[Q'[i]].nextIdx == NextLink(Q', v', i) && s'[Q'[i]].prevIdx == PrevLink(Q', v', i)
  {
    hide Linked, Inserted;
    InsertedAt(Q, k, x, Q', i);
    InsertedAt(v, k, o, v', i);
    if i + 1 < |Q'| {
      InsertedAt(Q, k, x, Q', i + 1);
      InsertedAt(v, k, o, v', i + 1);
    }
    if i > 0 {
      InsertedAt(Q, k, x, Q', i - 1);
      InsertedAt(v, k, o, v', i - 1);
    }
    if i != k {
      LinkedAt(s, Q, v, if i < k then i else i - 1);
    }
  }

  /** Where a newcomer goes relative to the existing levels of a sorted half. */
  lemma RestPosAtLevel(side: Side, v: seq<OrderData>, p: u32)
    requires Sorted(side, v)
    ensures var k := RestPos(side, v, p);
      && LevelGap(v, k, p)
      && (CountAt(v, p) > 0 <==> k > 0 && v[k - 1].price == p)
  {
    var k := RestPos(side, v, p);
    CountPositive(v, p);
    if i :| 0 <= i < |v| && v[i].price == p {
      assert i < k;
      assert !Ahead(side, v[k - 1].price, v[i].price);
    }
  }

  /** Equal prices are contiguous in a sorted half. */
  lemma Contiguous(side: Side, v: seq<OrderData>, i: nat, m: nat, j: nat)
    requires Sorted(side, v) && i <= m <= j < |v| && v[i].price == v[j].price
    ensures v[m].price == v[i].price
  {
    if i < m < j {
      assert !Ahead(side, v[m].price, v[i].price) && !Ahead(side, v[j].price, v[m].price);
    }
  }

  lemma InsertEndsAt(levels: map<u32, PriceLevel>, Q: seq<nat>, v: seq<OrderData>, k: nat, x: nat, o: OrderData,
                     Q': seq<nat>, v': seq<OrderData>, l: PriceLevel, i: nat)
    requires |v| == |Q| && Totals(levels, v) && Ends(levels, Q, v)
    requires Inserted(Q, k, x, Q') && Inserted(v, k, o, v') && i <= |v|
    requires 0 < k < |Q| ==> v[k].price != v[k - 1].price
    requires i + 1 < k && v[i].price == o.price ==> v[i + 1].price == o.price
    requires i > k ==> v[i - 1].price != o.price
    requires o.price in levels <==> k > 0 && v[k - 1].price == o.price
    requires l.tailIdx == x
    requires l.headIdx == if o.price in levels then levels[o.price].headIdx else x
    requires v'[i].price in levels[o.price := l]
    ensures First(v', i) ==> levels[o.price := l][v'[i].price].headIdx == Q'[i]
    ensures Last(v', i) ==> levels[o.price := l][v'[i].price].tailIdx == Q'[i]
  {
    if i < k {
      assert First(v', i) ==> First(v, i);
      assert Last(v', i) && v[i].price != o.price ==> Last(v, i);
    } else if i > k {
      assert First(v', i) ==> First(v, i - 1);
      assert Last(v', i) ==> Last(v, i - 1);
    }
  }

  lemma InsertEnds(levels: map<u32, PriceLevel>, Q: seq<nat>, v: seq<OrderData>, k: nat, x: nat, o: OrderData,
                   Q': seq<nat>, v': seq<OrderData>, l: PriceLevel)
    requires |v| == |Q| && Totals(levels, v) && Ends(levels, Q, v)
    requires Inserted(Q, k, x, Q') && Inserted(v, k, o, v') && Half(o.side, v)
    requires LevelGap(v, k, o.price)
    requires o.price in levels <==> k > 0 && v[k - 1].price == o.price
    requires l.tailIdx == x
    requires l.headIdx == if o.price in levels then levels[o.price].headIdx else x
    requires Totals(levels[o.price := l], v')
    ensures Ends(levels[o.price := l], Q', v')
  {
    forall i: nat | i <= |v|
      ensures First(v', i) ==> levels[o.price := l][v'[i].price].headIdx == Q'[i]
      ensures Last(v', i) ==> levels[o.price := l][v'[i].price].tailIdx == Q'[i]
    {
      if i + 1 < k && v[i].price == o.price {
        Contiguous(o.side, v, i, i + 1, k - 1);
      }
      InsertEndsAt(levels, Q, v, k, x, o, Q', v', l, i);
    }
  }

  // ── unlinking ──

  /** q' is q without position k. */
  ghost predicate Removed<T>(q: seq<T>, k: nat, q': seq<T>) {
    && k < |q| == |q'| + 1
    && (forall i :: 0 <= i < k ==> q'[i] == q[i])
    && (forall i :: k <= i < |q'| ==> q'[i] == q[i + 1])
  }

  lemma RemovedInserted<T>(q: seq<T>, k: nat, q': seq<T>)
    requires Removed(q, k, q')
    ensures Inserted(q', k, q[k], q)
  {
  }

  /** Levels after dropping one order of price p whose level record becomes l. */
  ghost function DropFrom(levels: map<u32, PriceLevel>, p: u32, l: PriceLevel): map<u32, PriceLevel> {
    if l.count == 0 then levels - {p} else levels[p := l]
  }

  lemma WrapSub(x: nat, y: nat)
    requires y <= x
    ensures Wrap32(x % TWO32 - y) == (x - y) % TWO32
  {
  }

  lemma WrapAdd(x: nat, y: nat)
    ensures Wrap32(x % TWO32 + y) == (x + y) % TWO32
  {
  }

  lemma CountRemove(v: seq<OrderData>, k: nat, v': seq<OrderData>, p: u32)
    requires Removed(v, k, v')
    ensures CountAt(v', p) == CountAt(v, p) - (if p == v[k].price then 1 else 0)
    ensures SumAt(v', p) == SumAt(v, p) - (if p == v[k].price then v[k].remainingQty else 0)
  {
    RemovedInserted(v, k, v');
    CountInsert(v', k, v[k], v, p);
  }

  lemma RemoveTotals(levels: map<u32, PriceLevel>, v: seq<OrderData>, k: nat, v': seq<OrderData>, l: PriceLevel)
    requires Removed(v, k, v') && Totals(levels, v)
    requires l.count == levels[v[k].price].count - 1
    requires l.totalQty == Wrap32(levels[v[k].price].totalQty - v[k].remainingQty)
    ensures Totals(DropFrom(levels, v[k].price, l), v')
  {
    var levels' := DropFrom(levels, v[k].price, l);
    forall i | 0 <= i < |v'| ensures v'[i].price in levels' {
      assert v'[i] == if i < k then v[i] else v[i + 1];
      CountPositive(v', v'[i].price);
      CountRemove(v, k, v', v'[i].price);
    }
    forall p | p in levels'
      ensures 0 < levels'[p].count == CountAt(v', p) && levels'[p].totalQty == SumAt(v', p) % TWO32
    {
      CountRemove(v, k, v', p);
      if p == v[k].price {
        WrapSub(SumAt(v, p), v[k].remainingQty);
      }
    }
  }

  /** s' is s with the neighbours of position k joined up. */
  ghost predicate JoinedLinks(s: seq<Order>, s': seq<Order>, Q: seq<nat>, v: seq<OrderData>, k: nat)
    requires InRange(s, Q) && |v| == |Q| && |s'| == |s| && k < |Q|
  {
    && (forall i :: 0 <= i < |Q| && i != k && i != k - 1 ==> s'[Q[i]].nextIdx == s[Q[i]].nextIdx)
    && (forall i :: 0 <= i < |Q| && i != k && i != k + 1 ==> s'[Q[i]].prevIdx == s[Q[i]].prevIdx)
    && (k > 0 ==>
          s'[Q[k - 1]].nextIdx == if v[k - 1].price == v[k].price then s[Q[k]].nextIdx else s[Q[k - 1]].nextIdx)
    && (k + 1 < |Q| ==>
          s'[Q[k + 1]].prevIdx == if v[k + 1].price == v[k].price then s[Q[k]].prevIdx else s[Q[k + 1]].prevIdx)
  }

  lemma RemoveLinked(s: seq<Order>, s': seq<Order>, Q: seq<nat>, v: seq<OrderData>, k: nat, Q': seq<nat>, v': seq<OrderData>)
    requires InRange(s, Q) && |v| == |Q| && |s'| == |s|
    requires Removed(Q, k, Q') && Removed(v, k, v')
    requires Linked(s, Q, v) && JoinedLinks(s, s', Q, v, k)
    requires 0 < k && k + 1 < |Q| && v[k - 1].price == v[k + 1].price ==> v[k].price == v[k + 1].price
    ensures InRange(s', Q')
    ensures Linked(s', Q', v')
  {
    assert s[Q[k]].nextIdx == NextLink(Q, v, k) && s[Q[k]].prevIdx == PrevLink(Q, v, k);
    forall i | 0 <= i < |Q'|
      ensures Q'[i] < |s'|
      ensures s'[Q'[i]].nextIdx == NextLink(Q', v', i) && s'[Q'[i]].prevIdx == PrevLink(Q', v', i)
    {
      var j := if i < k then i else i + 1;
      assert Q'[i] == Q[j];
      assert s[Q[j]].nextIdx == NextLink(Q, v, j) && s[Q[j]].prevIdx == PrevLink(Q, v, j);
    }
  }

  /** The level record of order k after unlinking it, as removeOrder computes it. */
  ghost function UnlinkedLevel(l: PriceLevel, x: nat, o: Order): PriceLevel
    requires l.count > 0
  {
    PriceLevel(if l.headIdx == x then o.nextIdx else l.headIdx,
               if l.tailIdx == x then o.prevIdx else l.tailIdx,
               l.count - 1, Wrap32(l.totalQty - o.data.remainingQty))
  }

  lemma RemoveEndsAt(levels: map<u32, PriceLevel>, o: Order, Q: seq<nat>, v: seq<OrderData>, k: nat,
                     Q': seq<nat>, v': seq<OrderData>, i: nat)
    requires |v| == |Q| && Totals(levels, v) && Ends(levels, Q, v)
    requires Removed(Q, k, Q') && Removed(v, k, v') && i < |v'|
    requires o.nextIdx == NextLink(Q, v, k) && o.prevIdx == PrevLink(Q, v, k)
    requires i < k ==> Q[i] != Q[k]
    requires i >= k ==> Q[i + 1] != Q[k]
    requires i > k && v[i + 1].price == v[k].price ==> v[i].price == v[k].price
    requires i + 1 < k && v[i].price == v[k].price ==> v[i + 1].price == v[k].price
    ensures First(v', i) && v'[i].price == v[k].price ==>
              UnlinkedLevel(levels[v[k].price], Q[k], o).headIdx == Q'[i]
    ensures Last(v', i) && v'[i].price == v[k].price ==>
              UnlinkedLevel(levels[v[k].price], Q[k], o).tailIdx == Q'[i]
    ensures First(v', i) && v'[i].price != v[k].price ==> levels[v'[i].price].headIdx == Q'[i]
    ensures Last(v', i) && v'[i].price != v[k].price ==> levels[v'[i].price].tailIdx == Q'[i]
  {
    var j := if i < k then i else i + 1;
    assert v'[i] == v[j] && Q'[i] == Q[j];
    if First(v', i) {
      assert i != k ==> First(v, j);
      if i == k {
        assert First(v, k) || First(v, k + 1);
      }
    }
    if Last(v', i) {
      assert i + 1 != k ==> Last(v, j);
      if i + 1 == k {
        assert Last(v, k) || Last(v, k - 1);
      }
    }
  }

  lemma NeighboursOfRemoved(side: Side, Q: seq<nat>, v: seq<OrderData>, k: nat, i: nat)
    requires |v| == |Q| && k < |Q| && i + 1 < |Q| && NoDup(Q) && Sorted(side, v)
    ensures i < k ==> Q[i] != Q[k]
    ensures i >= k ==> Q[i + 1] != Q[k]
    ensures i > k && v[i + 1].price == v[k].price ==> v[i].price == v[k].price
    ensures i + 1 < k && v[i].price == v[k].price ==> v[i + 1].price == v[k].price
  {
    if i > k && v[i + 1].price == v[k].price {
      Contiguous(side, v, k, i, i + 1);
    } else if i + 1 < k && v[i].price == v[k].price {
      Contiguous(side, v, i, i + 1, k);
    }
  }

  lemma RemoveEnds(levels: map<u32, PriceLevel>, side: Side, o: Order, Q: seq<nat>, v: seq<OrderData>, k: nat,
                   Q': seq<nat>, v': seq<OrderData>, levels': map<u32, PriceLevel>)
    requires |v| == |Q| && Totals(levels, v) && Ends(levels, Q, v)
    requires Removed(Q, k, Q') && Removed(v, k, v') && NoDup(Q) && Sorted(side, v)
    requires o.nextIdx == NextLink(Q, v, k) && o.prevIdx == PrevLink(Q, v, k)
    requires v[k].price in levels' ==> levels'[v[k].price] == UnlinkedLevel(levels[v[k].price], Q[k], o)
    requires forall p :: p in levels' && p != v[k].price ==> p in levels && levels'[p] == levels[p]
    requires Totals(levels', v')
    ensures Ends(levels', Q', v')
  {
    forall i: nat | i < |v'|
      ensures First(v', i) ==> levels'[v'[i].price].headIdx == Q'[i]
      ensures Last(v', i) ==> levels'[v'[i].price].tailIdx == Q'[i]
    {
      assert v'[i].price in levels';
      NeighboursOfRemoved(side, Q, v, k, i);
      RemoveEndsAt(levels, o, Q, v, k, Q', v', i);
    }
  }

  // ── the three updates and the frame, for a whole half ──

  lemma InsertNoDup(Q: seq<nat>, k: nat, x: nat, Q': seq<nat>)
    requires Inserted(Q, k, x, Q') && NoDup(Q) && x !in Q
    ensures NoDup(Q')
  {
    forall i, j | 0 <= i < j < |Q'| ensures Q'[i] != Q'[j] {
      assert i != k ==> Q'[i] == Q[if i < k then i else i - 1];
      assert j != k ==> Q'[j] == Q[if j < k then j else j - 1];
    }
  }

  lemma InsertHolds(owner: seq<Owner>, owner': seq<Owner>, me: Owner, Q: seq<nat>, k: nat, x: nat, Q': seq<nat>)
    requires Inserted(Q, k, x, Q') && Holds(owner, Q, me) && x < |owner| == |owner'|
    requires owner'[x] == me
    requires forall y: nat :: y < |owner| && y != x ==> (owner'[y] == me <==> owner[y] == me)
    ensures Holds(owner', Q', me)
  {
    forall i | 0 <= i < |Q'| ensures Q'[i] < |owner'| && owner'[Q'[i]] == me {
      assert i != k ==> Q'[i] == Q[if i < k then i else i - 1];
    }
    forall y: nat | y < |owner'| && owner'[y] == me ensures y in Q' {
      if y != x {
        var i :| 0 <= i < |Q| && Q[i] == y;
        assert Q'[if i < k then i else i + 1] == y;
      } else {
        assert Q'[k] == x;
      }
    }
  }

  lemma InsertHalf(side: Side, v: seq<OrderData>, o: OrderData, v': seq<OrderData>)
    requires Half(side, v) && o.side == side
    requires Inserted(v, RestPos(side, v, o.price), o, v')
    ensures Half(side, v')
  {
    var k := RestPos(side, v, o.price);
    forall i, j | 0 <= i < j < |v'| ensures !Ahead(side, v'[j].price, v'[i].price) {
      var i0 := if i < k then i else i - 1;
      var j0 := if j < k then j else j - 1;
      assert i != k ==> v'[i] == v[i0];
      assert j != k ==> v'[j] == v[j0];
      if i == k && j0 > k {
        assert !Ahead(side, v[j0].price, v[k].price);
      }
    }
  }
}
