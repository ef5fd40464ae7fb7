/** The slot writes of addOrder, removeOrder and the quantity reductions, and what each does to one half. */
module SideUpdates {
  import opened Types
  import opened Matching
  import opened Chains
  import opened SideRep

  const EMPTY_LEVEL := PriceLevel(NIL, NIL, 0, 0)

  /** `map[p]` of the source: the level, or a default-constructed one. */
  function LevelAt(levels: map<u32, PriceLevel>, p: u32): PriceLevel {
    if p in levels then levels[p] else EMPTY_LEVEL
  }

  // ── append ──

  ghost function AppendSlots(s: seq<Order>, x: nat, o: Order, l: PriceLevel): (s': seq<Order>)
    requires x < |s| <= NIL && (l.count > 0 ==> l.tailIdx < |s|)
    ensures |s'| == |s|
  {
    if l.count == 0 then s[x := o.(prevIdx := NIL, nextIdx := NIL)]
    else
      var s1 := s[x := o.(prevIdx := l.tailIdx, nextIdx := NIL)];
      s1[l.tailIdx := s1[l.tailIdx].(nextIdx := x)]
  }

  ghost function AppendLevel(l: PriceLevel, x: nat, o: OrderData): PriceLevel
    requires x <= NIL && l.count < NIL
  {
    PriceLevel(if l.count == 0 then x else l.headIdx, x, l.count + 1, Wrap32(l.totalQty + o.remainingQty))
  }

  /** A level that takes another order has room in its 32-bit count, and its tail is a slot of the half. */
  lemma LevelRoom(s: seq<Order>, owner: seq<Owner>, me: Owner, side: Side, levels: map<u32, PriceLevel>,
                  Q: seq<nat>, p: u32, x: nat)
    requires SideOk(s, owner, me, side, levels, Q) && x < |s| && owner[x] != me
    ensures var l, k := LevelAt(levels, p), RestPos(side, View(s, Q), p);
      && l.count < NIL
      && LevelGap(View(s, Q), k, p)
      && (l.count > 0 <==> p in levels)
      && (l.count > 0 <==> k > 0 && s[Q[k - 1]].data.price == p)
      && (l.count > 0 ==> l.tailIdx == Q[k - 1] < |s| && owner[l.tailIdx] == me)
      && l.count == CountAt(View(s, Q), p)
      && l.totalQty == SumAt(View(s, Q), p) % TWO32
  {
    hide Holds, Linked, NoDup;
    NotHeld(owner, Q, me, x);
    HeldBy(owner, Q, me);
    HalfBound(s, Q, x);
    var v := View(s, Q);
    var k := RestPos(side, v, p);
    RestPosAtLevel(side, v, p);
    CountPositive(v, p);
    if CountAt(v, p) == 0 {
      NoSum(v, p);
    }
    if k > 0 && v[k - 1].price == p {
      assert Last(v, k - 1);
    }
  }

  lemma HalfBound(s: seq<Order>, Q: seq<nat>, x: nat)
    requires InRange(s, Q) && NoDup(Q) && x < |s| && x !in Q
    ensures |Q| < |s|
  {
    NoDupBound(Q + [x], |s|);
  }

  lemma {:induction false} NoSum(v: seq<OrderData>, p: u32)
    requires CountAt(v, p) == 0
    ensures SumAt(v, p) == 0
  {
    if v != [] {
      NoSum(v[1..], p);
    }
  }

  lemma AppendGivesLinks(s: seq<Order>, Q: seq<nat>, k: nat, x: nat, o: Order, l: PriceLevel)
    requires InRange(s, Q) && NoDup(Q) && x < |s| <= NIL && x !in Q && k <= |Q|
    requires l.count > 0 <==> k > 0 && s[Q[k - 1]].data.price == o.data.price
    requires l.count > 0 ==> l.tailIdx == Q[k - 1]
    ensures var s' := AppendSlots(s, x, o, l);
      && s'[x].data == o.data
      && (forall i :: 0 <= i < |Q| ==> s'[Q[i]].data == s[Q[i]].data)
      && AppendedLinks(s, s', Q, View(s, Q), k, x, o.data.price)
  {
  }

  ghost function InsertAt<T>(q: seq<T>, k: nat, x: T): (q': seq<T>)
    requires k <= |q|
    ensures Inserted(q, k, x, q')
  {
    q[..k] + [x] + q[k..]
  }

  lemma InsertedUnique<T>(q: seq<T>, k: nat, x: T, a: seq<T>)
    requires Inserted(q, k, x, a)
    ensures a == q[..k] + [x] + q[k..]
  {
    var b := q[..k] + [x] + q[k..];
    forall i | 0 <= i < |a| ensures a[i] == b[i] {
    }
  }

  lemma ViewInserted(s: seq<Order>, s': seq<Order>, Q: seq<nat>, k: nat, x: nat, o: OrderData, Q': seq<nat>)
    requires InRange(s, Q) && |s'| == |s| && x < |s| && Inserted(Q, k, x, Q')
    requires s'[x].data == o
    requires forall i :: 0 <= i < |Q| ==> s'[Q[i]].data == s[Q[i]].data
    ensures InRange(s', Q')
    ensures Inserted(View(s, Q), k, o, View(s', Q'))
  {
  }

  /** Resting an order: the half gains it behind every order that keeps priority. */
  lemma SideInsert(s: seq<Order>, owner: seq<Owner>, owner': seq<Owner>, me: Owner, side: Side,
                   levels: map<u32, PriceLevel>, Q: seq<nat>, x: nat, o: Order, Q': seq<nat>)
    requires SideOk(s, owner, me, side, levels, Q) && o.data.side == side
    requires x < |s| == |owner'| && owner[x] != me
    requires owner'[x] == me && forall y: nat :: y < |owner| && y != x ==> owner'[y] == owner[y]
    requires Q' == InsertAt(Q, RestPos(side, View(s, Q), o.data.price), x)
    ensures LevelAt(levels, o.data.price).count < NIL
    ensures var l := LevelAt(levels, o.data.price);
      (l.count > 0 ==> l.tailIdx < |s| && owner[l.tailIdx] == me) &&
      var s' := AppendSlots(s, x, o, l);
      && SideOk(s', owner', me, side, levels[o.data.price := AppendLevel(l, x, o.data)], Q')
      && View(s', Q') == Insert(View(s, Q), o.data)
  {
    hide Linked, Holds, NoDup, Half, Totals, Ends, AppendedLinks, LevelGap, Inserted, InRange, View, RestPos,
         AppendSlots, CountAt, SumAt;
    var v, p := View(s, Q), o.data.price;
    var k, l := RestPos(side, v, p), LevelAt(levels, p);
    NotHeld(owner, Q, me, x);
    LevelRoom(s, owner, me, side, levels, Q, p, x);
    var s' := AppendSlots(s, x, o, l);
    AppendGivesLinks(s, Q, k, x, o, l);
    ViewInserted(s, s', Q, k, x, o.data, Q');
    var v' := View(s', Q');
    InsertedUnique(v, k, o.data, v');
    InsertParts(s, s', owner, owner', me, side, levels, Q, k, x, o.data, AppendLevel(l, x, o.data), Q', v');
  }

  lemma InsertParts(s: seq<Order>, s': seq<Order>, owner: seq<Owner>, owner': seq<Owner>, me: Owner, side: Side,
                    levels: map<u32, PriceLevel>, Q: seq<nat>, k: nat, x: nat, o: OrderData, l: PriceLevel,
                    Q': seq<nat>, v': seq<OrderData>)
    requires SideOk(s, owner, me, side, levels, Q) && o.side == side
    requires x < |s| == |owner'| && |s'| == |s| && owner[x] != me
    requires owner'[x] == me && forall y: nat :: y < |owner| && y != x ==> owner'[y] == owner[y]
    requires k == RestPos(side, View(s, Q), o.price) && LevelGap(View(s, Q), k, o.price)
    requires o.price in levels <==> k > 0 && View(s, Q)[k - 1].price == o.price
    requires Inserted(Q, k, x, Q') && InRange(s', Q') && v' == View(s', Q') && Inserted(View(s, Q), k, o, v')
    requires AppendedLinks(s, s', Q, View(s, Q), k, x, o.price)
    requires l.tailIdx == x && l.headIdx == if o.price in levels then levels[o.price].headIdx else x
    requires l.count == CountAt(View(s, Q), o.price) + 1
    requires l.totalQty == (SumAt(View(s, Q), o.price) + o.remainingQty) % TWO32
    requires x !in Q && (o.price !in levels ==> CountAt(View(s, Q), o.price) == 0)
    ensures SideOk(s', owner', me, side, levels[o.price := l], Q')
  {
    hide Linked, Holds, NoDup, Half, Totals, Ends, AppendedLinks, LevelGap, Inserted, InRange, View, RestPos;
    var v := View(s, Q);
    InsertHolds(owner, owner', me, Q, k, x, Q');
    InsertNoDup(Q, k, x, Q');
    InsertHalf(side, v, o, v');
    InsertLinked(s, s', Q, v, k, x, o, Q', v');
    InsertTotals(levels, v, k, o, v', l);
    InsertEnds(levels, Q, v, k, x, o, Q', v', l);
  }

  // ── unlink ──

  /** Join the neighbours of slot x; slot x itself keeps its stale links. */
  ghost function UnlinkSlots(s: seq<Order>, x: nat): (s': seq<Order>)
    requires x < |s|
    requires s[x].prevIdx == NIL || s[x].prevIdx < |s|
    requires s[x].nextIdx == NIL || s[x].nextIdx < |s|
    ensures |s'| == |s|
  {
    var o := s[x];
    var s1 := if o.prevIdx == NIL then s else s[o.prevIdx := s[o.prevIdx].(nextIdx := o.nextIdx)];
    if o.nextIdx == NIL then s1 else s1[o.nextIdx := s1[o.nextIdx].(prevIdx := o.prevIdx)]
  }

  lemma UnlinkSlotsAt(s: seq<Order>, x: nat)
    requires x < |s|
    requires s[x].prevIdx == NIL || s[x].prevIdx < |s|
    requires s[x].nextIdx == NIL || s[x].nextIdx < |s|
    ensures var s' := UnlinkSlots(s, x);
      && (forall y: nat :: y < |s| ==> s'[y].data == s[y].data && s'[y].poolNextFree == s[y].poolNextFree)
      && (forall y: nat :: y < |s| && y != s[x].prevIdx ==> s'[y].nextIdx == s[y].nextIdx)
      && (forall y: nat :: y < |s| && y != s[x].nextIdx ==> s'[y].prevIdx == s[y].prevIdx)
      && (s[x].prevIdx != NIL ==> s'[s[x].prevIdx].nextIdx == s[x].nextIdx)
      && (s[x].nextIdx != NIL ==> s'[s[x].nextIdx].prevIdx == s[x].prevIdx)
  {
  }

  /** The links of a resting slot stay inside its half. */
  lemma LinksInHalf(s: seq<Order>, Q: seq<nat>, k: nat)
    requires |s| <= NIL && InRange(s, Q) && k < |Q| && Linked(s, Q, View(s, Q))
    ensures s[Q[k]].nextIdx == NextLink(Q, View(s, Q), k)
    ensures s[Q[k]].prevIdx == PrevLink(Q, View(s, Q), k)
    ensures s[Q[k]].prevIdx != NIL ==> s[Q[k]].prevIdx in Q && s[Q[k]].prevIdx < |s|
    ensures s[Q[k]].nextIdx != NIL ==> s[Q[k]].nextIdx in Q && s[Q[k]].nextIdx < |s|
  {
  }

  lemma UnlinkGivesLinks(s: seq<Order>, Q: seq<nat>, k: nat)
    requires |s| <= NIL && InRange(s, Q) && NoDup(Q) && k < |Q| && Linked(s, Q, View(s, Q))
    ensures s[Q[k]].prevIdx == NIL || s[Q[k]].prevIdx < |s|
    ensures s[Q[k]].nextIdx == NIL || s[Q[k]].nextIdx < |s|
    ensures var s' := UnlinkSlots(s, Q[k]);
      && (forall y: nat :: y < |s| ==> s'[y].data == s[y].data)
      && JoinedLinks(s, s', Q, View(s, Q), k)
  {
    hide UnlinkSlots, Linked;
    LinksInHalf(s, Q, k);
    UnlinkSlotsAt(s, Q[k]);
  }

  lemma ViewRemoved(s: seq<Order>, s': seq<Order>, Q: seq<nat>, k: nat, Q': seq<nat>)
    requires InRange(s, Q) && |s'| == |s| && Removed(Q, k, Q')
    requires forall y: nat :: y < |s| ==> s'[y].data == s[y].data
    ensures InRange(s', Q')
    ensures Removed(View(s, Q), k, View(s', Q'))
  {
  }

  lemma RemovedUnique<T>(q: seq<T>, k: nat, a: seq<T>)
    requires Removed(q, k, a)
    ensures a == RemoveAt(q, k)
  {
  }

  lemma RemoveIsRemoved<T>(q: seq<T>, k: nat)
    requires k < |q|
    ensures Removed(q, k, RemoveAt(q, k))
  {
  }

  lemma RemoveHalf(side: Side, v: seq<OrderData>, k: nat, v': seq<OrderData>)
    requires Half(side, v) && Removed(v, k, v')
    ensures Half(side, v')
    ensures 0 < k && k + 1 < |v| && v[k - 1].price == v[k + 1].price ==> v[k].price == v[k + 1].price
  {
    forall i, j | 0 <= i < j < |v'| ensures !Ahead(side, v'[j].price, v'[i].price) {
      assert v'[i] == v[if i < k then i else i + 1];
      assert v'[j] == v[if j < k then j else j + 1];
    }
    if 0 < k && k + 1 < |v| && v[k - 1].price == v[k + 1].price {
      Contiguous(side, v, k - 1, k, k + 1);
    }
  }

  lemma RemoveHolds(owner: seq<Owner>, owner': seq<Owner>, me: Owner, Q: seq<nat>, k: nat, Q': seq<nat>)
    requires Holds(owner, Q, me) && NoDup(Q) && Removed(Q, k, Q') && |owner'| == |owner|
    requires owner'[Q[k]] != me
    requires forall y: nat :: y < |owner| && y != Q[k] ==> (owner'[y] == me <==> owner[y] == me)
    ensures Holds(owner', Q', me) && NoDup(Q')
  {
    forall i | 0 <= i < |Q'| ensures Q'[i] < |owner'| && owner'[Q'[i]] == me {
      assert Q'[i] == Q[if i < k then i else i + 1];
    }
    forall y: nat | y < |owner'| && owner'[y] == me ensures y in Q' {
      var i :| 0 <= i < |Q| && Q[i] == y;
      assert Q'[if i < k then i else i - 1] == y;
    }
    forall i, j | 0 <= i < j < |Q'| ensures Q'[i] != Q'[j] {
      assert Q'[i] == Q[if i < k then i else i + 1];
      assert Q'[j] == Q[if j < k then j else j + 1];
    }
  }

  lemma RemoveParts(s: seq<Order>, s': seq<Order>, owner: seq<Owner>, owner': seq<Owner>, me: Owner, side: Side,
                    levels: map<u32, PriceLevel>, Q: seq<nat>, k: nat, Q': seq<nat>, v': seq<OrderData>,
                    levels': map<u32, PriceLevel>)
    requires SideOk(s, owner, me, side, levels, Q)
    requires |s'| == |s| == |owner'| && Removed(Q, k, Q') && k < |Q| && Q[k] < |s|
    requires owner'[Q[k]] != me
    requires forall y: nat :: y < |owner| && y != Q[k] ==> (owner'[y] == me <==> owner[y] == me)
    requires InRange(s', Q') && v' == View(s', Q') && Removed(View(s, Q), k, v')
    requires JoinedLinks(s, s', Q, View(s, Q), k)
    requires View(s, Q)[k].price in levels && levels[View(s, Q)[k].price].count > 0
    requires s[Q[k]].nextIdx == NextLink(Q, View(s, Q), k) && s[Q[k]].prevIdx == PrevLink(Q, View(s, Q), k)
    requires View(s, Q)[k] == s[Q[k]].data
    requires levels' == DropFrom(levels, s[Q[k]].data.price, UnlinkedLevel(levels[s[Q[k]].data.price], Q[k], s[Q[k]]))
    ensures SideOk(s', owner', me, side, levels', Q')
  {
    hide Linked, Holds, NoDup, Half, Totals, Ends, JoinedLinks, Removed, InRange, View, NextLink, PrevLink;
    var v, o := View(s, Q), s[Q[k]];
    RemoveHolds(owner, owner', me, Q, k, Q');
    RemoveHalf(side, v, k, v');
    RemoveLinked(s, s', Q, v, k, Q', v');
    RemoveTotals(levels, v, k, v', UnlinkedLevel(levels[o.data.price], Q[k], o));
    HalfSorted(side, v);
    RemoveEnds(levels, side, o, Q, v, k, Q', v', levels');
  }

  lemma HalfSorted(side: Side, v: seq<OrderData>)
    requires Half(side, v)
    ensures Sorted(side, v)
  {
  }

  /** Taking an order out: the half loses exactly that position. */
  lemma SideRemove(s: seq<Order>, owner: seq<Owner>, owner': seq<Owner>, me: Owner, side: Side,
                   levels: map<u32, PriceLevel>, Q: seq<nat>, k: nat)
    requires SideOk(s, owner, me, side, levels, Q) && k < |Q| && |owner'| == |owner| && Q[k] < |s|
    requires owner'[Q[k]] != me
    requires forall y: nat :: y < |owner| && y != Q[k] ==> (owner'[y] == me <==> owner[y] == me)
    ensures s[Q[k]].prevIdx == NIL || s[Q[k]].prevIdx < |s|
    ensures s[Q[k]].nextIdx == NIL || s[Q[k]].nextIdx < |s|
    ensures var p := s[Q[k]].data.price;
      p in levels && levels[p].count > 0 &&
      var s' := UnlinkSlots(s, Q[k]);
      && SideOk(s', owner', me, side, DropFrom(levels, p, UnlinkedLevel(levels[p], Q[k], s[Q[k]])), RemoveAt(Q, k))
      && View(s', RemoveAt(Q, k)) == RemoveAt(View(s, Q), k)
  {
    hide Linked, Holds, NoDup, Half, Ends, JoinedLinks, Removed, InRange, UnlinkSlots, RemoveAt;
    var x, Q' := Q[k], RemoveAt(Q, k);
    RemoveIsRemoved(Q, k);
    LinksInHalf(s, Q, k);
    UnlinkGivesLinks(s, Q, k);
    var s' := UnlinkSlots(s, x);
    ViewRemoved(s, s', Q, k, Q');
    RemovedUnique(View(s, Q), k, View(s', Q'));
    var p := s[x].data.price;
    assert View(s, Q)[k] == s[x].data;
    RemoveParts(s, s', owner, owner', me, side, levels, Q, k, Q', View(s', Q'),
                DropFrom(levels, p, UnlinkedLevel(levels[p], x, s[x])));
  }

  // ── reduce ──

  lemma {:induction false} CountUpdate(v: seq<OrderData>, k: nat, d: OrderData, p: u32)
    requires k < |v| && d.price == v[k].price
    ensures CountAt(v[k := d], p) == CountAt(v, p)
    ensures SumAt(v[k := d], p) == SumAt(v, p) + (if p == d.price then d.remainingQty - v[k].remainingQty else 0)
  {
    if k == 0 {
      assert v[k := d][1..] == v[1..];
    } else {
      assert v[k := d][1..] == v[1..][k - 1 := d];
      CountUpdate(v[1..], k - 1, d, p);
    }
  }

  lemma ReduceTotals(levels: map<u32, PriceLevel>, v: seq<OrderData>, k: nat, d: OrderData, total: u32)
    requires Totals(levels, v) && k < |v| && d.price == v[k].price && d.remainingQty <= v[k].remainingQty
    requires total == Wrap32(levels[d.price].totalQty - (v[k].remainingQty - d.remainingQty))
    ensures Totals(levels[d.price := levels[d.price].(totalQty := total)], v[k := d])
  {
    var levels' := levels[d.price := levels[d.price].(totalQty := total)];
    forall p | p in levels'
      ensures 0 < levels'[p].count == CountAt(v[k := d], p)
      ensures levels'[p].totalQty == SumAt(v[k := d], p) % TWO32
    {
      CountUpdate(v, k, d, p);
      if p == d.price {
        WrapSub(SumAt(v, p), v[k].remainingQty - d.remainingQty);
      }
    }
  }

  /** Two views that differ in nothing the layout depends on. */
  ghost predicate SameShape(v: seq<OrderData>, v': seq<OrderData>) {
    |v| == |v'| && forall i :: 0 <= i < |v| ==> v'[i].price == v[i].price && v'[i].side == v[i].side
  }

  lemma SameShapeHalf(side: Side, v: seq<OrderData>, v': seq<OrderData>)
    requires SameShape(v, v') && Half(side, v)
    ensures Half(side, v')
  {
  }

  lemma SameShapeLinked(s: seq<Order>, s': seq<Order>, Q: seq<nat>, v: seq<OrderData>, v': seq<OrderData>)
    requires SameShape(v, v') && |s'| == |s| && InRange(s, Q) && |v| == |Q| && Linked(s, Q, v)
    requires forall y: nat :: y < |s| ==> s'[y].nextIdx == s[y].nextIdx && s'[y].prevIdx == s[y].prevIdx
    ensures Linked(s', Q, v')
  {
    forall i | 0 <= i < |Q|
      ensures s'[Q[i]].nextIdx == NextLink(Q, v', i) && s'[Q[i]].prevIdx == PrevLink(Q, v', i)
    {
      assert s[Q[i]].nextIdx == NextLink(Q, v, i);
    }
  }

  lemma SameShapeEnds(levels: map<u32, PriceLevel>, levels': map<u32, PriceLevel>, Q: seq<nat>,
                      v: seq<OrderData>, v': seq<OrderData>)
    requires SameShape(v, v') && |v| == |Q|
    requires Totals(levels, v) && Ends(levels, Q, v) && Totals(levels', v')
    requires forall p :: p in levels && p in levels' ==>
               levels'[p].headIdx == levels[p].headIdx && levels'[p].tailIdx == levels[p].tailIdx
    ensures Ends(levels', Q, v')
  {
    forall i | 0 <= i < |v'|
      ensures First(v', i) ==> levels'[v'[i].price].headIdx == Q[i]
      ensures Last(v', i) ==> levels'[v'[i].price].tailIdx == Q[i]
    {
      assert v'[i].price == v[i].price && v[i].price in levels && v'[i].price in levels';
      assert First(v', i) ==> First(v, i);
      assert Last(v', i) ==> Last(v, i);
    }
  }

  /** Shrinking an order in place: same position, smaller remainder, level volume adjusted modulo 2^32. */
  lemma SideReduce(s: seq<Order>, owner: seq<Owner>, me: Owner, side: Side,
                   levels: map<u32, PriceLevel>, Q: seq<nat>, k: nat, d: OrderData)
    requires SideOk(s, owner, me, side, levels, Q) && k < |Q| && Q[k] < |s|
    requires d.price == s[Q[k]].data.price && d.side == s[Q[k]].data.side
    requires d.remainingQty <= s[Q[k]].data.remainingQty
    ensures d.price in levels
    ensures var total := Wrap32(levels[d.price].totalQty - (s[Q[k]].data.remainingQty - d.remainingQty));
      var s' := s[Q[k] := s[Q[k]].(data := d)];
      && SideOk(s', owner, me, side, levels[d.price := levels[d.price].(totalQty := total)], Q)
      && View(s', Q) == View(s, Q)[k := d]
  {
    hide Holds, Half, Linked, Ends, Totals, SumAt, CountAt;
    var v := View(s, Q);
    assert v[k] == s[Q[k]].data;
    PricesInLevels(levels, v);
    var total := Wrap32(levels[d.price].totalQty - (v[k].remainingQty - d.remainingQty));
    var levels' := levels[d.price := levels[d.price].(totalQty := total)];
    var s' := s[Q[k] := s[Q[k]].(data := d)];
    assert View(s', Q) == v[k := d];
    ReduceTotals(levels, v, k, d, total);
    SameShapeHalf(side, v, v[k := d]);
    SameShapeLinked(s, s', Q, v, v[k := d]);
    SameShapeEnds(levels, levels', Q, v, v[k := d]);
  }

  lemma PricesInLevels(levels: map<u32, PriceLevel>, v: seq<OrderData>)
    requires Totals(levels, v)
    ensures forall i :: 0 <= i < |v| ==> v[i].price in levels && levels[v[i].price].count > 0
  {
  }

  // ── frame ──

  /** A half only depends on the slots it holds (and not on their free-stack link). */
  lemma SideFrame(s: seq<Order>, s': seq<Order>, owner: seq<Owner>, owner': seq<Owner>, me: Owner, side: Side,
                  levels: map<u32, PriceLevel>, Q: seq<nat>)
    requires SideOk(s, owner, me, side, levels, Q)
    requires |s'| == |owner'| == |s|
    requires forall y: nat :: y < |s| ==> (owner'[y] == me <==> owner[y] == me)
    requires forall y: nat :: y < |s| && owner[y] == me ==> s'[y].(poolNextFree := NIL) == s[y].(poolNextFree := NIL)
    ensures SideOk(s', owner', me, side, levels, Q)
    ensures View(s', Q) == View(s, Q)
  {
    hide Half, Totals, Ends, NoDup, NextLink, PrevLink;
    forall i | 0 <= i < |Q|
      ensures s'[Q[i]].data == s[Q[i]].data
      ensures s'[Q[i]].nextIdx == s[Q[i]].nextIdx && s'[Q[i]].prevIdx == s[Q[i]].prevIdx
    {
      assert owner[Q[i]] == me;
      var a, b := s'[Q[i]].(poolNextFree := NIL), s[Q[i]].(poolNextFree := NIL);
      assert a == b;
    }
    assert View(s', Q) == View(s, Q);
  }
}
