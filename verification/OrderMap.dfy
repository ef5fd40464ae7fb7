/**
  The order index: chained buckets over a node pool; a bucket whose chain reaches length 8 moves to an
  ordered overflow map. Single-threaded use. Values are slot indices, standing for Order pointers.
 */
module OrderMapModel {
  import opened Types
  import opened Chains
  import opened IndexValue

  datatype Node = Node(orderId: u64, order: u32, nextIdx: u32, bucket: u32)

  type u8 = x: int | 0 <= x < 256

  // ── the table as a value ──

  const FREE: int := -1
  const LOOSE: int := -2

  /**
    A snapshot of every array of the index plus its abstraction: `chains[b]` are the nodes threaded from
    bucket b, `home` says where each node is, and `m` is the partial map the whole structure stands for.
   */
  datatype Table = Table(
    shift: nat, nodes: seq<Node>, buckets: seq<u32>, lens: seq<u16>, states: seq<u8>,
    overflow: map<u64, u32>, headIdx: u32,
    free: seq<nat>, chains: seq<seq<nat>>, home: seq<int>, m: map<u64, u32>)

  ghost function Links(nodes: seq<Node>): (next: seq<u32>)
    ensures |next| == |nodes|
    ensures forall i :: 0 <= i < |nodes| ==> next[i] == nodes[i].nextIdx
  {
    seq(|nodes|, i requires 0 <= i < |nodes| => nodes[i].nextIdx)
  }

  ghost predicate Shape(t: Table) {
    && |t.nodes| == |t.home| <= NIL
    && t.shift <= 64
    && |t.buckets| == |t.lens| == |t.states| == |t.chains| == Pow2(64 - t.shift)
  }

  /** Node x is an entry of bucket b and the map agrees with it. */
  ghost predicate Entry(t: Table, b: nat, x: nat)
    requires x < |t.nodes|
  {
    var n := t.nodes[x];
    && n.bucket == b == HashOf(t.shift, n.orderId)
    && n.orderId in t.m && t.m[n.orderId] == n.order
  }

  ghost predicate InNodes(t: Table, c: seq<nat>) {
    forall j :: 0 <= j < |c| ==> c[j] < |t.nodes|
  }

  ghost predicate DistinctIds(t: Table, c: seq<nat>)
    requires InNodes(t, c)
  {
    forall i, j :: 0 <= i < j < |c| ==> t.nodes[c[i]].orderId != t.nodes[c[j]].orderId
  }

  ghost predicate InChain(t: Table, c: seq<nat>, k: u64)
    requires InNodes(t, c)
  {
    exists j :: 0 <= j < |c| && t.nodes[c[j]].orderId == k
  }

  /** A chain-state bucket: its nodes are exactly the bindings of the keys that hash here. */
  ghost predicate Live(t: Table, b: nat, c: seq<nat>)
    requires InNodes(t, c)
  {
    && (forall j :: 0 <= j < |c| ==> Entry(t, b, c[j]))
    && DistinctIds(t, c)
    && (forall k :: k in t.m && HashOf(t.shift, k) == b ==> InChain(t, c, k))
  }

  /** A treeified bucket: its bindings are in the overflow map; its nodes are stranded. */
  ghost predicate Moved(t: Table, b: nat) {
    forall k :: k in t.m && HashOf(t.shift, k) == b ==> k in t.overflow && t.overflow[k] == t.m[k]
  }

  ghost predicate Threaded(t: Table, b: nat)
    requires Shape(t) && b < |t.chains|
  {
    var c := t.chains[b];
    && Chain(Links(t.nodes), t.buckets[b], c)
    && NoDup(c)
    && Holds(t.home, c, b as int)
    && t.lens[b] == |c| <= TREEIFY_THRESHOLD
  }

  ghost predicate BucketOk(t: Table, b: nat)
    requires Shape(t) && b < |t.chains|
  {
    && Threaded(t, b)
    && InNodes(t, t.chains[b])
    && (t.states[b] == 0 || t.states[b] == 2)
    && (t.states[b] == 0 ==> Live(t, b, t.chains[b]))
    && (t.states[b] == 2 ==> Moved(t, b))
  }

  ghost predicate Spilled(t: Table)
    requires Shape(t)
  {
    forall k :: k in t.overflow ==>
      && k in t.m
      && HashOf(t.shift, k) < |t.states| && t.states[HashOf(t.shift, k)] == 2
  }

  ghost predicate FreeOk(t: Table) {
    && Chain(Links(t.nodes), t.headIdx, t.free)
    && NoDup(t.free)
    && Holds(t.home, t.free, FREE)
  }

  ghost function SumLen(chains: seq<seq<nat>>): nat {
    if chains == [] then 0 else |chains[0]| + SumLen(chains[1..])
  }

  lemma {:induction false} SumLenUpdate(chains: seq<seq<nat>>, b: nat, c: seq<nat>)
    requires b < |chains|
    ensures SumLen(chains[b := c]) == SumLen(chains) - |chains[b]| + |c|
  {
    if b == 0 {
      assert chains[b := c][1..] == chains[1..];
    } else {
      assert chains[b := c][1..] == chains[1..][b - 1 := c];
      SumLenUpdate(chains[1..], b - 1, c);
    }
  }

  /** Node conservation: every node is free, chained (live or stranded), or in the hands of an operation. */
  ghost predicate Conserved(t: Table, loose: nat) {
    |t.free| + SumLen(t.chains) + loose == |t.nodes|
  }

  ghost predicate TableOk(t: Table) {
    && Shape(t)
    && FreeOk(t)
    && Spilled(t)
    && forall b :: 0 <= b < |t.chains| ==> BucketOk(t, b)
  }

  /** A bucket is untouched by writes to other buckets' nodes and to keys that hash elsewhere. */
  lemma BucketFrame(t: Table, t': Table, b: nat)
    requires Shape(t) && Shape(t') && t'.shift == t.shift && |t'.nodes| == |t.nodes|
    requires b < |t.chains| && BucketOk(t, b)
    requires t'.buckets[b] == t.buckets[b] && t'.lens[b] == t.lens[b]
    requires t'.states[b] == t.states[b] && t'.chains[b] == t.chains[b]
    requires forall y: nat :: y < |t.nodes| ==> (t'.home[y] == b <==> t.home[y] == b)
    requires forall y: nat :: y < |t.nodes| && t.home[y] == b ==> t'.nodes[y] == t.nodes[y]
    requires forall k :: k in t'.m && HashOf(t.shift, k) == b ==> k in t.m
    requires forall k :: k in t.m && HashOf(t.shift, k) == b ==> k in t'.m && t'.m[k] == t.m[k]
    requires forall k :: k in t.overflow && HashOf(t.shift, k) == b ==> k in t'.overflow && t'.overflow[k] == t.overflow[k]
    ensures BucketOk(t', b)
  {
    hide Pow2, HashOf, NoDup, Successor;
    var c := t.chains[b];
    forall i | 0 <= i < |c| ensures t'.nodes[c[i]] == t.nodes[c[i]] {
      assert t.home[c[i]] == b;
    }
    HoldsFrame(t.home, t'.home, c, b);
    ChainFrame(Links(t.nodes), Links(t'.nodes), t.buckets[b], c);
    if t.states[b] == 0 {
      LiveFrame(t, t', b, c);
    }
  }

  lemma LiveFrame(t: Table, t': Table, b: nat, c: seq<nat>)
    requires InNodes(t, c) && t'.shift == t.shift && |t'.nodes| == |t.nodes| && Live(t, b, c)
    requires forall i :: 0 <= i < |c| ==> t'.nodes[c[i]] == t.nodes[c[i]]
    requires forall k :: k in t'.m && HashOf(t.shift, k) == b ==> k in t.m
    requires forall k :: k in t.m && HashOf(t.shift, k) == b ==> k in t'.m && t'.m[k] == t.m[k]
    ensures Live(t', b, c)
  {
    hide Pow2, HashOf;
    forall j | 0 <= j < |c| ensures Entry(t', b, c[j]) {
      assert Entry(t, b, c[j]);
    }
    forall k | k in t'.m && HashOf(t.shift, k) == b ensures InChain(t', c, k) {
      assert InChain(t, c, k);
    }
  }

  // ── what each operation writes ──

  ghost function TakeNode(t: Table): Table
    requires |t.free| > 0 && t.headIdx < |t.nodes| == |t.home|
  {
    t.(headIdx := t.nodes[t.headIdx].nextIdx, free := t.free[1..], home := t.home[t.headIdx := LOOSE])
  }

  lemma TakeNodeOk(t: Table)
    requires TableOk(t) && t.free != []
    ensures t.headIdx < |t.nodes| && t.headIdx == t.free[0] && t.home[t.headIdx] == FREE
    ensures TableOk(TakeNode(t))
  {
    hide Pow2, HashOf, NoDup, Successor, BucketOk;
    var t' := TakeNode(t);
    ChainPop(Links(t.nodes), t.headIdx, t.free);
    NoDupRemove(t.free, 0);
    HoldsRemove(t.home, t.free, FREE, 0, LOOSE);
    assert RemoveAt(t.free, 0) == t.free[1..];
    forall b | 0 <= b < |t.chains| ensures BucketOk(t', b) {
      BucketFrame(t, t', b);
    }
  }

  ghost function GiveNode(t: Table, x: nat): Table
    requires x < |t.nodes| == |t.home| && x <= NIL
  {
    t.(nodes := t.nodes[x := t.nodes[x].(nextIdx := t.headIdx)], headIdx := x, free := [x] + t.free,
       home := t.home[x := FREE])
  }

  lemma GiveNodeOk(t: Table, x: nat)
    requires TableOk(t) && x < |t.nodes| && t.home[x] == LOOSE
    ensures TableOk(GiveNode(t, x))
  {
    hide Pow2, HashOf, NoDup, Chain, Holds, BucketOk;
    var t' := GiveNode(t, x);
    NotHeld(t.home, t.free, FREE, x);
    ChainPush(Links(t.nodes), t.headIdx, t.free, x);
    NoDupPush(t.free, x);
    HoldsPush(t.home, t.free, FREE, x);
    assert Links(t'.nodes) == Links(t.nodes)[x := t.headIdx];
    forall b | 0 <= b < |t.chains| ensures BucketOk(t', b) {
      BucketFrame(t, t', b);
    }
  }

  ghost function PushEntry(t: Table, b: nat, x: nat, id: u64, order: u32): Table
    requires Shape(t) && b < |t.chains| && x < |t.nodes| && b < TWO32 && t.lens[b] < TREEIFY_THRESHOLD
  {
    t.(nodes := t.nodes[x := Node(id, order, t.buckets[b], b)], buckets := t.buckets[b := x],
       lens := t.lens[b := t.lens[b] + 1], chains := t.chains[b := [x] + t.chains[b]],
       home := t.home[x := b as int], m := t.m[id := order])
  }

  lemma PushLive(t: Table, b: nat, x: nat, id: u64, order: u32)
    requires Shape(t) && b < |t.chains| && x < |t.nodes| && b < TWO32 && t.lens[b] < TREEIFY_THRESHOLD
    requires InNodes(t, t.chains[b]) && Live(t, b, t.chains[b])
    requires x !in t.chains[b] && HashOf(t.shift, id) == b && id !in t.m
    ensures InNodes(PushEntry(t, b, x, id, order), [x] + t.chains[b])
    ensures Live(PushEntry(t, b, x, id, order), b, [x] + t.chains[b])
  {
    hide Pow2, HashOf;
    var t', c, c' := PushEntry(t, b, x, id, order), t.chains[b], [x] + t.chains[b];
    forall j | 0 <= j < |c'| ensures Entry(t', b, c'[j]) {
      if j > 0 {
        assert c'[j] == c[j - 1] && Entry(t, b, c[j - 1]);
      }
    }
    forall i, j | 0 <= i < j < |c'| ensures t'.nodes[c'[i]].orderId != t'.nodes[c'[j]].orderId {
      assert c'[j] == c[j - 1] && Entry(t, b, c[j - 1]);
      assert i > 0 ==> c'[i] == c[i - 1];
    }
    forall k | k in t'.m && HashOf(t.shift, k) == b ensures InChain(t', c', k) {
      if k == id {
        assert t'.nodes[c'[0]].orderId == k;
      } else {
        assert InChain(t, c, k);
        var j :| 0 <= j < |c| && t.nodes[c[j]].orderId == k;
        assert c'[j + 1] == c[j];
      }
    }
  }

  lemma PushEntryOk(t: Table, b: nat, x: nat, id: u64, order: u32)
    requires TableOk(t) && b < |t.chains| && x < |t.nodes| && b < TWO32 && t.lens[b] < TREEIFY_THRESHOLD
    requires t.states[b] == 0 && t.home[x] == LOOSE && HashOf(t.shift, id) == b && id !in t.m
    ensures TableOk(PushEntry(t, b, x, id, order))
  {
    hide Pow2, HashOf, NoDup, Chain, Holds, Live, Moved, InNodes;
    var t', c := PushEntry(t, b, x, id, order), t.chains[b];
    assert BucketOk(t, b);
    NotHeld(t.home, c, b as int, x);
    NotHeld(t.home, t.free, FREE, x);
    ChainPush(Links(t.nodes), t.buckets[b], c, x);
    NoDupPush(c, x);
    HoldsPush(t.home, c, b as int, x);
    PushLive(t, b, x, id, order);
    assert Links(t'.nodes) == Links(t.nodes)[x := t.buckets[b]];
    HoldsFrame(t.home, t'.home, t.free, FREE);
    FreeChainFrame(t, t');
    forall b' | 0 <= b' < |t.chains| && b' != b ensures BucketOk(t', b') {
      BucketFrame(t, t', b');
    }
  }

  lemma TableLens(t: Table, b: nat)
    requires TableOk(t) && b < |t.buckets|
    ensures Shape(t) && b < |t.chains| && t.lens[b] == |t.chains[b]|
  {
    hide Live, Moved, Chain, NoDup, Holds, FreeOk, Spilled, HashOf;
    assert BucketOk(t, b);
  }

  lemma PushConserved(t: Table, b: nat, x: nat, id: u64, order: u32)
    requires Shape(t) && b < |t.chains| && x < |t.nodes| && b < TWO32 && t.lens[b] < TREEIFY_THRESHOLD
    requires Conserved(t, 1)
    ensures Conserved(PushEntry(t, b, x, id, order), 0)
  {
    SumLenUpdate(t.chains, b, [x] + t.chains[b]);
  }

  /** The free stack is untouched by writes to nodes that are not on it. */
  lemma FreeChainFrame(t: Table, t': Table)
    requires FreeOk(t) && t'.headIdx == t.headIdx && t'.free == t.free && |t'.nodes| == |t.nodes| == |t.home|
    requires forall y: nat :: y < |t.nodes| && t.home[y] == FREE ==> t'.nodes[y] == t.nodes[y]
    ensures Chain(Links(t'.nodes), t'.headIdx, t'.free)
  {
    hide NoDup, Successor;
    forall i | 0 <= i < |t.free| ensures Links(t'.nodes)[t.free[i]] == Links(t.nodes)[t.free[i]] {
      assert t.home[t.free[i]] == FREE;
    }
    ChainFrame(Links(t.nodes), Links(t'.nodes), t.headIdx, t.free);
  }

  ghost function CutEntry(t: Table, b: nat, j: nat): Table
    requires Shape(t) && b < |t.chains| && j < |t.chains[b]| && InNodes(t, t.chains[b]) && t.lens[b] > 0
  {
    var c := t.chains[b];
    var n := t.nodes[c[j]];
    t.(nodes := if j == 0 then t.nodes else t.nodes[c[j - 1] := t.nodes[c[j - 1]].(nextIdx := n.nextIdx)],
       buckets := if j == 0 then t.buckets[b := n.nextIdx] else t.buckets,
       lens := t.lens[b := t.lens[b] - 1], chains := t.chains[b := RemoveAt(c, j)],
       home := t.home[c[j] := LOOSE], m := t.m - {n.orderId})
  }

  lemma CutChain(t: Table, b: nat, j: nat)
    requires Shape(t) && b < |t.chains| && j < |t.chains[b]| && InNodes(t, t.chains[b]) && t.lens[b] > 0
    requires Chain(Links(t.nodes), t.buckets[b], t.chains[b]) && NoDup(t.chains[b])
    ensures var t' := CutEntry(t, b, j); Chain(Links(t'.nodes), t'.buckets[b], RemoveAt(t.chains[b], j))
  {
    hide Pow2, HashOf, NoDup, Successor;
    var t', c := CutEntry(t, b, j), t.chains[b];
    if j == 0 {
      ChainPop(Links(t.nodes), t.buckets[b], c);
      assert RemoveAt(c, 0) == c[1..];
    } else {
      ChainCut(Links(t.nodes), t.buckets[b], c, j);
      assert Links(t'.nodes) == Links(t.nodes)[c[j - 1] := Links(t.nodes)[c[j]]];
    }
  }

  lemma CutDistinct(t: Table, t': Table, c: seq<nat>, j: nat)
    requires InNodes(t, c) && |t'.nodes| == |t.nodes| && j < |c| && DistinctIds(t, c)
    requires forall y: nat :: y < |t.nodes| ==> t'.nodes[y].orderId == t.nodes[y].orderId
    ensures InNodes(t', RemoveAt(c, j)) && DistinctIds(t', RemoveAt(c, j))
    ensures forall i :: 0 <= i < |c| - 1 ==> t.nodes[RemoveAt(c, j)[i]].orderId != t.nodes[c[j]].orderId
  {
    var c' := RemoveAt(c, j);
    assert forall i :: 0 <= i < |c'| ==> c'[i] == c[if i < j then i else i + 1];
  }

  lemma CutLive(t: Table, b: nat, j: nat)
    requires Shape(t) && b < |t.chains| && j < |t.chains[b]| && InNodes(t, t.chains[b]) && t.lens[b] > 0
    requires Live(t, b, t.chains[b])
    ensures var t', c' := CutEntry(t, b, j), RemoveAt(t.chains[b], j); InNodes(t', c') && Live(t', b, c')
  {
    hide Pow2, HashOf, DistinctIds, InChain;
    var t', c := CutEntry(t, b, j), t.chains[b];
    var c' := RemoveAt(c, j);
    CutDistinct(t, t', c, j);
    forall i | 0 <= i < |c'| ensures Entry(t', b, c'[i]) {
      assert c'[i] == c[if i < j then i else i + 1];
      assert Entry(t, b, c'[i]);
    }
    forall k | k in t'.m && HashOf(t.shift, k) == b ensures InChain(t', c', k) {
      assert InChain(t, c, k);
      CutInChain(t, t', c, j, k);
    }
  }

  lemma CutInChain(t: Table, t': Table, c: seq<nat>, j: nat, k: u64)
    requires InNodes(t, c) && |t'.nodes| == |t.nodes| && j < |c| && InNodes(t', RemoveAt(c, j))
    requires InChain(t, c, k) && t.nodes[c[j]].orderId != k
    requires forall y: nat :: y < |t.nodes| ==> t'.nodes[y].orderId == t.nodes[y].orderId
    ensures InChain(t', RemoveAt(c, j), k)
  {
    var i :| 0 <= i < |c| && t.nodes[c[i]].orderId == k;
    assert RemoveAt(c, j)[if i < j then i else i - 1] == c[i];
  }

  lemma CutEntryOk(t: Table, b: nat, j: nat)
    requires TableOk(t) && b < |t.chains| && t.states[b] == 0 && j < |t.chains[b]|
    ensures InNodes(t, t.chains[b]) && t.lens[b] > 0
    ensures t.nodes[t.chains[b][j]].orderId in t.m
    ensures TableOk(CutEntry(t, b, j))
  {
    hide Pow2, HashOf, NoDup, Chain, InNodes, DistinctIds, InChain;
    var c := t.chains[b];
    assert BucketOk(t, b);
    assert Entry(t, b, c[j]);
    var t' := CutEntry(t, b, j);
    CutBucket(t, b, j);
    assert forall i :: 0 <= i < |c| ==> t.home[c[i]] == b;
    HoldsFrame(t.home, t'.home, t.free, FREE);
    FreeChainFrame(t, t');
    forall b' | 0 <= b' < |t.chains| && b' != b ensures BucketOk(t', b') {
      BucketFrame(t, t', b');
    }
  }

  lemma CutBucket(t: Table, b: nat, j: nat)
    requires Shape(t) && b < |t.chains| && BucketOk(t, b) && t.states[b] == 0 && j < |t.chains[b]|
    ensures InNodes(t, t.chains[b]) && t.lens[b] > 0 && Shape(CutEntry(t, b, j)) && BucketOk(CutEntry(t, b, j), b)
  {
    hide Pow2, HashOf, NoDup, Chain, InNodes, Live;
    var c := t.chains[b];
    CutChain(t, b, j);
    NoDupRemove(c, j);
    HoldsRemove(t.home, c, b as int, j, LOOSE);
    CutLive(t, b, j);
  }

  ghost function Spill(t: Table, id: u64, order: u32): Table {
    t.(overflow := t.overflow[id := order], m := t.m[id := order])
  }

  lemma SpillOk(t: Table, id: u64, order: u32)
    requires TableOk(t) && id !in t.m && HashOf(t.shift, id) < |t.chains| && t.states[HashOf(t.shift, id)] == 2
    ensures TableOk(Spill(t, id, order))
  {
    hide Pow2, HashOf, NoDup, Chain, Holds;
    var t', b := Spill(t, id, order), HashOf(t.shift, id);
    assert BucketOk(t, b);
    forall b' | 0 <= b' < |t.chains| && b' != b ensures BucketOk(t', b') {
      BucketFrame(t, t', b');
    }
  }

  ghost function Unspill(t: Table, id: u64): Table {
    t.(overflow := t.overflow - {id}, m := t.m - {id})
  }

  lemma UnspillOk(t: Table, id: u64)
    requires TableOk(t) && id in t.overflow
    ensures id in t.m && TableOk(Unspill(t, id))
  {
    hide Pow2, HashOf, NoDup, Chain, Holds;
    var t', b := Unspill(t, id), HashOf(t.shift, id);
    assert BucketOk(t, b);
    forall b' | 0 <= b' < |t.chains| && b' != b ensures BucketOk(t', b') {
      BucketFrame(t, t', b');
    }
  }

  /** The bindings held by the first n nodes of a chain. */
  ghost function ChainMap(nodes: seq<Node>, c: seq<nat>, n: nat): map<u64, u32>
    requires n <= |c| && forall j :: 0 <= j < |c| ==> c[j] < |nodes|
  {
    if n == 0 then map[] else ChainMap(nodes, c, n - 1)[nodes[c[n - 1]].orderId := nodes[c[n - 1]].order]
  }

  lemma {:induction false} ChainMapOf(t: Table, b: nat, n: nat)
    requires Shape(t) && b < |t.chains| && InNodes(t, t.chains[b]) && Live(t, b, t.chains[b]) && n <= |t.chains[b]|
    ensures var cm := ChainMap(t.nodes, t.chains[b], n);
      && (forall k :: k in cm ==> k in t.m && cm[k] == t.m[k] && HashOf(t.shift, k) == b)
      && (forall j :: 0 <= j < n ==> t.nodes[t.chains[b][j]].orderId in cm)
  {
    hide Pow2, HashOf, DistinctIds, InChain;
    if n > 0 {
      ChainMapOf(t, b, n - 1);
      assert Entry(t, b, t.chains[b][n - 1]);
    }
  }

  lemma PlusUpdate(a: map<u64, u32>, b: map<u64, u32>, k: u64, v: u32)
    ensures (a + b)[k := v] == a + b[k := v]
  {
  }

  ghost function Treeified(t: Table, b: nat): Table
    requires Shape(t) && b < |t.chains| && InNodes(t, t.chains[b])
  {
    t.(states := t.states[b := 2], overflow := t.overflow + ChainMap(t.nodes, t.chains[b], |t.chains[b]|))
  }

  /** Migration moves every binding of the bucket and forgets none. */
  lemma TreeifiedOk(t: Table, b: nat)
    requires TableOk(t) && b < |t.chains| && t.states[b] == 0
    ensures InNodes(t, t.chains[b]) && TableOk(Treeified(t, b))
  {
    hide Pow2, HashOf, NoDup, Chain, Holds, DistinctIds;
    assert BucketOk(t, b);
    var t', c := Treeified(t, b), t.chains[b];
    ChainMapOf(t, b, |c|);
    forall k | k in t.m && HashOf(t.shift, k) == b ensures k in t'.overflow && t'.overflow[k] == t.m[k] {
      assert InChain(t, c, k);
    }
    forall b' | 0 <= b' < |t.chains| && b' != b ensures BucketOk(t', b') {
      BucketFrame(t, t', b');
    }
  }

  lemma {:induction false} SumLenEmpty(chains: seq<seq<nat>>)
    requires forall i :: 0 <= i < |chains| ==> chains[i] == []
    ensures SumLen(chains) == 0
  {
    if chains != [] {
      SumLenEmpty(chains[1..]);
    }
  }

  /** The facts about one key's bucket that lookups and updates need. */
  lemma BucketOf(t: Table, id: u64)
    requires TableOk(t)
    ensures HashOf(t.shift, id) < |t.chains|
    ensures BucketOk(t, HashOf(t.shift, id))
  {
    hide Pow2, HashOf, BucketOk, Spilled, FreeOk;
    HashInRange(64 - t.shift, id);
  }

  /** A live bucket's chain is linked from its head and holds every bound id that hashes to it. */
  lemma LiveChain(t: Table, b: nat, id: u64)
    requires Shape(t) && b < |t.chains| && b < |t.states| && BucketOk(t, b) && t.states[b] == 0 && HashOf(t.shift, id) == b
    ensures b < |t.buckets| && |t.nodes| <= NIL && Chain(Links(t.nodes), t.buckets[b], t.chains[b])
    ensures id in t.m ==> exists j :: 0 <= j < |t.chains[b]| && t.chains[b][j] < |t.nodes| && t.nodes[t.chains[b][j]].orderId == id
    ensures forall j :: 0 <= j < |t.chains[b]| ==> t.chains[b][j] < |t.nodes| && t.nodes[t.chains[b][j]].orderId in t.m
  {
    hide Pow2, HashOf, Chain, NoDup;
    forall j | 0 <= j < |t.chains[b]| ensures t.chains[b][j] < |t.nodes| && t.nodes[t.chains[b][j]].orderId in t.m {
      assert Entry(t, b, t.chains[b][j]);
    }
    if id in t.m {
      assert InChain(t, t.chains[b], id);
    }
  }

  lemma RoundPow2Bound(capacity: nat, e: nat)
    requires 2 <= capacity <= 0x8000_0000 && (e > 0 ==> Pow2(e - 1) < capacity)
    ensures e <= 31 && Pow2(e) <= 0x8000_0000
  {
    Pow2Small();
    hide Pow2;
    Pow2Add(8, 8);
    Pow2Add(16, 15);
    Pow2Add(8, 7);
    if e > 31 {
      Pow2Mono(31, e - 1);
    } else {
      Pow2Mono(e, 31);
    }
  }

  lemma {:induction false} Pow2Mono(a: nat, b: nat)
    requires a <= b
    ensures Pow2(a) <= Pow2(b)
  {
    if a < b {
      Pow2Mono(a, b - 1);
    }
  }

  /** All nodes, in index order. */
  ghost function AllNodes(n: nat): (r: seq<nat>)
    ensures |r| == n && forall i :: 0 <= i < n ==> r[i] == i
  {
    seq(n, i => i)
  }

  ghost function EachFree(n: nat): (r: seq<int>)
    ensures |r| == n && forall i :: 0 <= i < n ==> r[i] == FREE
  {
    seq(n, _ => FREE)
  }

  lemma EmptyTableOk(t: Table)
    requires Shape(t) && |t.nodes| > 0 && t.headIdx == 0 && t.m == map[] && t.overflow == map[]
    requires t.free == AllNodes(|t.nodes|) && t.home == EachFree(|t.nodes|)
    requires forall i :: 0 <= i < |t.nodes| ==> t.nodes[i].nextIdx == if i < |t.nodes| - 1 then i + 1 else NIL
    requires forall b :: 0 <= b < |t.chains| ==>
               t.chains[b] == [] && t.states[b] == 0 && t.lens[b] == 0 && t.buckets[b] == NIL
    ensures TableOk(t) && Conserved(t, 0)
  {
    hide Pow2, HashOf;
    SumLenEmpty(t.chains);
    forall y: nat | y < |t.nodes| ensures y in t.free {
      assert t.free[y] == y;
    }
  }

  // ── node accounting ──

  /** Nodes chained in the live buckets below n. */
  ghost function LiveNodes(t: Table, n: nat): nat
    requires |t.states| == |t.chains| && n <= |t.chains|
  {
    if n == 0 then 0 else LiveNodes(t, n - 1) + if t.states[n - 1] == 0 then |t.chains[n - 1]| else 0
  }

  /** Nodes left behind in the treeified buckets below n. */
  ghost function StrandedNodes(t: Table, n: nat): nat
    requires |t.states| == |t.chains| && n <= |t.chains|
  {
    if n == 0 then 0 else StrandedNodes(t, n - 1) + if t.states[n - 1] == 0 then 0 else |t.chains[n - 1]|
  }

  lemma {:induction false} SumLenSplit(t: Table, n: nat)
    requires |t.states| == |t.chains| && n <= |t.chains|
    ensures SumLen(t.chains[..n]) == LiveNodes(t, n) + StrandedNodes(t, n)
  {
    if n > 0 {
      SumLenSplit(t, n - 1);
      SumLenSnoc(t.chains[..n - 1], t.chains[n - 1]);
      assert t.chains[..n - 1] + [t.chains[n - 1]] == t.chains[..n];
    }
  }

  lemma {:induction false} SumLenSnoc(chains: seq<seq<nat>>, c: seq<nat>)
    ensures SumLen(chains + [c]) == SumLen(chains) + |c|
  {
    if chains != [] {
      assert (chains + [c])[1..] == chains[1..] + [c];
      SumLenSnoc(chains[1..], c);
    } else {
      assert chains + [c] == [c];
    }
  }

  ghost function ChainKeys(t: Table, c: seq<nat>): set<u64>
    requires InNodes(t, c)
  {
    set j | 0 <= j < |c| :: t.nodes[c[j]].orderId
  }

  lemma {:induction false} ChainKeysCard(t: Table, c: seq<nat>)
    requires InNodes(t, c) && DistinctIds(t, c)
    ensures |ChainKeys(t, c)| == |c|
  {
    if c != [] {
      var c', id := c[..|c| - 1], t.nodes[c[|c| - 1]].orderId;
      ChainKeysCard(t, c');
      assert ChainKeys(t, c) == ChainKeys(t, c') + {id} && id !in ChainKeys(t, c');
    }
  }

  /** Keys bound in the live buckets below n. */
  ghost function LiveKeys(t: Table, n: nat): set<u64>
    requires Shape(t)
  {
    set k | k in t.m && HashOf(t.shift, k) < n && HashOf(t.shift, k) < |t.states| && t.states[HashOf(t.shift, k)] == 0
  }

  lemma {:induction false} LiveKeysCard(t: Table, n: nat)
    requires TableOk(t) && n <= |t.chains|
    ensures |LiveKeys(t, n)| == LiveNodes(t, n)
  {
    hide Pow2, HashOf, NoDup, Chain, Holds, Moved, Spilled, FreeOk;
    if n > 0 {
      LiveKeysCard(t, n - 1);
      assert BucketOk(t, n - 1);
      if t.states[n - 1] == 0 {
        var c := t.chains[n - 1];
        ChainKeysCard(t, c);
        LiveStep(t, n);
      } else {
        assert LiveKeys(t, n) == LiveKeys(t, n - 1);
      }
    }
  }

  lemma LiveStep(t: Table, n: nat)
    requires Shape(t) && 0 < n <= |t.chains| && t.states[n - 1] == 0
    requires InNodes(t, t.chains[n - 1]) && Live(t, n - 1, t.chains[n - 1])
    ensures LiveKeys(t, n) == LiveKeys(t, n - 1) + ChainKeys(t, t.chains[n - 1])
    ensures LiveKeys(t, n - 1) !! ChainKeys(t, t.chains[n - 1])
  {
    hide Pow2, HashOf, DistinctIds;
    var c := t.chains[n - 1];
    forall k ensures k in ChainKeys(t, c) <==> k in t.m && HashOf(t.shift, k) == n - 1 {
      if k in ChainKeys(t, c) {
        var j :| 0 <= j < |c| && t.nodes[c[j]].orderId == k;
        assert Entry(t, n - 1, c[j]);
      }
      if k in t.m && HashOf(t.shift, k) == n - 1 {
        assert InChain(t, c, k);
      }
    }
  }

  /** Conservation of nodes, and what the table's size counts. */
  lemma NodeAccounting(t: Table)
    requires TableOk(t) && Conserved(t, 0)
    ensures |t.free| + LiveNodes(t, |t.chains|) + StrandedNodes(t, |t.chains|) == |t.nodes|
    ensures |t.m| == LiveNodes(t, |t.chains|) + |t.overflow|
  {
    hide Pow2, HashOf, FreeOk, Live, LiveKeys, BucketOk;
    var n := |t.chains|;
    SumLenSplit(t, n);
    assert t.chains[..n] == t.chains;
    LiveKeysCard(t, n);
    KeysSplit(t);
    assert |t.m| == |t.m.Keys| && |t.overflow| == |t.overflow.Keys|;
  }

  /** Every bound key is in a live chain or in the overflow map, never both. */
  lemma KeysSplit(t: Table)
    requires TableOk(t)
    ensures t.m.Keys == LiveKeys(t, |t.chains|) + t.overflow.Keys && LiveKeys(t, |t.chains|) !! t.overflow.Keys
  {
    hide Pow2, HashOf, FreeOk, Live;
    forall k | k in t.m && k !in LiveKeys(t, |t.chains|) ensures k in t.overflow {
      BucketOf(t, k);
    }
  }

  lemma {:induction false} NoneStranded(t: Table, n: nat)
    requires |t.states| == |t.chains| && n <= |t.chains|
    requires forall b :: 0 <= b < |t.states| ==> t.states[b] == 0
    ensures StrandedNodes(t, n) == 0
  {
    if n > 0 {
      NoneStranded(t, n - 1);
    }
  }

  /** With no treeified bucket, a node is free as long as fewer keys are bound than there are nodes. */
  lemma RoomWithoutTrees(t: Table)
    requires TableOk(t) && Conserved(t, 0)
    requires forall b :: 0 <= b < |t.states| ==> t.states[b] == 0
    requires |t.m| < |t.nodes|
    ensures t.free != []
  {
    hide Pow2, HashOf, BucketOk, FreeOk;
    NodeAccounting(t);
    NoneStranded(t, |t.chains|);
  }

  /** A node array whose free stack runs through it in index order. */
  method ThreadedNodes(capacity: nat) returns (nodes: array<Node>)
    requires 0 < capacity < NIL
    ensures fresh(nodes) && nodes.Length == capacity
    ensures forall i :: 0 <= i < capacity ==> nodes[i].nextIdx == if i < capacity - 1 then i + 1 else NIL
  {
    nodes := new Node[capacity](i => Node(0, 0, NIL, 0));
    for i := 0 to capacity - 1
      invariant forall j :: 0 <= j < capacity ==> nodes[j].nextIdx == if j < i then j + 1 else NIL
    {
      nodes[i] := nodes[i].(nextIdx := i + 1);
    }
  }

  class OrderMap {
    const nodes: array<Node>
    const buckets: array<u32>
    const bucketLen: array<u16>
    const states: array<u8>
    const shift: nat
    var overflow: map<u64, u32>
    var headIdx: u32
    var headTag: u32
    var size: nat
    ghost var free: seq<nat>
    ghost var chains: seq<seq<nat>>
    ghost var home: seq<int>
    ghost var m: map<u64, u32>

    ghost function Snap(): Table
      reads this, nodes, buckets, bucketLen, states
    {
      Table(shift, nodes[..], buckets[..], bucketLen[..], states[..], overflow, headIdx, free, chains, home, m)
    }

    ghost function Repr(): set<object> {
      {this, nodes, buckets, bucketLen, states}
    }

    /** What decides the answers. */
    ghost function Value(): Index
      reads this, bucketLen, states
    {
      Index(shift, m.Keys, bucketLen[..], states[..], |free|, headTag)
    }

    /** No bucket has been treeified. */
    ghost predicate NoTrees()
      reads states
    {
      forall b :: 0 <= b < states.Length ==> states[b] == 0
    }

    ghost predicate Apart() {
      && buckets as object != bucketLen as object
      && buckets as object != states as object
      && bucketLen as object != states as object
      && nodes as object != buckets as object
      && nodes as object != bucketLen as object
      && nodes as object != states as object
    }

    /** Everything but the length bound of live chains, with `loose` nodes in the hands of an operation. */
    ghost predicate Core(loose: nat)
      reads this, nodes, buckets, bucketLen, states
    {
      && Apart()
      && TableOk(Snap())
      && Conserved(Snap(), loose)
      && size == |m|
      && buckets.Length <= TWO32
    }

    /** Chain-state buckets stay below the threshold. */
    ghost predicate Short()
      reads this, states
    {
      forall b :: 0 <= b < states.Length && b < |chains| && states[b] == 0 ==> |chains[b]| < TREEIFY_THRESHOLD
    }

    ghost predicate Valid()
      reads this, nodes, buckets, bucketLen, states
    {
      Core(0) && Short()
    }

    /** Every node on the free stack, every bucket an empty chain. */
    constructor (capacity: nat)
      requires 2 <= capacity <= 0x8000_0000
      ensures Valid() && fresh(Repr()) && m == map[] && nodes.Length == capacity
      ensures NoTrees() && free == AllNodes(capacity) && Value() == NewIndex(capacity)
    {
      hide Pow2, HashOf, TableOk, Conserved, BitsFrom, NewIndex, Links, AllNodes, EachFree;
      var p, e := RoundPow2(capacity);
      RoundPow2Bound(capacity, e);
      var ns := ThreadedNodes(capacity);
      nodes := ns;
      buckets := new u32[p](i => NIL);
      bucketLen := new u16[p](i => 0);
      states := new u8[p](i => 0);
      shift := 64 - e;
      overflow, headIdx, headTag, size := map[], 0, 0, 0;
      free := AllNodes(capacity);
      chains := seq(p, i => []);
      home := EachFree(capacity);
      m := map[];
      new;
      assert Shape(Snap());
      EmptyTableOk(Snap());
      NewIndexIs(Value(), capacity, e);
    }

    /** So the answers are those of a table with a bucket for every hash. */
    lemma ValueSized()
      requires Valid()
      ensures Sized(Value())
    {
      hide Pow2, HashOf, BucketOk, FreeOk, Spilled, SumLen;
    }

    function Hash(id: u64): nat {
      HashOf(shift, id)
    }

    /** allocNode: pop the free stack. */
    method AllocNode() returns (idx: u32)
      requires Core(0)
      modifies this`headIdx, this`headTag, this`free, this`home
      ensures old(free) == [] ==> idx == NIL && Core(0) && unchanged(this)
      ensures old(free) != [] ==>
                && Core(1) && idx == old(free)[0] < nodes.Length && home == old(home)[idx := LOOSE]
                && free == old(free)[1..] && headTag == Wrap32(old(headTag) + 1)
    {
      hide Pow2, HashOf, BucketOk, Spilled, SumLen, Successor, NoDup, Holds;
      if headIdx == NIL {
        return NIL;
      }
      ghost var t := Snap();
      TakeNodeOk(t);
      idx := headIdx;
      headIdx, headTag := nodes[idx].nextIdx, Wrap32(headTag + 1);
      free, home := free[1..], home[idx := LOOSE];
      assert Snap() == TakeNode(t);
    }

    /** freeNode: push the free stack. */
    method FreeNode(idx: u32)
      requires Core(1) && idx < nodes.Length && home[idx] == LOOSE
      modifies this`headIdx, this`headTag, this`free, this`home, nodes
      ensures Core(0)
      ensures free == [idx as nat] + old(free) && home == old(home)[idx := FREE] && headTag == Wrap32(old(headTag) + 1)
    {
      hide Pow2, HashOf, BucketOk, Spilled, SumLen, FreeOk;
      ghost var t := Snap();
      GiveNodeOk(t, idx);
      nodes[idx] := nodes[idx].(nextIdx := headIdx);
      headIdx, headTag := idx, Wrap32(headTag + 1);
      free, home := [idx as nat] + free, home[idx := FREE];
      assert Snap() == GiveNode(t, idx);
    }
  
    /** Copy every binding of a chain into the overflow map. */
    method CopyChain(b: nat, ghost c: seq<nat>)
      requires b < buckets.Length && Chain(Links(nodes[..]), buckets[b], c) && nodes.Length <= NIL
      requires forall j :: 0 <= j < |c| ==> c[j] < nodes.Length
      modifies this`overflow
      ensures overflow == old(overflow) + ChainMap(nodes[..], c, |c|)
    {
      hide Successor;
      ghost var j := 0;
      var cur := buckets[b];
      while cur != NIL
        invariant 0 <= j <= |c|
        invariant cur == if j < |c| then c[j] else NIL
        invariant overflow == old(overflow) + ChainMap(nodes[..], c, j)
        decreases |c| - j
      {
        ChainStep(Links(nodes[..]), buckets[b], c, j);
        PlusUpdate(old(overflow), ChainMap(nodes[..], c, j), nodes[cur].orderId, nodes[cur].order);
        overflow := overflow[nodes[cur].orderId := nodes[cur].order];
        cur, j := nodes[cur].nextIdx, j + 1;
      }
    }

    /** Move a bucket to the overflow map and mark it treeified. */
    method Treeify(b: nat)
      requires Core(0) && b < states.Length && states[b] == 0
      modifies this`overflow, states
      ensures Core(0) && states[..] == old(states[..])[b := 2]
    {
      hide Pow2, HashOf, Spilled, SumLen, FreeOk, Live, Moved, NoDup, Holds, Chain;
      ghost var t := Snap();
      assert BucketOk(t, b);
      TreeifiedOk(t, b);
      CopyChain(b, chains[b]);
      states[b] := 2;
      assert Snap() == Treeified(t, b);
    }

    method Find(id: u64) returns (r: Option<u32>)
      requires Valid()
      ensures r == if id in m then Some(m[id]) else None
    {
      hide Pow2, HashOf, SumLen, FreeOk, NoDup, Successor;
      ghost var t := Snap();
      BucketOf(t, id);
      var b := Hash(id);
      if states[b] != 0 {
        return if id in overflow then Some(overflow[id]) else None;
      }
      ghost var c, j := chains[b], 0;
      var idx := buckets[b];
      while idx != NIL
        invariant 0 <= j <= |c|
        invariant idx == if j < |c| then c[j] else NIL
        invariant forall i :: 0 <= i < j ==> nodes[c[i]].orderId != id
        decreases |c| - j
      {
        assert Entry(t, b, c[j]);
        if nodes[idx].orderId == id {
          return Some(nodes[idx].order);
        }
        ChainStep(Links(nodes[..]), buckets[b], c, j);
        idx, j := nodes[idx].nextIdx, j + 1;
      }
      assert id in m ==> InChain(t, c, id);
      return None;
    }
  
    /** The overflow branch of insert. */
    method PutOverflow(id: u64, order: u32)
      requires Core(0) && id !in m && Hash(id) < states.Length && states[Hash(id)] == 2
      modifies this`overflow, this`size, this`m
      ensures Core(0) && m == old(m)[id := order]
    {
      hide Pow2, HashOf, BucketOk, Spilled, SumLen, FreeOk;
      ghost var t := Snap();
      SpillOk(t, id, order);
      overflow := overflow[id := order];
      size := size + 1;
      m := m[id := order];
      assert Snap() == Spill(t, id, order);
    }

    /** The chain branch of insert: link a loose node in front of its bucket. */
    method PushChain(b: nat, idx: u32, id: u64, order: u32)
      requires Core(1) && Short() && id !in m && b == Hash(id) < buckets.Length && states[b] == 0
      requires idx < nodes.Length && home[idx] == LOOSE
      modifies this`size, this`chains, this`home, this`m, nodes, buckets, bucketLen
      ensures Core(0) && m == old(m)[id := order]
      ensures chains == old(chains)[b := [idx as nat] + old(chains)[b]] && bucketLen[b] == |chains[b]|
      ensures Value() == WithLen(old(Value()), b, 1).(keys := old(m.Keys) + {id})
    {
      hide TableOk, Conserved, HashOf;
      ghost var t := Snap();
      TableLens(t, b);
      PushEntryOk(t, b, idx, id, order);
      PushConserved(t, b, idx, id, order);
      nodes[idx] := Node(id, order, buckets[b], b);
      buckets[b] := idx;
      bucketLen[b] := bucketLen[b] + 1;
      size := size + 1;
      chains, home, m := chains[b := [idx as nat] + chains[b]], home[idx := b as int], m[id := order];
      assert Snap() == PushEntry(t, b, idx, id, order);
    }

    /** The chain branch of insert: take a node, push it, and migrate a bucket that has grown to the threshold. */
    method InsertNode(b: nat, id: u64, order: u32) returns (ok: bool)
      requires Valid() && id !in m && b == Hash(id) < |chains| && b < buckets.Length && b < bucketLen.Length
      requires b < states.Length && states[b] == 0 && |home| == nodes.Length <= NIL
      requires bucketLen[b] < TREEIFY_THRESHOLD && (headTag != 0 || free != [])
      modifies this, nodes, buckets, bucketLen, states
      ensures Valid() && Value() == Bind(old(Value()), id) && ok == Accepts(old(Value()), id)
      ensures ok ==> m == old(m)[id := order]
      ensures !ok ==> unchanged(this, nodes, buckets, bucketLen, states)
      ensures ok <==> old(free) != []
    {
      hide TableOk, Conserved, HashOf, Accepts, Bind;
      BindNode(Value(), b, id);
      var idx := AllocNode();
      if idx == NIL {
        return false;
      }
      PushChain(b, idx, id, order);
      SpillLong(b);
      return true;
    }

    /** A chain that has grown to the threshold moves to the overflow map. */
    method SpillLong(b: nat)
      requires Core(0) && b < |chains| && b < states.Length && b < bucketLen.Length && states[b] == 0
      requires bucketLen[b] == |chains[b]|
      requires forall i :: 0 <= i < states.Length && i < |chains| && i != b && states[i] == 0 ==>
                 |chains[i]| < TREEIFY_THRESHOLD
      modifies this`overflow, states
      ensures Valid()
      ensures Value() == if old(bucketLen[b]) >= TREEIFY_THRESHOLD
                         then old(Value()).(states := old(Value()).states[b := 2]) else old(Value())
    {
      hide TableOk, Conserved;
      if bucketLen[b] >= TREEIFY_THRESHOLD {
        Treeify(b);
      }
    }

    /**
      Bind a fresh id. The insert is refused only when its bucket is a chain, the node pool is exhausted and
      the stack tag is non-zero: the test for exhaustion compares the whole tagged head with UINT32_MAX.
     */
    method Insert(id: u64, order: u32) returns (ok: bool)
      requires Valid() && id !in m
      modifies this, nodes, buckets, bucketLen, states
      ensures Valid() && Value() == Bind(old(Value()), id) && ok == Accepts(old(Value()), id)
      ensures ok ==> m == old(m)[id := order]
      ensures !ok ==> unchanged(this, nodes, buckets, bucketLen, states)
      ensures !ok <==> old(Hash(id) < states.Length && states[Hash(id)] == 0 && free == [] && headTag != 0)
    {
      hide Pow2, HashOf, Spilled, SumLen, Live, Moved, NoDup, Holds, Successor, WithLen, Accepts, Bind;
      BucketOf(Snap(), id);
      var b := Hash(id);
      if states[b] != 0 || bucketLen[b] >= TREEIFY_THRESHOLD || (headTag == 0 && headIdx == NIL) {
        InsertOverflow(b, id, order);
        return true;
      }
      ok := InsertNode(b, id, order);
    }

    /** The overflow branches of insert: a treeified bucket, or one to be treeified first. */
    method InsertOverflow(b: nat, id: u64, order: u32)
      requires Valid() && id !in m && b == Hash(id) < states.Length && b < bucketLen.Length && states[b] <= 2 && states[b] != 1
      requires states[b] != 0 || bucketLen[b] >= TREEIFY_THRESHOLD || (headTag == 0 && free == [])
      modifies this`overflow, this`size, this`m, states
      ensures Valid() && m == old(m)[id := order]
      ensures Value() == Bind(old(Value()), id) && Accepts(old(Value()), id)
    {
      hide TableOk, Conserved, HashOf, Bind, Accepts;
      BindOverflow(Value(), b, id);
      if states[b] == 0 {
        Treeify(b);
      }
      PutOverflow(id, order);
    }

    /** Unlink position j of a live chain; prev is its predecessor, unused at the head. */
    method Unlink(b: nat, prev: u32, idx: u32, atHead: bool, ghost j: nat)
      requires Core(0) && b < buckets.Length && states[b] == 0 && j < |chains[b]|
      requires idx == chains[b][j] && idx < nodes.Length && prev < nodes.Length
      requires atHead == (j == 0) && (j > 0 ==> prev == chains[b][j - 1])
      modifies this`m, this`chains, this`size, this`home, nodes, buckets, bucketLen
      ensures Core(1) && home[idx] == LOOSE
      ensures m == old(m) - {old(nodes[idx].orderId)}
      ensures chains == old(chains)[b := RemoveAt(old(chains)[b], j)]
      ensures Value() == WithLen(old(Value()), b, -1).(keys := old(m.Keys) - {old(nodes[idx].orderId)})
    {
      hide Pow2, HashOf, Spilled, SumLen, FreeOk, Live, Moved, Chain, NoDup, Holds, BucketOk;
      ghost var t := Snap();
      CutEntryOk(t, b, j);
      SumLenUpdate(chains, b, RemoveAt(chains[b], j));
      m, chains := m - {nodes[idx].orderId}, chains[b := RemoveAt(chains[b], j)];
      if atHead {
        buckets[b] := nodes[idx].nextIdx;
      } else {
        nodes[prev] := nodes[prev].(nextIdx := nodes[idx].nextIdx);
      }
      bucketLen[b] := bucketLen[b] - 1;
      size := size - 1;
      home := home[idx := LOOSE];
      assert Snap() == CutEntry(t, b, j);
    }

    /** Unlink a node and return it to the free stack. */
    method DropNode(b: nat, prev: u32, idx: u32, atHead: bool, ghost j: nat)
      requires Valid() && b < buckets.Length && b < |chains| && states[b] == 0 && j < |chains[b]|
      requires idx == chains[b][j] && idx < nodes.Length && prev < nodes.Length
      requires atHead == (j == 0) && (j > 0 ==> prev == chains[b][j - 1])
      modifies this, nodes, buckets, bucketLen
      ensures Valid() && m == old(m) - {old(nodes[idx].orderId)} && |free| == |old(free)| + 1
      ensures Value() == WithLen(old(Value()), b, -1).(keys := old(m.Keys) - {old(nodes[idx].orderId)},
                free := |old(free)| + 1, tag := Wrap32(old(headTag) + 1))
    {
      hide TableOk, Conserved, WithLen;
      Unlink(b, prev, idx, atHead, j);
      FreeNode(idx);
    }

    /** The overflow branch of erase. */
    method EraseOverflow(id: u64)
      requires Valid() && Hash(id) < |chains| && BucketOk(Snap(), Hash(id)) && states[Hash(id)] != 0
      modifies this`overflow, this`size, this`m
      ensures Valid() && m == old(m) - {id} && Value() == Unbind(old(Value()), id)
    {
      hide Pow2, HashOf, SumLen, FreeOk, NoDup, Successor, Live, Unbind;
      ghost var t := Snap();
      UnbindOverflow(Value(), Hash(id), id);
      if id in overflow {
        UnspillOk(t, id);
        overflow := overflow - {id};
        size := size - 1;
        m := m - {id};
        assert Snap() == Unspill(t, id);
      }
    }

    /** The chain branch of erase: the head node, or one found further along. */
    method EraseChain(b: nat, id: u64)
      requires Valid() && b == Hash(id) < |chains| && BucketOk(Snap(), b) && states[b] == 0
      modifies this, nodes, buckets, bucketLen
      ensures Valid() && m == old(m) - {id} && Value() == Unbind(old(Value()), id)
    {
      hide Pow2, HashOf, SumLen, FreeOk, NoDup, Successor, Conserved, Short, Spilled, Threaded, Live, Moved, WithLen, Unbind;
      ghost var t, c := Snap(), chains[b];
      UnbindNode(Value(), b, id);
      LiveChain(t, b, id);
      var idx := buckets[b];
      if idx == NIL {
        return;
      }
      if nodes[idx].orderId == id {
        DropNode(b, idx, idx, true, 0);
        return;
      }
      var next := FindAfter(b, idx, id, c);
      if next.Some? {
        var (prev, found) := next.value;
        ghost var j :| 0 < j < |c| && c[j] == found && c[j - 1] == prev;
        DropNode(b, prev, found, false, j);
      }
    }

    /** Unbind an id; an absent id changes nothing. */
    method Erase(id: u64)
      requires Valid()
      modifies this, nodes, buckets, bucketLen
      ensures Valid() && m == old(m) - {id} && Value() == Unbind(old(Value()), id)
    {
      hide Pow2, HashOf, SumLen, FreeOk, BucketOk, Short, Conserved, Unbind;
      BucketOf(Snap(), id);
      var b := Hash(id);
      if states[b] != 0 {
        EraseOverflow(id);
      } else {
        EraseChain(b, id);
      }
    }

    /** The mid-chain search of erase: the predecessor of the node with this id, and that node. */
    method FindAfter(b: nat, head: u32, id: u64, ghost c: seq<nat>) returns (r: Option<(u32, u32)>)
      requires b < buckets.Length && Chain(Links(nodes[..]), head, c) && nodes.Length <= NIL
      requires head != NIL && nodes[head].orderId != id
      ensures r.None? ==> forall j :: 0 <= j < |c| ==> nodes[c[j]].orderId != id
      ensures r.Some? ==> exists j :: 0 < j < |c| && c[j] == r.value.1 && c[j - 1] == r.value.0 && nodes[c[j]].orderId == id
    {
      hide Successor;
      var idx := head;
      ghost var j := 0;
      while idx != NIL
        invariant 0 <= j < |c| && idx == c[j]
        invariant forall i :: 0 <= i <= j ==> nodes[c[i]].orderId != id
        decreases |c| - j
      {
        ChainStep(Links(nodes[..]), head, c, j);
        var next := nodes[idx].nextIdx;
        if next == NIL {
          return None;
        }
        if nodes[next].orderId == id {
          assert c[j + 1] == next && c[j + 1 - 1] == idx;
          return Some((idx, next));
        }
        idx, j := next, j + 1;
      }
    }
  }
}
