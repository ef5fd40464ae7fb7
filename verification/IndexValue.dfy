/** What the order index is, as far as its answers go: hashing, buckets and free nodes, without the node array. */
module IndexValue {
  import opened Types

  const TREEIFY_THRESHOLD: nat := 8
  const GOLDEN: u64 := 0x9E37_79B9_7F4A_7C15

  // ── hashing ──

  function Pow2(k: nat): (r: nat)
    ensures r > 0
  {
    if k == 0 then 1 else 2 * Pow2(k - 1)
  }

  lemma {:induction false} Pow2Add(a: nat, b: nat)
    ensures Pow2(a + b) == Pow2(a) * Pow2(b)
  {
    if a > 0 {
      Pow2Add(a - 1, b);
    }
  }

  lemma Pow2Small()
    ensures Pow2(7) == 128 && Pow2(8) == 256
  {
    assert Pow2(4) == 16;
  }

  lemma Pow2Of64()
    ensures Pow2(64) == TWO64
  {
    Pow2Small();
    hide Pow2;
    Pow2Add(8, 8);
    Pow2Add(16, 16);
    Pow2Add(32, 32);
  }

  function Quotient(x: nat, d: nat): nat
    requires d > 0
  {
    x / d
  }

  function ShiftRight(x: nat, k: nat): nat {
    Quotient(x, Pow2(k))
  }

  function Mix(id: u64): u64 {
    Wrap64(id * GOLDEN)
  }

  function HashOf(shift: nat, id: u64): nat {
    ShiftRight(Mix(id), shift)
  }

  lemma DivBound(x: nat, d: nat, m: nat)
    requires d > 0 && x < d * m
    ensures x / d < m
  {
  }

  /** Multiplying by the golden constant and keeping the top e bits always lands inside 2^e buckets. */
  lemma HashInRange(e: nat, id: u64)
    requires e <= 64
    ensures HashOf(64 - e, id) < Pow2(e)
  {
    hide Pow2, Mix;
    Pow2Of64();
    Pow2Add(64 - e, e);
    DivBound(Mix(id), Pow2(64 - e), Pow2(e));
  }

  /** The exponent of the smallest power of two that is at least n, searching upwards from e. */
  function BitsFrom(n: nat, e: nat): (r: nat)
    ensures r >= e && n <= Pow2(r)
    decreases n - Pow2(e)
  {
    if n <= Pow2(e) then e else BitsFrom(n, e + 1)
  }

  /** Smallest power of two that is at least n, by doubling; e is its exponent. */
  method RoundPow2(n: nat) returns (p: nat, e: nat)
    requires n > 0
    ensures p == Pow2(e) && n <= p && e == BitsFrom(n, 0)
    ensures e > 0 ==> Pow2(e - 1) < n
  {
    p, e := 1, 0;
    while p < n
      invariant p == Pow2(e) && BitsFrom(n, e) == BitsFrom(n, 0)
      invariant e > 0 ==> Pow2(e - 1) < n
    {
      p, e := p * 2, e + 1;
    }
  }

  // ── what decides the index's answers ──

  /**
    What the index binds and how full it is: the bound ids, each bucket's chain length and state, the free nodes and the
    tag of their stack. Which nodes hold which ids is left out.
   */
  datatype Index = Index(shift: nat, keys: set<u64>, lens: seq<int>, states: seq<int>, free: nat, tag: u32)

  ghost predicate InTable(ix: Index, b: nat) {
    b < |ix.lens| && b < |ix.states|
  }

  /** A new index with this many nodes. */
  ghost function NewIndex(capacity: nat): Index {
    var e := BitsFrom(capacity, 0);
    Index(if e <= 64 then 64 - e else 0, {}, seq(Pow2(e), _ => 0), seq(Pow2(e), _ => 0), capacity, 0)
  }

  /** Whether insert takes a new id. It refuses only in a chain bucket, with no node free and a tag other than zero. */
  ghost predicate Accepts(ix: Index, id: u64) {
    var b := HashOf(ix.shift, id);
    InTable(ix, b) && (ix.states[b] != 0 || ix.lens[b] >= TREEIFY_THRESHOLD || ix.free > 0 || ix.tag == 0)
  }

  /** The index after insert: an overflow entry, a bucket moved to overflow first, or a node pushed on a chain. */
  ghost function Bind(ix: Index, id: u64): Index {
    var b := HashOf(ix.shift, id);
    if !Accepts(ix, id) then ix
    else
      var bound := ix.(keys := ix.keys + {id});
      if ix.states[b] != 0 then bound
      else if ix.lens[b] >= TREEIFY_THRESHOLD || ix.free == 0 then bound.(states := ix.states[b := 2])
      else
        var n := ix.lens[b] + 1;
        bound.(lens := ix.lens[b := n], free := ix.free - 1, tag := Wrap32(ix.tag + 1),
               states := if n >= TREEIFY_THRESHOLD then ix.states[b := 2] else ix.states)
  }

  /** The index after erase: a chain bucket gives its node back, an overflow entry gives none. */
  ghost function Unbind(ix: Index, id: u64): Index {
    var b := HashOf(ix.shift, id);
    if id !in ix.keys then ix
    else if !InTable(ix, b) || ix.states[b] != 0 then ix.(keys := ix.keys - {id})
    else ix.(keys := ix.keys - {id}, lens := ix.lens[b := ix.lens[b] - 1], free := ix.free + 1, tag := Wrap32(ix.tag + 1))
  }

  lemma NewIndexIs(ix: Index, capacity: nat, e: nat)
    requires e == BitsFrom(capacity, 0) <= 64 && ix.shift == 64 - e && ix.keys == {} && ix.free == capacity && ix.tag == 0
    requires |ix.lens| == |ix.states| == Pow2(e) && forall b :: 0 <= b < Pow2(e) ==> ix.lens[b] == ix.states[b] == 0
    ensures ix == NewIndex(capacity)
  {
    hide Pow2, BitsFrom;
    assert ix.lens == seq(Pow2(e), _ => 0) && ix.states == seq(Pow2(e), _ => 0);
  }

  ghost function WithLen(ix: Index, b: nat, d: int): Index {
    if b < |ix.lens| then ix.(lens := ix.lens[b := ix.lens[b] + d]) else ix
  }

  lemma BindNode(ix: Index, b: nat, id: u64)
    requires b == HashOf(ix.shift, id) && InTable(ix, b) && ix.states[b] == 0 && ix.lens[b] < TREEIFY_THRESHOLD
    ensures ix.free == 0 && ix.tag != 0 ==> !Accepts(ix, id) && Bind(ix, id) == ix
    ensures ix.free > 0 ==>
      && Accepts(ix, id)
      && var pushed := WithLen(ix, b, 1).(keys := ix.keys + {id}, free := ix.free - 1, tag := Wrap32(ix.tag + 1));
         Bind(ix, id) == if ix.lens[b] + 1 >= TREEIFY_THRESHOLD then pushed.(states := ix.states[b := 2]) else pushed
  {
  }

  lemma BindOverflow(ix: Index, b: nat, id: u64)
    requires b == HashOf(ix.shift, id) && InTable(ix, b)
    requires ix.states[b] != 0 || ix.lens[b] >= TREEIFY_THRESHOLD || (ix.free == 0 && ix.tag == 0)
    ensures Accepts(ix, id) && Bind(ix, id) ==
      ix.(keys := ix.keys + {id}, states := if ix.states[b] != 0 then ix.states else ix.states[b := 2])
  {
  }

  lemma UnbindNode(ix: Index, b: nat, id: u64)
    requires b == HashOf(ix.shift, id) && InTable(ix, b) && ix.states[b] == 0
    ensures id !in ix.keys ==> Unbind(ix, id) == ix
    ensures id in ix.keys ==>
      Unbind(ix, id) == WithLen(ix, b, -1).(keys := ix.keys - {id}, free := ix.free + 1, tag := Wrap32(ix.tag + 1))
  {
  }

  lemma UnbindOverflow(ix: Index, b: nat, id: u64)
    requires b == HashOf(ix.shift, id) && InTable(ix, b) && ix.states[b] != 0
    ensures Unbind(ix, id) == ix.(keys := ix.keys - {id})
  {
    assert id !in ix.keys ==> ix.keys - {id} == ix.keys;
  }

  // ── room ──

  /** The arrays have a place for every hash. */
  ghost predicate Sized(ix: Index) {
    ix.shift <= 64 && |ix.lens| == |ix.states| == Pow2(64 - ix.shift)
  }

  lemma SizedTable(ix: Index, id: u64)
    requires Sized(ix)
    ensures InTable(ix, HashOf(ix.shift, id))
  {
    HashInRange(64 - ix.shift, id);
  }

  /** An insert takes at most one node, and succeeds while one is free. */
  lemma BindTakesOne(ix: Index, id: u64)
    requires Sized(ix)
    ensures Sized(Bind(ix, id)) && Bind(ix, id).free + 1 >= ix.free
    ensures ix.free > 0 ==> Accepts(ix, id)
    ensures Bind(ix, id).keys == if Accepts(ix, id) then ix.keys + {id} else ix.keys
  {
    hide Pow2, HashOf;
    SizedTable(ix, id);
  }

  /** An erase takes no node. */
  lemma UnbindTakesNone(ix: Index, id: u64)
    requires Sized(ix)
    ensures Sized(Unbind(ix, id)) && Unbind(ix, id).free >= ix.free
  {
    hide Pow2, HashOf;
  }

  /** A new index of this capacity after n inserts that each took a node, too few to fill any chain. */
  ghost predicate Light(ix: Index, n: nat, capacity: nat) {
    && Sized(ix) && ix.free + n == capacity && ix.tag == n < TREEIFY_THRESHOLD
    && forall b :: 0 <= b < |ix.lens| ==> ix.states[b] == 0 && ix.lens[b] <= n
  }

  lemma NewIsLight(capacity: nat)
    requires 2 <= capacity <= 0x8000_0000
    ensures Light(NewIndex(capacity), 0, capacity)
  {
    hide Pow2, HashOf;
    BitsBound(capacity, 0);
  }

  lemma {:induction false} BitsBound(n: nat, e: nat)
    requires n <= 0x8000_0000 && e <= 31
    ensures BitsFrom(n, e) <= 31
    decreases 31 - e
  {
    assert Pow2(31) == 0x8000_0000 by { Pow2Of31(); }
    if e < 31 && n > Pow2(e) {
      BitsBound(n, e + 1);
    }
  }

  lemma Pow2Of31()
    ensures Pow2(31) == 0x8000_0000
  {
    Pow2Small();
    hide Pow2;
    Pow2Add(8, 8);
    Pow2Add(8, 7);
    Pow2Add(16, 15);
  }

  /** Such an index takes the next id exactly while a node is free. */
  lemma LightBind(ix: Index, n: nat, capacity: nat, id: u64)
    requires Light(ix, n, capacity) && n + 1 < TREEIFY_THRESHOLD
    ensures Accepts(ix, id) <==> n < capacity || n == 0
    ensures n < capacity ==> Light(Bind(ix, id), n + 1, capacity)
  {
    hide Pow2, HashOf;
    SizedTable(ix, id);
  }
}
