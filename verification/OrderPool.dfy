/** The slot pool in single-threaded use: a free stack threaded through the slots. */
module OrderPoolModel {
  import opened Types
  import opened Chains
  import opened SideRep

  ghost function FreeLinks(s: seq<Order>): (next: seq<u32>)
    ensures |next| == |s|
    ensures forall i :: 0 <= i < |s| ==> next[i] == s[i].poolNextFree
  {
    seq(|s|, i requires 0 <= i < |s| => s[i].poolNextFree)
  }

  ghost predicate PoolOk(s: seq<Order>, owner: seq<Owner>, head: u32, free: seq<nat>) {
    && |owner| == |s| <= NIL
    && NoDup(free)
    && Holds(owner, free, Free)
    && Chain(FreeLinks(s), head, free)
  }

  lemma PopFree(s: seq<Order>, owner: seq<Owner>, head: u32, free: seq<nat>)
    requires PoolOk(s, owner, head, free) && free != []
    ensures head < |s| && head == free[0] && owner[head] == Free
    ensures PoolOk(s, owner[head := Loose], s[head].poolNextFree, free[1..])
  {
    hide NoDup;
    ChainPop(FreeLinks(s), head, free);
    NoDupRemove(free, 0);
    HoldsRemove(owner, free, Free, 0, Loose);
    assert RemoveAt(free, 0) == free[1..];
  }

  lemma PushFree(s: seq<Order>, owner: seq<Owner>, head: u32, free: seq<nat>, x: nat)
    requires PoolOk(s, owner, head, free) && x < |s| && owner[x] != Free
    ensures PoolOk(s[x := s[x].(poolNextFree := head)], owner[x := Free], x, [x] + free)
    ensures |free| < |s|
  {
    hide NoDup, Chain, Holds;
    NotHeld(owner, free, Free, x);
    ChainPush(FreeLinks(s), head, free, x);
    NoDupPush(free, x);
    assert FreeLinks(s[x := s[x].(poolNextFree := head)]) == FreeLinks(s)[x := head];
    HoldsPush(owner, free, Free, x);
    FreeBound(s, owner, head, free);
  }

  lemma FreeBound(s: seq<Order>, owner: seq<Owner>, head: u32, free: seq<nat>)
    requires PoolOk(s, owner, head, free)
    ensures |free| <= |s|
    ensures (exists x: nat :: x < |s| && owner[x] != Free) ==> |free| < |s|
  {
    NoDupBound(free, |s|);
    if x: nat :| x < |s| && owner[x] != Free {
      NoDupBound(free + [x], |s|);
    }
  }

  /** The free stack ignores everything but the free-stack links of the slots on it. */
  lemma PoolFrame(s: seq<Order>, s': seq<Order>, owner: seq<Owner>, owner': seq<Owner>, head: u32, free: seq<nat>)
    requires PoolOk(s, owner, head, free)
    requires |s'| == |owner'| == |s|
    requires forall y: nat :: y < |s| ==> (owner'[y] == Free <==> owner[y] == Free)
    requires forall y: nat :: y < |s| && owner[y] == Free ==> s'[y].poolNextFree == s[y].poolNextFree
    ensures PoolOk(s', owner', head, free)
  {
    hide NoDup;
    HoldsFrame(owner, owner', free, Free);
    forall i | 0 <= i < |free| ensures FreeLinks(s')[free[i]] == FreeLinks(s)[free[i]] {
      assert owner[free[i]] == Free;
    }
    ChainFrame(FreeLinks(s), FreeLinks(s'), head, free);
  }

  lemma IdentityHolds(n: nat)
    ensures Holds(seq(n, i => Free), seq(n, i => i), Free)
  {
    var all := seq(n, i => i);
    forall y: nat | y < n ensures y in all {
      assert all[y] == y;
    }
  }

  /** Slots linked in index order are one free stack. */
  lemma WholeStack(s: seq<Order>)
    requires 0 < |s| <= NIL
    requires forall j :: 0 <= j < |s| ==> s[j].poolNextFree == if j < |s| - 1 then j + 1 else NIL
    ensures PoolOk(s, seq(|s|, i => Free), 0, seq(|s|, i => i))
  {
    hide Holds;
    IdentityHolds(|s|);
  }

  class OrderPool {
    const storage: array<Order>
    var headIdx: u32
    var headTag: u32
    var size: nat
    ghost var free: seq<nat>
    ghost var owner: seq<Owner>

    ghost predicate Valid()
      reads this, storage
    {
      && PoolOk(storage[..], owner, headIdx, free)
      && size == storage.Length - |free|
    }

    /** Take over a slot array; the free stack is built by RebuildFreelist. */
    constructor (storage: array<Order>)
      requires 0 < storage.Length <= NIL
      ensures this.storage == storage
    {
      this.storage := storage;
      headIdx, headTag, size := 0, 0, 0;
      free, owner := [], [];
    }

    /** Thread every slot onto the free stack in index order, leaving the orders in them alone. */
    method RebuildFreelist()
      requires 0 < storage.Length <= NIL
      modifies this, storage
      ensures Valid()
      ensures free == seq(storage.Length, i => i)
      ensures forall i :: 0 <= i < |owner| ==> owner[i] == Free
      ensures forall i :: 0 <= i < storage.Length ==>
                storage[i].(poolNextFree := NIL) == old(storage[i]).(poolNextFree := NIL)
    {
      hide PoolOk;
      var i := 0;
      while i < storage.Length - 1
        invariant 0 <= i <= storage.Length - 1
        invariant forall j :: 0 <= j < i ==> storage[j].poolNextFree == j + 1
        invariant forall j :: 0 <= j < storage.Length ==>
                    storage[j].(poolNextFree := NIL) == old(storage[j]).(poolNextFree := NIL)
      {
        storage[i] := storage[i].(poolNextFree := i + 1);
        i := i + 1;
      }
      storage[storage.Length - 1] := storage[storage.Length - 1].(poolNextFree := NIL);
      headIdx, headTag, size := 0, 0, 0;
      free := seq(storage.Length, i => i);
      owner := seq(storage.Length, i => Free);
      WholeStack(storage[..]);
    }

    /** Pop a slot; UINT32_MAX stands for the null pointer of an exhausted pool. */
    method Allocate() returns (idx: u32)
      requires Valid()
      modifies this
      ensures Valid()
      ensures old(free) == [] ==> idx == NIL && unchanged(this)
      ensures old(free) != [] ==>
                && idx == old(free)[0] < storage.Length
                && old(owner)[idx] == Free
                && headIdx == storage[idx].poolNextFree && size == old(size) + 1
                && free == old(free)[1..]
                && owner == old(owner)[idx := Loose]
    {
      if headIdx == NIL {
        return NIL;
      }
      idx := headIdx;
      PopFree(storage[..], owner, headIdx, free);
      var next := storage[idx].poolNextFree;
      headIdx, headTag := next, Wrap32(headTag + 1);
      size := size + 1;
      free, owner := free[1..], owner[idx := Loose];
    }

    method Deallocate(idx: u32)
      requires Valid() && idx < storage.Length && owner[idx] != Free
      modifies this, storage
      ensures Valid()
      ensures storage[..] == old(storage[..])[idx := old(storage[idx]).(poolNextFree := old(headIdx))]
      ensures free == [idx as nat] + old(free) && headIdx == idx && size == old(size) - 1
      ensures owner == old(owner)[idx := Free]
    {
      PushFree(storage[..], owner, headIdx, free, idx);
      storage[idx] := storage[idx].(poolNextFree := headIdx);
      headIdx, headTag := idx, Wrap32(headTag + 1);
      size := size - 1;
      free, owner := [idx as nat] + free, owner[idx := Free];
    }
  }
}
