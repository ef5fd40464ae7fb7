/** Singly linked chains of array indices, and exact ownership of indices. */
module Chains {
  import opened Types

  ghost predicate NoDup(Q: seq<nat>) {
    forall i, j :: 0 <= i < j < |Q| ==> Q[i] != Q[j]
  }

  function RemoveAt<T>(q: seq<T>, k: nat): (r: seq<T>)
    requires k < |q|
    ensures |r| == |q| - 1
  {
    q[..k] + q[k + 1..]
  }

  lemma {:induction false} NoDupBound(Q: seq<nat>, n: nat)
    requires NoDup(Q) && forall i :: 0 <= i < |Q| ==> Q[i] < n
    ensures |Q| <= n
    decreases n
  {
    if Q == [] {
    } else if i :| 0 <= i < |Q| && Q[i] == n - 1 {
      NoDupBound(RemoveAt(Q, i), n - 1);
    } else {
      assert Q[0] < n;
      NoDupBound(Q, n - 1);
    }
  }

  /** The indices in Q are exactly those held by `me`. */
  ghost predicate Holds<T>(owner: seq<T>, Q: seq<nat>, me: T) {
    && (forall i :: 0 <= i < |Q| ==> Q[i] < |owner| && owner[Q[i]] == me)
    && (forall x: nat :: x < |owner| && owner[x] == me ==> x in Q)
  }

  lemma NotHeld<T>(owner: seq<T>, Q: seq<nat>, me: T, x: nat)
    requires Holds(owner, Q, me) && x < |owner| && owner[x] != me
    ensures x !in Q
  {
  }

  lemma HeldBy<T>(owner: seq<T>, Q: seq<nat>, me: T)
    requires Holds(owner, Q, me)
    ensures forall i :: 0 <= i < |Q| ==> Q[i] < |owner| && owner[Q[i]] == me
  {
  }

  ghost function Successor(c: seq<nat>, i: nat): int
    requires i < |c|
  {
    if i + 1 < |c| then c[i + 1] else NIL
  }

  /** Following `next` from `head` visits exactly c and ends in NIL. */
  ghost predicate Chain(next: seq<u32>, head: u32, c: seq<nat>) {
    && (forall i :: 0 <= i < |c| ==> c[i] < |next|)
    && head == (if c == [] then NIL else c[0])
    && (forall i :: 0 <= i < |c| ==> next[c[i]] == Successor(c, i))
  }

  lemma ChainStep(next: seq<u32>, head: u32, c: seq<nat>, j: nat)
    requires Chain(next, head, c) && j < |c|
    ensures c[j] < |next| && next[c[j]] == if j + 1 < |c| then c[j + 1] else NIL
  {
  }

  lemma NoDupPush(c: seq<nat>, x: nat)
    requires NoDup(c) && x !in c
    ensures NoDup([x] + c)
  {
  }

  lemma NoDupRemove(c: seq<nat>, k: nat)
    requires NoDup(c) && k < |c|
    ensures NoDup(RemoveAt(c, k)) && c[k] !in RemoveAt(c, k)
  {
    var c' := RemoveAt(c, k);
    assert forall i :: 0 <= i < |c'| ==> c'[i] == c[if i < k then i else i + 1];
  }

  lemma ChainPush(next: seq<u32>, head: u32, c: seq<nat>, x: nat)
    requires Chain(next, head, c) && x !in c && x < |next| <= NIL
    ensures Chain(next[x := head], x, [x] + c)
  {
    var c' := [x] + c;
    forall i | 0 <= i < |c'| ensures c'[i] < |next| && next[x := head][c'[i]] == Successor(c', i) {
      if i > 0 {
        assert c'[i] == c[i - 1] && next[c[i - 1]] == Successor(c, i - 1);
      }
    }
  }

  lemma ChainPop(next: seq<u32>, head: u32, c: seq<nat>)
    requires Chain(next, head, c) && c != []
    ensures Chain(next, next[head], c[1..])
  {
    var c' := c[1..];
    assert next[c[0]] == Successor(c, 0);
    forall i | 0 <= i < |c'| ensures c'[i] < |next| && next[c'[i]] == Successor(c', i) {
      assert c'[i] == c[i + 1] && next[c[i + 1]] == Successor(c, i + 1);
    }
  }

  lemma ChainCut(next: seq<u32>, head: u32, c: seq<nat>, k: nat)
    requires Chain(next, head, c) && NoDup(c) && 0 < k < |c|
    ensures Chain(next[c[k - 1] := next[c[k]]], head, RemoveAt(c, k))
  {
    hide Successor, NoDup;
    var c', next' := RemoveAt(c, k), next[c[k - 1] := next[c[k]]];
    forall i | 0 <= i < |c'| ensures c'[i] < |next'| && next'[c'[i]] == Successor(c', i) {
      CutAt(c, k, i);
      if i + 1 < |c'| {
        CutAt(c, k, i + 1);
      }
      ChainCutAt(next, head, c, k, c', i);
    }
  }

  lemma CutAt<T>(c: seq<T>, k: nat, i: nat)
    requires k < |c| && i < |c| - 1
    ensures RemoveAt(c, k)[i] == c[if i < k then i else i + 1]
  {
  }

  lemma Differ(c: seq<nat>, i: nat, j: nat)
    requires NoDup(c) && i < |c| && j < |c| && i != j
    ensures c[i] != c[j]
  {
    if j < i {
      assert c[j] != c[i];
    }
  }

  lemma ChainCutAt(next: seq<u32>, head: u32, c: seq<nat>, k: nat, c': seq<nat>, i: nat)
    requires Chain(next, head, c) && 0 < k < |c| == |c'| + 1 && i < |c'|
    requires c'[i] == c[if i < k then i else i + 1]
    requires i + 1 < |c'| ==> c'[i + 1] == c[if i + 1 < k then i + 1 else i + 2]
    requires NoDup(c)
    ensures c'[i] < |next| && next[c[k - 1] := next[c[k]]][c'[i]] == Successor(c', i)
  {
    hide Chain, NoDup;
    var j := if i < k then i else i + 1;
    ChainStep(next, head, c, j);
    ChainStep(next, head, c, k - 1);
    ChainStep(next, head, c, k);
    if j != k - 1 {
      Differ(c, j, k - 1);
    }
  }

  lemma ChainFrame(next: seq<u32>, next': seq<u32>, head: u32, c: seq<nat>)
    requires Chain(next, head, c) && |next'| == |next|
    requires forall i :: 0 <= i < |c| ==> next'[c[i]] == next[c[i]]
    ensures Chain(next', head, c)
  {
  }

  /** Moving index x from one holder to another keeps third parties exact. */
  lemma HoldsFrame<T>(owner: seq<T>, owner': seq<T>, Q: seq<nat>, me: T)
    requires Holds(owner, Q, me) && |owner'| == |owner|
    requires forall y: nat :: y < |owner| ==> (owner'[y] == me <==> owner[y] == me)
    ensures Holds(owner', Q, me)
  {
  }

  lemma HoldsPush<T>(owner: seq<T>, Q: seq<nat>, me: T, x: nat)
    requires Holds(owner, Q, me) && x < |owner|
    ensures Holds(owner[x := me], [x] + Q, me)
  {
    var owner', Q' := owner[x := me], [x] + Q;
    forall i | 0 <= i < |Q'| ensures Q'[i] < |owner'| && owner'[Q'[i]] == me {
      assert i > 0 ==> Q'[i] == Q[i - 1];
    }
    forall y: nat | y < |owner'| && owner'[y] == me ensures y in Q' {
      assert y == x || y in Q;
    }
  }

  lemma HoldsRemove<T>(owner: seq<T>, Q: seq<nat>, me: T, k: nat, other: T)
    requires Holds(owner, Q, me) && NoDup(Q) && k < |Q| && other != me
    ensures Holds(owner[Q[k] := other], RemoveAt(Q, k), me)
  {
    var owner', Q' := owner[Q[k] := other], RemoveAt(Q, k);
    forall i | 0 <= i < |Q'| ensures Q'[i] < |owner'| && owner'[Q'[i]] == me {
      assert Q'[i] == Q[if i < k then i else i + 1];
    }
    forall y: nat | y < |owner'| && owner'[y] == me ensures y in Q' {
      var i :| 0 <= i < |Q| && Q[i] == y;
      assert Q'[if i < k then i else i - 1] == y;
    }
  }
}
