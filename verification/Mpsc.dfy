/**
  The two-phase commit ring: any number of producers claim a slot, wait for it to be free, mark it, write it and commit
  it; one consumer takes committed slots in claim order. Every load and store is a step of its own.
 */
module Mpsc {
  import opened Types
  import opened Modulo

  const OCCUPIED: nat := TWO64 - 1

  /** stamp: 0 when free, OCCUPIED while being written, handle + 1 once committed. */
  datatype Slot<T> = Slot(data: T, stamp: nat)

  datatype Pc = Idle | Claimed(k: nat) | SawFree(k: nat) | Owner(k: nat)

  datatype Consumer<T> = Waiting | Peeked | Copied(v: T)

  /**
    claim: handles given out. taken: slots consumed, one less than the read cursor. committed, got, claimer, holder record
    history: each handle's committed data, what the consumer took, who claimed each handle, and which handle a slot is
    with.
   */
  datatype State<T> = State(slots: seq<Slot<T>>, claim: nat, taken: nat, pcs: seq<Pc>, cons: Consumer<T>,
                            committed: map<nat, T>, got: seq<T>, claimer: seq<nat>, holder: seq<Option<nat>>)

  datatype Step<T> =
    | Claim(t: nat)
    | LookFree(t: nat)
    | Mark(t: nat)
    | Write(t: nat, v: T)
    | Commit(t: nat)
    | TryPop
    | CopyOut
    | Consume

  predicate Enabled<T(==)>(s: State<T>, e: Step<T>) {
    var cap := |s.slots|;
    cap > 0 && |s.holder| == cap &&
    match e
    case Claim(t) => t < |s.pcs| && s.pcs[t] == Idle
    case LookFree(t) => t < |s.pcs| && s.pcs[t].Claimed? && s.slots[s.pcs[t].k % cap].stamp == 0
    case Mark(t) => t < |s.pcs| && s.pcs[t].SawFree?
    case Write(t, _) => t < |s.pcs| && s.pcs[t].Owner?
    case Commit(t) => t < |s.pcs| && s.pcs[t].Owner?
    case TryPop => s.cons.Waiting? && s.slots[s.taken % cap].stamp == s.taken + 1
    case CopyOut => s.cons.Peeked?
    case Consume => s.cons.Copied?
  }

  function Next<T>(s: State<T>, e: Step<T>): State<T>
    requires Enabled(s, e)
  {
    var cap := |s.slots|;
    match e
    case Claim(t) => s.(claim := s.claim + 1, pcs := s.pcs[t := Claimed(s.claim)], claimer := s.claimer + [t])
    case LookFree(t) => s.(pcs := s.pcs[t := SawFree(s.pcs[t].k)])
    case Mark(t) =>
      var k := s.pcs[t].k;
      s.(slots := s.slots[k % cap := s.slots[k % cap].(stamp := OCCUPIED)], pcs := s.pcs[t := Owner(k)],
         holder := s.holder[k % cap := Some(k)])
    case Write(t, v) =>
      var k := s.pcs[t].k;
      s.(slots := s.slots[k % cap := s.slots[k % cap].(data := v)])
    case Commit(t) =>
      var k := s.pcs[t].k;
      s.(slots := s.slots[k % cap := s.slots[k % cap].(stamp := k + 1)], pcs := s.pcs[t := Idle],
         committed := s.committed[k := s.slots[k % cap].data])
    case TryPop => s.(cons := Peeked)
    case CopyOut => s.(cons := Copied(s.slots[s.taken % cap].data))
    case Consume =>
      var x := s.taken % cap;
      s.(slots := s.slots[x := s.slots[x].(stamp := 0)], taken := s.taken + 1, cons := Waiting,
         got := s.got + [s.cons.v], holder := s.holder[x := None])
  }

  function HandleOf(pc: Pc): Option<nat> {
    match pc
    case Idle => None
    case Claimed(k) => Some(k)
    case SawFree(k) => Some(k)
    case Owner(k) => Some(k)
  }

  /** Claim k has stored its occupied mark. */
  predicate Marked<T>(s: State<T>, k: nat) {
    k < s.taken || k in s.committed ||
    (k < |s.claimer| && s.claimer[k] < |s.pcs| && s.pcs[s.claimer[k]] == Owner(k))
  }

  /** No claim k + capacity before claim k has marked its slot; and the 64-bit handles do not run out. */
  predicate Timely<T>(s: State<T>, e: Step<T>) {
    e.Claim? ==> s.claim + 1 < OCCUPIED && (s.claim >= |s.slots| ==> Marked(s, s.claim - |s.slots|))
  }

  ghost predicate Runs<T(!new)>(s: State<T>, es: seq<Step<T>>, timely: bool)
    decreases es
  {
    es == [] || (Enabled(s, es[0]) && (timely ==> Timely(s, es[0])) && Runs(Next(s, es[0]), es[1..], timely))
  }

  ghost function After<T(!new)>(s: State<T>, es: seq<Step<T>>, timely: bool): State<T>
    requires Runs(s, es, timely)
    decreases es
  {
    if es == [] then s else After(Next(s, es[0]), es[1..], timely)
  }

  ghost function Start<T>(cap: nat, n: nat, zero: T): State<T> {
    State(seq(cap, _ => Slot(zero, 0)), 0, 0, seq(n, _ => Idle), Waiting, map[], [], [], seq(cap, _ => None))
  }

  /**
    Two producers never write one slot; what the consumer took is the committed data of handles 0, 1, 2, ... each once;
    and a slot the consumer is looking at still holds the next handle's data.
   */
  ghost predicate Safe<T(!new)>(s: State<T>) {
    && |s.slots| > 0 && |s.got| == s.taken
    && (forall t, u :: 0 <= t < u < |s.pcs| && s.pcs[t].Owner? && s.pcs[u].Owner? ==>
          s.pcs[t].k % |s.slots| != s.pcs[u].k % |s.slots|)
    && (forall i :: 0 <= i < |s.got| ==> i in s.committed && s.got[i] == s.committed[i])
    && (!s.cons.Waiting? ==>
          && s.taken in s.committed && s.slots[s.taken % |s.slots|] == Slot(s.committed[s.taken], s.taken + 1)
          && (s.cons.Copied? ==> s.cons.v == s.committed[s.taken]))
  }

  // ── the invariant ──

  ghost predicate SlotOk<T(!new)>(s: State<T>, x: nat)
    requires x < |s.slots| == |s.holder|
  {
    match s.holder[x]
    case None => s.slots[x].stamp == 0
    case Some(k) =>
      && k % |s.slots| == x && s.taken <= k < s.claim
      && if k in s.committed then s.slots[x] == Slot(s.committed[k], k + 1) else s.slots[x].stamp == OCCUPIED
  }

  ghost predicate ThreadOk<T(!new)>(s: State<T>, t: nat)
    requires t < |s.pcs| && 0 < |s.slots| == |s.holder|
  {
    s.pcs[t] == Idle ||
    (var k := s.pcs[t].k;
     && s.taken <= k < s.claim == |s.claimer| && s.claimer[k] == t && k !in s.committed
     && (s.pcs[t].Owner? <==> s.holder[k % |s.slots|] == Some(k))
     && (s.pcs[t].SawFree? ==> s.holder[k % |s.slots|] == None)
     && (!s.pcs[t].Owner? ==> s.claim <= k + |s.slots|))
  }

  /** A handle given out is consumed, committed and waiting in its slot, or with the thread that claimed it. */
  ghost predicate HandleOk<T(!new)>(s: State<T>, k: nat)
    requires k < s.claim == |s.claimer| && 0 < |s.slots| == |s.holder|
  {
    if k < s.taken then k in s.committed
    else if k in s.committed then s.holder[k % |s.slots|] == Some(k)
    else s.claimer[k] < |s.pcs| && HandleOf(s.pcs[s.claimer[k]]) == Some(k)
  }

  ghost predicate ConsOk<T(!new)>(s: State<T>)
    requires 0 < |s.slots| == |s.holder|
  {
    && |s.got| == s.taken
    && (forall i :: 0 <= i < s.taken ==> i in s.committed && s.got[i] == s.committed[i])
    && (!s.cons.Waiting? ==> s.taken in s.committed && s.holder[s.taken % |s.slots|] == Some(s.taken))
    && (s.cons.Copied? ==> s.cons.v == s.committed[s.taken])
  }

  ghost predicate Inv<T(!new)>(s: State<T>) {
    && 0 < |s.slots| == |s.holder| && s.taken <= s.claim == |s.claimer| < OCCUPIED
    && (forall k :: k in s.committed ==> k < s.claim)
    && (forall x :: 0 <= x < |s.slots| ==> SlotOk(s, x))
    && (forall t :: 0 <= t < |s.pcs| ==> ThreadOk(s, t))
    && (forall k :: 0 <= k < s.claim ==> HandleOk(s, k))
    && ConsOk(s)
  }

  lemma SlotIndex(k: nat, n: nat)
    requires n > 0
    ensures 0 <= k % n < n
  {
  }

  /** Two handles that have not marked the same slot would be a capacity apart, which the claims rule out. */
  lemma OneWaiter<T(!new)>(s: State<T>, t: nat, u: nat)
    requires Inv(s) && t < |s.pcs| && u < |s.pcs| && t != u
    requires (s.pcs[t].Claimed? || s.pcs[t].SawFree?) && (s.pcs[u].Claimed? || s.pcs[u].SawFree?)
    ensures s.pcs[t].k % |s.slots| != s.pcs[u].k % |s.slots|
  {
    assert ThreadOk(s, t) && ThreadOk(s, u);
    var i, j := s.pcs[t].k, s.pcs[u].k;
    if i < j {
      DistinctResidues(i, j, |s.slots|);
    } else {
      DistinctResidues(j, i, |s.slots|);
    }
  }

  lemma KeepClaim<T(!new)>(s: State<T>, t: nat)
    requires Inv(s) && Enabled(s, Claim(t)) && Timely(s, Claim(t))
    ensures Inv(Next(s, Claim(t)))
  {
    var s' := Next(s, Claim(t));
    forall x | 0 <= x < |s'.slots| ensures SlotOk(s', x) {
      assert SlotOk(s, x);
    }
    forall u | 0 <= u < |s'.pcs| ensures ThreadOk(s', u) {
      assert ThreadOk(s, u);
      if u == t {
        SlotIndex(s.claim, |s.slots|);
        assert SlotOk(s, s.claim % |s.slots|);
      } else if s.claim >= |s.slots| && s.pcs[u] != Idle && s.pcs[u].k == s.claim - |s.slots| {
        assert s.pcs[u].Owner?;
      }
    }
    forall k | 0 <= k < s'.claim ensures HandleOk(s', k) {
      if k < s.claim {
        assert HandleOk(s, k);
      }
    }
  }

  lemma KeepLookFree<T(!new)>(s: State<T>, t: nat)
    requires Inv(s) && Enabled(s, LookFree(t))
    ensures Inv(Next(s, LookFree(t)))
  {
    var s' := Next(s, LookFree(t));
    var k := s.pcs[t].k;
    SlotIndex(k, |s.slots|);
    assert ThreadOk(s, t) && SlotOk(s, k % |s.slots|);
    forall x | 0 <= x < |s'.slots| ensures SlotOk(s', x) {
      assert SlotOk(s, x);
    }
    forall u | 0 <= u < |s'.pcs| ensures ThreadOk(s', u) {
      assert ThreadOk(s, u);
    }
    forall j | 0 <= j < s'.claim ensures HandleOk(s', j) {
      assert HandleOk(s, j);
    }
  }

  lemma KeepMark<T(!new)>(s: State<T>, t: nat)
    requires Inv(s) && Enabled(s, Mark(t))
    ensures Inv(Next(s, Mark(t)))
  {
    var s' := Next(s, Mark(t));
    var k := s.pcs[t].k;
    SlotIndex(k, |s.slots|);
    assert ThreadOk(s, t);
    forall x | 0 <= x < |s'.slots| ensures SlotOk(s', x) {
      assert SlotOk(s, x);
    }
    forall u | 0 <= u < |s'.pcs| ensures ThreadOk(s', u) {
      assert ThreadOk(s, u);
      if u != t && (s.pcs[u].Claimed? || s.pcs[u].SawFree?) {
        OneWaiter(s, t, u);
      }
    }
    forall j | 0 <= j < s'.claim ensures HandleOk(s', j) {
      assert HandleOk(s, j);
    }
  }

  lemma KeepWrite<T(!new)>(s: State<T>, t: nat, v: T)
    requires Inv(s) && Enabled(s, Write(t, v))
    ensures Inv(Next(s, Write(t, v)))
  {
    var s' := Next(s, Write(t, v));
    SlotIndex(s.pcs[t].k, |s.slots|);
    assert ThreadOk(s, t);
    forall x | 0 <= x < |s'.slots| ensures SlotOk(s', x) {
      assert SlotOk(s, x);
    }
    forall u | 0 <= u < |s'.pcs| ensures ThreadOk(s', u) {
      assert ThreadOk(s, u);
    }
    forall j | 0 <= j < s'.claim ensures HandleOk(s', j) {
      assert HandleOk(s, j);
    }
  }

  lemma KeepCommit<T(!new)>(s: State<T>, t: nat)
    requires Inv(s) && Enabled(s, Commit(t))
    ensures Inv(Next(s, Commit(t)))
  {
    var s' := Next(s, Commit(t));
    var k := s.pcs[t].k;
    SlotIndex(k, |s.slots|);
    assert ThreadOk(s, t);
    forall x | 0 <= x < |s'.slots| ensures SlotOk(s', x) {
      assert SlotOk(s, x);
    }
    forall u | 0 <= u < |s'.pcs| ensures ThreadOk(s', u) {
      assert ThreadOk(s, u);
    }
    forall j | 0 <= j < s'.claim ensures HandleOk(s', j) {
      assert HandleOk(s, j);
    }
  }

  lemma KeepTake<T(!new)>(s: State<T>, e: Step<T>)
    requires Inv(s) && Enabled(s, e) && (e.TryPop? || e.CopyOut?)
    ensures Inv(Next(s, e))
  {
    var s' := Next(s, e);
    SlotIndex(s.taken, |s.slots|);
    assert SlotOk(s, s.taken % |s.slots|);
    forall x | 0 <= x < |s'.slots| ensures SlotOk(s', x) {
      assert SlotOk(s, x);
    }
    forall u | 0 <= u < |s'.pcs| ensures ThreadOk(s', u) {
      assert ThreadOk(s, u);
    }
    forall j | 0 <= j < s'.claim ensures HandleOk(s', j) {
      assert HandleOk(s, j);
    }
  }

  lemma KeepConsume<T(!new)>(s: State<T>)
    requires Inv(s) && Enabled(s, Consume)
    ensures Inv(Next(s, Consume))
  {
    var s' := Next(s, Consume);
    SlotIndex(s.taken, |s.slots|);
    assert SlotOk(s, s.taken % |s.slots|);
    forall x | 0 <= x < |s'.slots| ensures SlotOk(s', x) {
      assert SlotOk(s, x);
    }
    forall u | 0 <= u < |s'.pcs| ensures ThreadOk(s', u) {
      assert ThreadOk(s, u);
    }
    forall j | 0 <= j < s'.claim ensures HandleOk(s', j) {
      assert HandleOk(s, j);
    }
  }

  lemma StepKeeps<T(!new)>(s: State<T>, e: Step<T>)
    requires Inv(s) && Enabled(s, e) && Timely(s, e)
    ensures Inv(Next(s, e))
  {
    hide Inv, Next;
    match e
    case Claim(t) => KeepClaim(s, t);
    case LookFree(t) => KeepLookFree(s, t);
    case Mark(t) => KeepMark(s, t);
    case Write(t, v) => KeepWrite(s, t, v);
    case Commit(t) => KeepCommit(s, t);
    case Consume => KeepConsume(s);
    case _ => KeepTake(s, e);
  }

  lemma InvSafe<T(!new)>(s: State<T>)
    requires Inv(s)
    ensures Safe(s)
  {
    forall t, u | 0 <= t < u < |s.pcs| && s.pcs[t].Owner? && s.pcs[u].Owner?
      ensures s.pcs[t].k % |s.slots| != s.pcs[u].k % |s.slots|
    {
      assert ThreadOk(s, t) && ThreadOk(s, u);
    }
    SlotIndex(s.taken, |s.slots|);
    assert SlotOk(s, s.taken % |s.slots|);
  }

  /** A slot is marked only when it is free and its previous occupant has been consumed. */
  lemma MarkOverwritesNothing<T(!new)>(s: State<T>, t: nat)
    requires Inv(s) && Enabled(s, Mark(t))
    ensures var (k, cap) := (s.pcs[t].k, |s.slots|); s.slots[k % cap].stamp == 0 && (k >= cap ==> k - cap < s.taken)
  {
    var k, cap := s.pcs[t].k, |s.slots|;
    SlotIndex(k, cap);
    assert ThreadOk(s, t) && SlotOk(s, k % cap);
    if k >= cap {
      assert HandleOk(s, k - cap);
      ModAddMultiple(k - cap, 1, cap);
      assert s.claimer[k - cap] < |s.pcs| ==> ThreadOk(s, s.claimer[k - cap]);
    }
  }

  lemma {:induction false} RunKeeps<T(!new)>(s: State<T>, es: seq<Step<T>>)
    requires Inv(s) && Runs(s, es, true)
    ensures Inv(After(s, es, true))
    decreases es
  {
    hide Inv, Next, Enabled;
    if es != [] {
      StepKeeps(s, es[0]);
      RunKeeps(Next(s, es[0]), es[1..]);
    }
  }

  /** Every interleaving of any number of producers with the consumer, as long as claims are timely. */
  lemma RunsSafe<T(!new)>(cap: nat, n: nat, zero: T, es: seq<Step<T>>)
    requires cap > 0 && Runs(Start(cap, n, zero), es, true)
    ensures Safe(After(Start(cap, n, zero), es, true))
  {
    RunKeeps(Start(cap, n, zero), es);
    InvSafe(After(Start(cap, n, zero), es, true));
  }

  // ── the condition on claims is needed, at every capacity ──

  lemma {:induction false} Extend<T(!new)>(s: State<T>, es: seq<Step<T>>, e: Step<T>)
    requires Runs(s, es, false) && Enabled(After(s, es, false), e)
    ensures Runs(s, es + [e], false) && After(s, es + [e], false) == Next(After(s, es, false), e)
    decreases es
  {
    if es == [] {
      assert es + [e] == [e];
    } else {
      assert (es + [e])[1..] == es[1..] + [e];
      Extend(Next(s, es[0]), es[1..], e);
    }
  }

  ghost function Zeros(k: nat): map<nat, int> {
    if k <= 1 then map[] else Zeros(k - 1)[k - 1 := 0]
  }

  /** Thread 0 found slot 0 free and stalls; thread 1 has since committed handles 1 .. k - 1. */
  ghost function Stalled(cap: nat, k: nat): State<int>
    requires 0 < k <= cap
  {
    State(seq(cap, x => if 0 < x < k then Slot(0, x + 1) else Slot(0, 0)), k, 0, [SawFree(0), Idle], Waiting,
          Zeros(k), [], [0] + seq(k - 1, _ => 1), seq(cap, x requires 0 <= x => if 0 < x < k then Some(x) else None))
  }

  lemma StallBegins(cap: nat) returns (es: seq<Step<int>>)
    requires cap > 0
    ensures Runs(Start(cap, 2, 0), es, false) && After(Start(cap, 2, 0), es, false) == Stalled(cap, 1)
  {
    var s := Start(cap, 2, 0);
    es := [];
    Extend(s, es, Claim(0));
    es := es + [Claim(0)];
    ModSmall(0, cap);
    Extend(s, es, LookFree(0));
    es := es + [LookFree(0)];
    assert s.pcs == [Idle, Idle];
    assert After(s, es, false).slots == Stalled(cap, 1).slots && After(s, es, false).holder == Stalled(cap, 1).holder;
  }

  lemma CommitOne(cap: nat, k: nat, s0: State<int>, es: seq<Step<int>>) returns (es': seq<Step<int>>)
    requires 0 < k < cap && Runs(s0, es, false) && After(s0, es, false) == Stalled(cap, k)
    ensures Runs(s0, es', false) && After(s0, es', false) == Stalled(cap, k + 1)
  {
    hide Runs, After;
    var s := Stalled(cap, k);
    ModSmall(k, cap);
    Extend(s0, es, Claim(1));
    es' := es + [Claim(1)];
    var s1 := s.(claim := k + 1, pcs := [SawFree(0), Claimed(k)], claimer := s.claimer + [1]);
    assert After(s0, es', false) == s1;
    Extend(s0, es', LookFree(1));
    es' := es' + [LookFree(1)];
    Extend(s0, es', Mark(1));
    es' := es' + [Mark(1)];
    var s2 := s1.(pcs := [SawFree(0), Owner(k)], slots := s.slots[k := Slot(0, OCCUPIED)], holder := s.holder[k := Some(k)]);
    assert After(s0, es', false) == s2;
    Extend(s0, es', Commit(1));
    es' := es' + [Commit(1)];
    var s3 := s2.(pcs := [SawFree(0), Idle], slots := s.slots[k := Slot(0, k + 1)], committed := s.committed[k := 0]);
    assert After(s0, es', false) == s3;
    assert s3.slots == Stalled(cap, k + 1).slots && s3.holder == Stalled(cap, k + 1).holder;
    assert s3.claimer == Stalled(cap, k + 1).claimer;
  }

  lemma {:induction false} StallLasts(cap: nat, k: nat) returns (es: seq<Step<int>>)
    requires 0 < k <= cap
    ensures Runs(Start(cap, 2, 0), es, false) && After(Start(cap, 2, 0), es, false) == Stalled(cap, k)
  {
    hide Runs, After, Start, Stalled;
    if k == 1 {
      es := StallBegins(cap);
    } else {
      es := StallLasts(cap, k - 1);
      es := CommitOne(cap, k - 1, Start(cap, 2, 0), es);
    }
  }

  /** Handle `cap` is claimed while handle 0 has not marked slot 0, and both become its owner. */
  lemma TwoOwners(cap: nat) returns (es: seq<Step<int>>)
    requires cap > 0
    ensures Runs(Start(cap, 2, 0), es, false)
    ensures var s := After(Start(cap, 2, 0), es, false);
      && s.pcs == [Owner(0), Owner(cap)] && |s.slots| == |s.holder| == cap && s.taken == 0 && s.cons == Waiting && s.got == []
      && 0 % cap == cap % cap == 0
  {
    hide Runs, After, Start, Zeros;
    es := StallLasts(cap, cap);
    var s0, s := Start(cap, 2, 0), Stalled(cap, cap);
    ModSmall(0, cap);
    ModAddMultiple(0, 1, cap);
    Extend(s0, es, Claim(1));
    es := es + [Claim(1)];
    assert After(s0, es, false).pcs == [SawFree(0), Claimed(cap)];
    Extend(s0, es, LookFree(1));
    es := es + [LookFree(1)];
    Extend(s0, es, Mark(1));
    es := es + [Mark(1)];
    Extend(s0, es, Mark(0));
    es := es + [Mark(0)];
  }

  /** Then the consumer can take, for handle 0, data that handle 0 never committed. */
  lemma EarlyClaimLosesData(cap: nat) returns (es: seq<Step<int>>)
    requires cap > 0
    ensures Runs(Start(cap, 2, 0), es, false)
    ensures var s := After(Start(cap, 2, 0), es, false); |s.got| == 1 && 0 in s.committed && s.got[0] != s.committed[0]
  {
    hide Runs, After, Start;
    es := TwoOwners(cap);
    var s0 := Start(cap, 2, 0);
    Extend(s0, es, Write(0, 7));
    es := es + [Write(0, 7)];
    Extend(s0, es, Commit(0));
    es := es + [Commit(0)];
    Extend(s0, es, Write(1, 9));
    es := es + [Write(1, 9)];
    Extend(s0, es, TryPop);
    es := es + [TryPop];
    Extend(s0, es, CopyOut);
    es := es + [CopyOut];
    Extend(s0, es, Consume);
    es := es + [Consume];
  }
}
