/**
  The slot pool under any number of threads: allocate and deallocate as the separate loads, stores and
  compare-exchanges they perform, interleaved in any order.
 */
module PoolThreads {
  import opened Types
  import opened Chains
  import opened Modulo

  /** Who a slot is with. */
  datatype Place = InFree | Client(token: nat) | InThread(t: nat)

  /**
    Where a thread stands. `ver` is the number of head updates made before the thread loaded the head; the code keeps
    only `tag`.
   */
  datatype Pc =
    | Idle
    | Loaded(tag: nat, head: u32, ver: nat)
    | Read(tag: nat, head: u32, next: u32, ver: nat)
    | Taken(slot: nat)
    | Freeing(slot: nat, tag: nat, head: u32, ver: nat)
    | Stored(slot: nat, tag: nat, head: u32, ver: nat)
    | Freed

  /**
    next, tag, head, size: the pool's memory. pcs: the threads. held: the slots handed out, by the token that names the
    returned pointer. ver, free and place record history: head updates so far, the free stack, and each slot's holder.
   */
  datatype State = State(next: seq<u32>, tag: nat, head: u32, size: int, pcs: seq<Pc>, held: map<nat, nat>,
                         ver: nat, free: seq<nat>, place: seq<Place>)

  datatype Step =
    | LoadAlloc(t: nat)
    | ReadNext(t: nat)
    | CasAlloc(t: nat)
    | FailAlloc(t: nat)
    | AddSize(t: nat, token: nat)
    | LoadFree(t: nat, token: nat)
    | StoreNext(t: nat)
    | CasFree(t: nat)
    | FailFree(t: nat)
    | SubSize(t: nat)
    | Scribble(token: nat, link: u32)

  /**
    A compare-exchange succeeds when tag and index both match; being the weak form, it may also fail at any time.
    Only a pointer that was handed out may be freed or written through.
   */
  predicate Enabled(s: State, e: Step) {
    match e
    case LoadAlloc(t) => t < |s.pcs| && s.pcs[t] == Idle
    case ReadNext(t) => t < |s.pcs| && s.pcs[t].Loaded? && s.pcs[t].head < |s.next|
    case CasAlloc(t) => t < |s.pcs| && s.pcs[t].Read? && s.pcs[t].tag == s.tag && s.pcs[t].head == s.head
    case FailAlloc(t) => t < |s.pcs| && s.pcs[t].Read?
    case AddSize(t, k) => t < |s.pcs| && s.pcs[t].Taken? && k !in s.held && s.pcs[t].slot < |s.place|
    case LoadFree(t, k) => t < |s.pcs| && s.pcs[t] == Idle && k in s.held && s.held[k] < |s.place|
    case StoreNext(t) => t < |s.pcs| && s.pcs[t].Freeing? && s.pcs[t].slot < |s.next|
    case CasFree(t) => t < |s.pcs| && s.pcs[t].Stored? && s.pcs[t].tag == s.tag && s.pcs[t].head == s.head
    case FailFree(t) => t < |s.pcs| && s.pcs[t].Stored?
    case SubSize(t) => t < |s.pcs| && s.pcs[t] == Freed
    case Scribble(k, _) => k in s.held && s.held[k] < |s.next|
  }

  /** The loop head of allocate: an empty pool returns null. */
  function Looked(s: State): Pc {
    if s.head == NIL then Idle else Loaded(s.tag, s.head, s.ver)
  }

  /** One step; tags count modulo `mod`. */
  function Next(s: State, mod: nat, e: Step): (r: State)
    requires mod > 0 && Enabled(s, e)
    ensures |r.pcs| == |s.pcs| && |r.next| == |s.next|
  {
    match e
    case LoadAlloc(t) => s.(pcs := s.pcs[t := Looked(s)])
    case ReadNext(t) =>
      var pc := s.pcs[t];
      s.(pcs := s.pcs[t := Read(pc.tag, pc.head, s.next[pc.head], pc.ver)])
    case CasAlloc(t) =>
      var pc := s.pcs[t];
      s.(head := pc.next, tag := (pc.tag + 1) % mod, ver := s.ver + 1, pcs := s.pcs[t := Taken(pc.head)],
         free := if s.free == [] then [] else s.free[1..],
         place := if pc.head < |s.place| then s.place[pc.head := InThread(t)] else s.place)
    case FailAlloc(t) => s.(pcs := s.pcs[t := Looked(s)])
    case AddSize(t, k) =>
      var x := s.pcs[t].slot;
      s.(size := s.size + 1, held := s.held[k := x], pcs := s.pcs[t := Idle], place := s.place[x := Client(k)])
    case LoadFree(t, k) =>
      var x := s.held[k];
      s.(held := s.held - {k}, pcs := s.pcs[t := Freeing(x, s.tag, s.head, s.ver)], place := s.place[x := InThread(t)])
    case StoreNext(t) =>
      var pc := s.pcs[t];
      s.(next := s.next[pc.slot := pc.head], pcs := s.pcs[t := Stored(pc.slot, pc.tag, pc.head, pc.ver)])
    case CasFree(t) =>
      var pc := s.pcs[t];
      s.(head := if pc.slot < NIL then pc.slot else NIL, tag := (pc.tag + 1) % mod, ver := s.ver + 1, pcs := s.pcs[t := Freed],
         free := [pc.slot] + s.free,
         place := if pc.slot < |s.place| then s.place[pc.slot := InFree] else s.place)
    case FailFree(t) => s.(pcs := s.pcs[t := Freeing(s.pcs[t].slot, s.tag, s.head, s.ver)])
    case SubSize(t) => s.(size := s.size - 1, pcs := s.pcs[t := Idle])
    case Scribble(k, x) => s.(next := s.next[s.held[k] := x])
  }

  /** Fewer than `mod` head updates fall between a thread's load and its successful compare-exchange. */
  predicate Timely(s: State, mod: nat, e: Step)
    requires Enabled(s, e)
  {
    match e
    case CasAlloc(t) => s.ver - s.pcs[t].ver < mod
    case CasFree(t) => s.ver - s.pcs[t].ver < mod
    case _ => true
  }

  /** A pool of cap slots, all free, and n idle threads. */
  ghost function Start(cap: nat, n: nat): State
    requires 0 < cap <= NIL
  {
    State(seq(cap, i requires 0 <= i < cap => if i + 1 < cap then i + 1 else NIL), 0, 0, 0, seq(n, _ => Idle), map[],
          0, seq(cap, i => i), seq(cap, _ => InFree))
  }

  ghost predicate Runs(s: State, mod: nat, es: seq<Step>, timely: bool)
    requires mod > 0
    decreases es
  {
    es == [] || (Enabled(s, es[0]) && (timely ==> Timely(s, mod, es[0])) && Runs(Next(s, mod, es[0]), mod, es[1..], timely))
  }

  ghost function After(s: State, mod: nat, es: seq<Step>, timely: bool): State
    requires mod > 0 && Runs(s, mod, es, timely)
    decreases es
  {
    if es == [] then s else After(Next(s, mod, es[0]), mod, es[1..], timely)
  }

  // ── what must hold ──

  function SlotOf(pc: Pc): Option<nat> {
    match pc
    case Taken(x) => Some(x)
    case Freeing(x, _, _, _) => Some(x)
    case Stored(x, _, _, _) => Some(x)
    case _ => None
  }

  predicate HasSlot(pc: Pc) {
    SlotOf(pc).Some?
  }

  /** Counted in size_ but no longer handed out. */
  predicate Leaving(pc: Pc) {
    pc.Freeing? || pc.Stored? || pc.Freed?
  }

  function Count(pcs: seq<Pc>, p: Pc -> bool): nat {
    if pcs == [] then 0 else (if p(pcs[0]) then 1 else 0) + Count(pcs[1..], p)
  }

  /** No slot has two holders, and no holder's slot is on the free stack. */
  ghost predicate Exclusive(s: State) {
    && (forall j, k :: j in s.held && k in s.held && j != k ==> s.held[j] != s.held[k])
    && (forall k, t :: k in s.held && 0 <= t < |s.pcs| && HasSlot(s.pcs[t]) ==> SlotOf(s.pcs[t]).value != s.held[k])
    && (forall t, u :: 0 <= t < u < |s.pcs| && HasSlot(s.pcs[t]) && HasSlot(s.pcs[u]) ==> SlotOf(s.pcs[t]) != SlotOf(s.pcs[u]))
    && (forall k :: k in s.held ==> s.held[k] !in s.free)
    && (forall t :: 0 <= t < |s.pcs| && HasSlot(s.pcs[t]) ==> SlotOf(s.pcs[t]).value !in s.free)
  }

  /**
    The links from the head visit a duplicate-free list ending in the null index; slots have one holder each; free and
    owned slots together are all the slots; and the size counter never underflows.
   */
  ghost predicate Safe(s: State) {
    && Chain(s.next, s.head, s.free) && NoDup(s.free)
    && Exclusive(s)
    && |s.free| + |s.held| + Count(s.pcs, HasSlot) == |s.next|
    && s.size == |s.held| + Count(s.pcs, Leaving)
  }

  // ── the invariant ──

  ghost predicate FreeOk(s: State) {
    && |s.next| == |s.place| <= NIL
    && NoDup(s.free) && Holds(s.place, s.free, InFree) && Chain(s.next, s.head, s.free)
  }

  ghost predicate HeldOk(s: State) {
    forall k :: k in s.held ==> s.held[k] < |s.place| && s.place[s.held[k]] == Client(k)
  }

  ghost predicate Fresh(s: State, mod: nat, tag: nat, head: u32, ver: nat)
    requires mod > 0
  {
    ver <= s.ver && tag == ver % mod && (ver == s.ver ==> head == s.head)
  }

  /** What thread t knows is still true if the head has not moved since its load. */
  ghost predicate ThreadOk(s: State, mod: nat, t: nat)
    requires mod > 0 && t < |s.pcs|
  {
    match s.pcs[t]
    case Loaded(tag, h, v) => Fresh(s, mod, tag, h, v) && h < |s.next|
    case Read(tag, h, n, v) => Fresh(s, mod, tag, h, v) && h < |s.next| && (v == s.ver ==> n == s.next[h])
    case Taken(x) => x < |s.place| && s.place[x] == InThread(t)
    case Freeing(x, tag, h, v) => Fresh(s, mod, tag, h, v) && x < |s.place| && s.place[x] == InThread(t)
    case Stored(x, tag, h, v) =>
      Fresh(s, mod, tag, h, v) && x < |s.place| == |s.next| && s.place[x] == InThread(t) && s.next[x] == h
    case _ => true
  }

  ghost predicate Counted(s: State) {
    && |s.free| + |s.held| + Count(s.pcs, HasSlot) == |s.next|
    && s.size == |s.held| + Count(s.pcs, Leaving)
  }

  ghost predicate Inv(s: State, mod: nat)
    requires mod > 0
  {
    && FreeOk(s) && HeldOk(s) && Counted(s) && s.tag == s.ver % mod
    && forall t :: 0 <= t < |s.pcs| ==> ThreadOk(s, mod, t)
  }

  lemma {:induction false} CountUpdate(pcs: seq<Pc>, p: Pc -> bool, t: nat, pc: Pc)
    requires t < |pcs|
    ensures Count(pcs[t := pc], p) + (if p(pcs[t]) then 1 else 0) == Count(pcs, p) + (if p(pc) then 1 else 0)
  {
    if t == 0 {
      assert pcs[t := pc][1..] == pcs[1..];
    } else {
      assert pcs[t := pc][1..] == pcs[1..][t - 1 := pc];
      CountUpdate(pcs[1..], p, t - 1, pc);
    }
  }

  lemma BothCounts(pcs: seq<Pc>, t: nat, pc: Pc)
    requires t < |pcs|
    ensures Count(pcs[t := pc], HasSlot) + (if HasSlot(pcs[t]) then 1 else 0) == Count(pcs, HasSlot) + (if HasSlot(pc) then 1 else 0)
    ensures Count(pcs[t := pc], Leaving) + (if Leaving(pcs[t]) then 1 else 0) == Count(pcs, Leaving) + (if Leaving(pc) then 1 else 0)
  {
    CountUpdate(pcs, HasSlot, t, pc);
    CountUpdate(pcs, Leaving, t, pc);
  }

  /** The tag tells a moved head from an unmoved one when fewer than `mod` updates passed. */
  lemma SameVersion(s: State, mod: nat, tag: nat, head: u32, ver: nat)
    requires mod > 0 && s.tag == s.ver % mod && Fresh(s, mod, tag, head, ver) && tag == s.tag && s.ver - ver < mod
    ensures ver == s.ver
  {
    if ver < s.ver {
      DistinctResidues(ver, s.ver, mod);
    }
  }

  /** Steps that leave the head alone, and touch no slot that is free or with another thread. */
  lemma OthersKeep(s: State, s': State, mod: nat, u: nat)
    requires mod > 0 && FreeOk(s) && u < |s.pcs| == |s'.pcs| && s'.pcs[u] == s.pcs[u] && ThreadOk(s, mod, u)
    requires s'.ver == s.ver && s'.head == s.head && |s'.next| == |s.next| == |s'.place|
    requires forall x :: 0 <= x < |s.next| && (s.place[x] == InFree || s.place[x] == InThread(u)) ==>
               s'.next[x] == s.next[x] && s'.place[x] == s.place[x]
    ensures ThreadOk(s', mod, u)
  {
    hide NoDup;
    if s.pcs[u].Read? && s.pcs[u].ver == s.ver {
      HeadFree(s);
    }
  }

  lemma HeadFree(s: State)
    requires FreeOk(s) && s.head < |s.next|
    ensures s.free != [] && s.free[0] == s.head && s.place[s.head] == InFree
  {
  }

  /** Once the head has moved, nothing that was loaded before counts as current. */
  lemma StaleKeep(s: State, s': State, mod: nat, u: nat)
    requires mod > 0 && u < |s.pcs| == |s'.pcs| && s'.pcs[u] == s.pcs[u] && ThreadOk(s, mod, u) && |s.place| == |s.next|
    requires s'.ver == s.ver + 1 && s'.next == s.next && |s'.next| == |s'.place|
    requires forall x :: 0 <= x < |s.next| && s.place[x] == InThread(u) ==> s'.place[x] == s.place[x]
    ensures ThreadOk(s', mod, u)
  {
  }

  lemma FreeKeep(s: State, s': State)
    requires FreeOk(s) && s'.free == s.free && s'.head == s.head && |s'.next| == |s'.place| == |s.next|
    requires forall x :: 0 <= x < |s.next| ==> (s'.place[x] == InFree <==> s.place[x] == InFree)
    requires forall x :: 0 <= x < |s.next| && s.place[x] == InFree ==> s'.next[x] == s.next[x]
    ensures FreeOk(s')
  {
    hide NoDup, Chain, Holds;
    HoldsFrame(s.place, s'.place, s.free, InFree);
    HeldBy(s.place, s.free, InFree);
    assert Chain(s.next, s.head, s.free);
    ChainFrame(s.next, s'.next, s.head, s.free);
  }

  // ── every step keeps it ──

  lemma CountLook(s: State, mod: nat, e: Step)
    requires mod > 0 && Counted(s) && Enabled(s, e) && (e.LoadAlloc? || e.FailAlloc? || e.ReadNext? || e.FailFree? || e.SubSize?)
    ensures Counted(Next(s, mod, e))
  {
    hide Count;
    BothCounts(s.pcs, e.t, Next(s, mod, e).pcs[e.t]);
  }

  lemma KeepLook(s: State, mod: nat, e: Step)
    requires mod > 0 && Inv(s, mod) && Enabled(s, e) && (e.LoadAlloc? || e.FailAlloc? || e.ReadNext? || e.FailFree? || e.SubSize?)
    ensures Inv(Next(s, mod, e), mod)
  {
    hide NoDup, Chain, Holds, Counted;
    var s' := Next(s, mod, e);
    assert ThreadOk(s, mod, e.t);
    CountLook(s, mod, e);
    FreeKeep(s, s');
    forall u | 0 <= u < |s'.pcs| ensures ThreadOk(s', mod, u) {
      assert ThreadOk(s, mod, u);
      if u != e.t {
        OthersKeep(s, s', mod, u);
      } else {
        HeadInRange(s);
      }
    }
  }

  lemma HeadInRange(s: State)
    requires FreeOk(s)
    ensures s.head == NIL || s.head < |s.next|
  {
    hide NoDup, Holds;
  }

  lemma CountCasAlloc(s: State, mod: nat, t: nat)
    requires mod > 0 && Counted(s) && Enabled(s, CasAlloc(t)) && s.free != []
    ensures Counted(Next(s, mod, CasAlloc(t)))
  {
    hide Count;
    BothCounts(s.pcs, t, Taken(s.pcs[t].head));
  }

  lemma KeepCasAlloc(s: State, mod: nat, t: nat)
    requires mod > 0 && Inv(s, mod) && Enabled(s, CasAlloc(t)) && Timely(s, mod, CasAlloc(t))
    ensures Inv(Next(s, mod, CasAlloc(t)), mod)
  {
    hide NoDup, Chain, Holds, Counted;
    var s' := Next(s, mod, CasAlloc(t));
    var pc := s.pcs[t];
    assert ThreadOk(s, mod, t);
    SameVersion(s, mod, pc.tag, pc.head, pc.ver);
    HeadFree(s);
    CountCasAlloc(s, mod, t);
    AddWrap(s.ver, 1, mod);
    ChainPop(s.next, s.head, s.free);
    NoDupRemove(s.free, 0);
    HoldsRemove(s.place, s.free, InFree, 0, InThread(t));
    assert RemoveAt(s.free, 0) == s.free[1..];
    forall u | 0 <= u < |s'.pcs| ensures ThreadOk(s', mod, u) {
      assert ThreadOk(s, mod, u);
      if u != t {
        StaleKeep(s, s', mod, u);
      }
    }
  }

  lemma KeepCasFree(s: State, mod: nat, t: nat)
    requires mod > 0 && Inv(s, mod) && Enabled(s, CasFree(t)) && Timely(s, mod, CasFree(t))
    ensures Inv(Next(s, mod, CasFree(t)), mod)
  {
    hide NoDup, Chain, Holds;
    var s' := Next(s, mod, CasFree(t));
    var pc := s.pcs[t];
    assert ThreadOk(s, mod, t);
    SameVersion(s, mod, pc.tag, pc.head, pc.ver);
    BothCounts(s.pcs, t, s'.pcs[t]);
    AddWrap(s.ver, 1, mod);
    NotHeld(s.place, s.free, InFree, pc.slot);
    ChainPush(s.next, s.head, s.free, pc.slot);
    assert s.next[pc.slot := s.head] == s.next;
    NoDupPush(s.free, pc.slot);
    HoldsPush(s.place, s.free, InFree, pc.slot);
    forall u | 0 <= u < |s'.pcs| ensures ThreadOk(s', mod, u) {
      assert ThreadOk(s, mod, u);
      if u != t {
        StaleKeep(s, s', mod, u);
      }
    }
  }

  lemma CountAddSize(s: State, mod: nat, t: nat, k: nat)
    requires mod > 0 && Counted(s) && Enabled(s, AddSize(t, k))
    ensures Counted(Next(s, mod, AddSize(t, k)))
  {
    hide Count;
    var s' := Next(s, mod, AddSize(t, k));
    BothCounts(s.pcs, t, s'.pcs[t]);
    assert s'.held.Keys == s.held.Keys + {k};
  }

  lemma KeepAddSize(s: State, mod: nat, t: nat, k: nat)
    requires mod > 0 && Inv(s, mod) && Enabled(s, AddSize(t, k))
    ensures Inv(Next(s, mod, AddSize(t, k)), mod)
  {
    hide NoDup, Chain, Holds, Counted;
    var s' := Next(s, mod, AddSize(t, k));
    assert ThreadOk(s, mod, t);
    CountAddSize(s, mod, t, k);
    FreeKeep(s, s');
    forall u | 0 <= u < |s'.pcs| ensures ThreadOk(s', mod, u) {
      assert ThreadOk(s, mod, u);
      if u != t {
        OthersKeep(s, s', mod, u);
      }
    }
  }

  lemma CountLoadFree(s: State, mod: nat, t: nat, k: nat)
    requires mod > 0 && Counted(s) && Enabled(s, LoadFree(t, k))
    ensures Counted(Next(s, mod, LoadFree(t, k)))
  {
    hide Count;
    var s' := Next(s, mod, LoadFree(t, k));
    BothCounts(s.pcs, t, s'.pcs[t]);
    assert s.held.Keys == s'.held.Keys + {k};
  }

  lemma KeepLoadFree(s: State, mod: nat, t: nat, k: nat)
    requires mod > 0 && Inv(s, mod) && Enabled(s, LoadFree(t, k))
    ensures Inv(Next(s, mod, LoadFree(t, k)), mod)
  {
    hide NoDup, Chain, Holds, Count, Counted;
    var s' := Next(s, mod, LoadFree(t, k));
    CountLoadFree(s, mod, t, k);
    FreeKeep(s, s');
    forall u | 0 <= u < |s'.pcs| ensures ThreadOk(s', mod, u) {
      assert ThreadOk(s, mod, u);
      if u != t {
        OthersKeep(s, s', mod, u);
      }
    }
  }

  lemma KeepStore(s: State, mod: nat, t: nat)
    requires mod > 0 && Inv(s, mod) && Enabled(s, StoreNext(t))
    ensures Inv(Next(s, mod, StoreNext(t)), mod)
  {
    hide NoDup, Chain, Holds;
    var s' := Next(s, mod, StoreNext(t));
    assert ThreadOk(s, mod, t);
    BothCounts(s.pcs, t, s'.pcs[t]);
    FreeKeep(s, s');
    forall u | 0 <= u < |s'.pcs| ensures ThreadOk(s', mod, u) {
      assert ThreadOk(s, mod, u);
      if u != t {
        OthersKeep(s, s', mod, u);
      }
    }
  }

  lemma KeepScribble(s: State, mod: nat, k: nat, x: u32)
    requires mod > 0 && Inv(s, mod) && Enabled(s, Scribble(k, x))
    ensures Inv(Next(s, mod, Scribble(k, x)), mod)
  {
    hide NoDup, Chain, Holds;
    var s' := Next(s, mod, Scribble(k, x));
    FreeKeep(s, s');
    forall u | 0 <= u < |s'.pcs| ensures ThreadOk(s', mod, u) {
      assert ThreadOk(s, mod, u);
      OthersKeep(s, s', mod, u);
    }
  }

  lemma StepKeeps(s: State, mod: nat, e: Step)
    requires mod > 0 && Inv(s, mod) && Enabled(s, e) && Timely(s, mod, e)
    ensures Inv(Next(s, mod, e), mod)
  {
    hide Inv, Next;
    match e
    case CasAlloc(t) => KeepCasAlloc(s, mod, t);
    case CasFree(t) => KeepCasFree(s, mod, t);
    case AddSize(t, k) => KeepAddSize(s, mod, t, k);
    case LoadFree(t, k) => KeepLoadFree(s, mod, t, k);
    case StoreNext(t) => KeepStore(s, mod, t);
    case Scribble(k, x) => KeepScribble(s, mod, k, x);
    case _ => KeepLook(s, mod, e);
  }

  lemma InvSafe(s: State, mod: nat)
    requires mod > 0 && Inv(s, mod)
    ensures Safe(s)
  {
    hide NoDup, Chain, Holds;
    forall t | 0 <= t < |s.pcs| && HasSlot(s.pcs[t])
      ensures SlotOf(s.pcs[t]).value < |s.place| && s.place[SlotOf(s.pcs[t]).value] == InThread(t)
    {
      assert ThreadOk(s, mod, t);
    }
    forall x: nat | x < |s.place| && s.place[x] != InFree ensures x !in s.free {
      NotHeld(s.place, s.free, InFree, x);
    }
  }

  /** The range conditions in Enabled never hold a thread back: whatever it is about to do, it can. */
  lemma NoThreadBlocked(s: State, mod: nat, t: nat, k: nat)
    requires mod > 0 && Inv(s, mod) && t < |s.pcs| && k !in s.held
    ensures match s.pcs[t]
      case Idle => Enabled(s, LoadAlloc(t)) && forall j :: j in s.held ==> Enabled(s, LoadFree(t, j))
      case Loaded(_, _, _) => Enabled(s, ReadNext(t))
      case Read(tag, h, _, _) => Enabled(s, FailAlloc(t)) && (tag == s.tag && h == s.head ==> Enabled(s, CasAlloc(t)))
      case Taken(_) => Enabled(s, AddSize(t, k))
      case Freeing(_, _, _, _) => Enabled(s, StoreNext(t))
      case Stored(_, tag, h, _) => Enabled(s, FailFree(t)) && (tag == s.tag && h == s.head ==> Enabled(s, CasFree(t)))
      case Freed => Enabled(s, SubSize(t))
  {
    hide NoDup, Chain, Holds, Counted;
    assert ThreadOk(s, mod, t);
  }

  /** An exchange that finds another head means some thread's exchange succeeded since the load: the pool is lock-free. */
  lemma FailureMeansProgress(s: State, mod: nat, t: nat)
    requires mod > 0 && Inv(s, mod) && t < |s.pcs| && (s.pcs[t].Read? || s.pcs[t].Stored?)
    requires s.pcs[t].tag != s.tag || s.pcs[t].head != s.head
    ensures s.pcs[t].ver < s.ver
  {
    hide FreeOk, Counted;
    assert ThreadOk(s, mod, t);
  }

  lemma {:induction false} CountNone(n: nat, p: Pc -> bool)
    requires !p(Idle)
    ensures Count(seq(n, _ => Idle), p) == 0
  {
    if n > 0 {
      assert seq(n, _ => Idle)[1..] == seq(n - 1, _ => Idle);
      CountNone(n - 1, p);
    }
  }

  lemma StartFree(cap: nat, n: nat)
    requires 0 < cap <= NIL
    ensures FreeOk(Start(cap, n))
  {
    hide Count;
    var s := Start(cap, n);
    forall x: nat | x < cap ensures x in s.free {
      assert s.free[x] == x;
    }
  }

  lemma StartInv(cap: nat, n: nat, mod: nat)
    requires 0 < cap <= NIL && mod > 0
    ensures Inv(Start(cap, n), mod)
  {
    hide FreeOk, Count;
    StartFree(cap, n);
    CountNone(n, HasSlot);
    CountNone(n, Leaving);
    ModSmall(0, mod);
  }

  lemma {:induction false} RunKeeps(s: State, mod: nat, es: seq<Step>)
    requires mod > 0 && Inv(s, mod) && Runs(s, mod, es, true)
    ensures Inv(After(s, mod, es, true), mod)
    decreases es
  {
    hide Inv, Next;
    if es != [] {
      StepKeeps(s, mod, es[0]);
      RunKeeps(Next(s, mod, es[0]), mod, es[1..]);
    }
  }

  /**
    Every interleaving, from a fresh pool, for any number of slots and threads: as long as fewer than `mod` head updates
    fall between a load and its compare-exchange, the pool is safe.
   */
  lemma RunsSafe(cap: nat, n: nat, mod: nat, es: seq<Step>)
    requires 0 < cap <= NIL && mod > 0 && Runs(Start(cap, n), mod, es, true)
    ensures Safe(After(Start(cap, n), mod, es, true))
  {
    hide Inv, Start;
    StartInv(cap, n, mod);
    RunKeeps(Start(cap, n), mod, es);
    InvSafe(After(Start(cap, n), mod, es, true), mod);
  }

  lemma {:induction false} CountIdle(pcs: seq<Pc>, p: Pc -> bool)
    requires !p(Idle) && forall t :: 0 <= t < |pcs| ==> pcs[t] == Idle
    ensures Count(pcs, p) == 0
  {
    if pcs != [] {
      CountIdle(pcs[1..], p);
    }
  }

  /** With no call under way, the size counter is the number of slots handed out. */
  lemma AtRest(s: State)
    requires Safe(s) && forall t :: 0 <= t < |s.pcs| ==> s.pcs[t] == Idle
    ensures s.size == |s.held| == |s.next| - |s.free|
  {
    hide Chain, NoDup, Exclusive;
    CountIdle(s.pcs, HasSlot);
    CountIdle(s.pcs, Leaving);
  }

  // ── the bound on updates is sharp ──

  /** An allocate, and a deallocate, that no other thread interrupts. */
  function WholeAlloc(t: nat, k: nat): seq<Step> {
    [LoadAlloc(t), ReadNext(t), CasAlloc(t), AddSize(t, k)]
  }

  function WholeFree(t: nat, k: nat): seq<Step> {
    [LoadFree(t, k), StoreNext(t), CasFree(t), SubSize(t)]
  }

  lemma {:induction false} RunsConcat(s: State, mod: nat, a: seq<Step>, b: seq<Step>)
    requires mod > 0 && Runs(s, mod, a, false) && Runs(After(s, mod, a, false), mod, b, false)
    ensures Runs(s, mod, a + b, false) && After(s, mod, a + b, false) == After(After(s, mod, a, false), mod, b, false)
    decreases a
  {
    if a == [] {
      assert a + b == b;
    } else {
      assert (a + b)[1..] == a[1..] + b;
      RunsConcat(Next(s, mod, a[0]), mod, a[1..], b);
    }
  }

  lemma OneStep(s: State, mod: nat, e: Step)
    requires mod > 0 && Enabled(s, e)
    ensures Runs(s, mod, [e], false) && After(s, mod, [e], false) == Next(s, mod, e)
  {
  }

  lemma TwoSteps(s: State, mod: nat, e: Step, f: Step)
    requires mod > 0 && Enabled(s, e) && Enabled(Next(s, mod, e), f)
    ensures Runs(s, mod, [e, f], false) && After(s, mod, [e, f], false) == Next(Next(s, mod, e), mod, f)
  {
    hide Next, Enabled;
    OneStep(s, mod, e);
    OneStep(Next(s, mod, e), mod, f);
    RunsConcat(s, mod, [e], [f]);
    assert [e] + [f] == [e, f];
  }

  lemma FourSteps(s: State, mod: nat, e: Step, f: Step, g: Step, h: Step)
    requires mod > 0 && Enabled(s, e) && Enabled(Next(s, mod, e), f) && Enabled(Next(Next(s, mod, e), mod, f), g)
    requires Enabled(Next(Next(Next(s, mod, e), mod, f), mod, g), h)
    ensures Runs(s, mod, [e, f, g, h], false)
    ensures After(s, mod, [e, f, g, h], false) == Next(Next(Next(Next(s, mod, e), mod, f), mod, g), mod, h)
  {
    hide Next, Enabled;
    TwoSteps(s, mod, e, f);
    TwoSteps(Next(Next(s, mod, e), mod, f), mod, g, h);
    RunsConcat(s, mod, [e, f], [g, h]);
    assert [e, f] + [g, h] == [e, f, g, h];
  }

  /** Uninterrupted, allocate hands out the top of the free stack. */
  lemma AllocPops(s: State, mod: nat, t: nat, k: nat)
    requires mod > 0 && t < |s.pcs| && s.pcs[t] == Idle && k !in s.held
    requires s.head < |s.next| == |s.place| <= NIL && s.free != [] && s.tag < mod
    ensures Runs(s, mod, WholeAlloc(t, k), false)
    ensures After(s, mod, WholeAlloc(t, k), false) ==
            s.(head := s.next[s.head], tag := (s.tag + 1) % mod, ver := s.ver + 1, size := s.size + 1, free := s.free[1..],
               held := s.held[k := s.head], place := s.place[s.head := Client(k)])
  {
    FourSteps(s, mod, LoadAlloc(t), ReadNext(t), CasAlloc(t), AddSize(t, k));
    assert s.pcs[t := Idle] == s.pcs;
  }

  /** Uninterrupted, deallocate pushes the slot back. */
  lemma FreePushes(s: State, mod: nat, t: nat, k: nat)
    requires mod > 0 && t < |s.pcs| && s.pcs[t] == Idle && k in s.held && s.held[k] < |s.next| == |s.place| <= NIL
    ensures Runs(s, mod, WholeFree(t, k), false)
    ensures After(s, mod, WholeFree(t, k), false) ==
            s.(head := s.held[k], tag := (s.tag + 1) % mod, ver := s.ver + 1, size := s.size - 1, free := [s.held[k]] + s.free,
               next := s.next[s.held[k] := s.head], held := s.held - {k}, place := s.place[s.held[k] := InFree])
  {
    FourSteps(s, mod, LoadFree(t, k), StoreNext(t), CasFree(t), SubSize(t));
    assert s.pcs[t := Idle] == s.pcs;
  }

  /** Thread 0 stalls with a stale link to slot 1, which thread 1 has since taken; 4 + 2k updates have passed. */
  ghost function Stalled(mod: nat, k: nat): State
    requires mod > 0
  {
    State([3, 2, 3, NIL], (4 + 2 * k) % mod, 0, 2, [Read(0, 0, 1, 0), Idle], map[1 := 1, 2 := 2],
          4 + 2 * k, [0, 3], [InFree, Client(1), Client(2), InFree])
  }

  /** Token i names slot i. */
  ghost function Tokens(n: nat): map<nat, nat> {
    if n == 0 then map[] else Tokens(n - 1)[n - 1 := n - 1]
  }

  /** Thread 0 has read slot 0 and its link; thread 1 holds the first n slots. */
  ghost function Taking(mod: nat, n: nat): State
    requires mod > 0 && n <= 3
  {
    State([1, 2, 3, NIL], n % mod, n, n, [Read(0, 0, 1, 0), Idle], Tokens(n), n,
          [0, 1, 2, 3][n..], seq(4, i requires 0 <= i => if i < n then Client(i) else InFree))
  }

  lemma TakeOne(mod: nat, n: nat)
    requires mod >= 4 && n < 3
    ensures Runs(Taking(mod, n), mod, WholeAlloc(1, n), false)
    ensures After(Taking(mod, n), mod, WholeAlloc(1, n), false) == Taking(mod, n + 1)
  {
    hide Runs, After;
    var s := Taking(mod, n);
    AllocPops(s, mod, 1, n);
    AddWrap(n, 1, mod);
    assert s.held[n := n] == Taking(mod, n + 1).held;
    assert s.place[n := Client(n)] == Taking(mod, n + 1).place;
  }

  lemma TakeAll(mod: nat, n: nat) returns (es: seq<Step>)
    requires mod >= 4 && n <= 3
    ensures Runs(Start(4, 2), mod, es, false) && After(Start(4, 2), mod, es, false) == Taking(mod, n)
  {
    if n == 0 {
      es := [LoadAlloc(0), ReadNext(0)];
      var s := Start(4, 2);
      assert s.pcs == [Idle, Idle] && s.next == [1, 2, 3, NIL] && s.place == Taking(mod, 0).place && s.free == [0, 1, 2, 3];
      TwoSteps(s, mod, LoadAlloc(0), ReadNext(0));
    } else {
      hide Runs, After, Start, Taking;
      es := TakeAll(mod, n - 1);
      TakeOne(mod, n - 1);
      RunsConcat(Start(4, 2), mod, es, WholeAlloc(1, n - 1));
      es := es + WholeAlloc(1, n - 1);
    }
  }

  lemma StallBegins(mod: nat) returns (es: seq<Step>)
    requires mod >= 4
    ensures Runs(Start(4, 2), mod, es, false) && After(Start(4, 2), mod, es, false) == Stalled(mod, 0)
  {
    hide Runs, After, Start;
    es := TakeAll(mod, 3);
    var s := Taking(mod, 3);
    FreePushes(s, mod, 1, 0);
    AddWrap(3, 1, mod);
    assert s.held - {0} == map[1 := 1, 2 := 2];
    assert After(s, mod, WholeFree(1, 0), false) == Stalled(mod, 0);
    RunsConcat(Start(4, 2), mod, es, WholeFree(1, 0));
    es := es + WholeFree(1, 0);
  }

  /** Taking and returning slot 0 passes two more updates and changes nothing else. */
  lemma StallContinues(mod: nat, k: nat)
    requires mod >= 4
    ensures Runs(Stalled(mod, k), mod, WholeAlloc(1, 0) + WholeFree(1, 0), false)
    ensures After(Stalled(mod, k), mod, WholeAlloc(1, 0) + WholeFree(1, 0), false) == Stalled(mod, k + 1)
  {
    var s := Stalled(mod, k);
    AddWrap(4 + 2 * k, 1, mod);
    AddWrap(5 + 2 * k, 1, mod);
    AllocPops(s, mod, 1, 0);
    var s1 := s.(head := 3, tag := (5 + 2 * k) % mod, ver := 5 + 2 * k, size := 3, free := [3], held := map[0 := 0, 1 := 1, 2 := 2],
                 place := [Client(0), Client(1), Client(2), InFree]);
    assert After(s, mod, WholeAlloc(1, 0), false) == s1;
    FreePushes(s1, mod, 1, 0);
    assert After(s1, mod, WholeFree(1, 0), false) == Stalled(mod, k + 1);
    RunsConcat(s, mod, WholeAlloc(1, 0), WholeFree(1, 0));
  }

  lemma {:induction false} StallLasts(mod: nat, k: nat) returns (es: seq<Step>)
    requires mod >= 4
    ensures Runs(Start(4, 2), mod, es, false) && After(Start(4, 2), mod, es, false) == Stalled(mod, k)
  {
    hide Stalled, Start;
    if k == 0 {
      es := StallBegins(mod);
    } else {
      es := StallLasts(mod, k - 1);
      StallContinues(mod, k - 1);
      RunsConcat(Start(4, 2), mod, es, WholeAlloc(1, 0) + WholeFree(1, 0));
      es := es + (WholeAlloc(1, 0) + WholeFree(1, 0));
    }
  }

  /** When the tag has come round, the stalled exchange succeeds and puts slot 1, which is handed out, on top. */
  lemma StaleExchange(mod: nat, k: nat)
    requires mod >= 4 && 4 + 2 * k == mod
    ensures Enabled(Stalled(mod, k), CasAlloc(0)) && Enabled(Next(Stalled(mod, k), mod, CasAlloc(0)), AddSize(0, 0))
    ensures var s := Next(Next(Stalled(mod, k), mod, CasAlloc(0)), mod, AddSize(0, 0));
      && s.pcs == [Idle, Idle] && s.head == 1 && |s.next| == |s.place| == 4 && s.free != [] && s.tag < mod
      && 1 in s.held && s.held[1] == 1 && 3 !in s.held
  {
    ModAddMultiple(0, 1, mod);
  }

  /**
    Without the bound the pool breaks, for every even tag range of at least 4: after exactly `mod` head updates the stale
    exchange goes through, and the next allocate hands slot 1 to a second owner.
   */
  lemma WrappedTagHandsOutTwice(mod: nat) returns (es: seq<Step>)
    requires mod >= 4 && mod % 2 == 0
    ensures Runs(Start(4, 2), mod, es, false)
    ensures var s := After(Start(4, 2), mod, es, false); 1 in s.held && 3 in s.held && s.held[1] == s.held[3]
  {
    hide Runs, After, Start, Next, Enabled, Stalled;
    var k := (mod - 4) / 2;
    es := StallLasts(mod, k);
    assert 4 + 2 * k == mod;
    var s := Stalled(mod, k);
    StaleExchange(mod, k);
    TwoSteps(s, mod, CasAlloc(0), AddSize(0, 0));
    RunsConcat(Start(4, 2), mod, es, [CasAlloc(0), AddSize(0, 0)]);
    es := es + [CasAlloc(0), AddSize(0, 0)];
    var s1 := Next(Next(s, mod, CasAlloc(0)), mod, AddSize(0, 0));
    AllocPops(s1, mod, 1, 3);
    RunsConcat(Start(4, 2), mod, es, WholeAlloc(1, 3));
    es := es + WholeAlloc(1, 3);
  }
}
