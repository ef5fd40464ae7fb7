/**
  The single-producer, single-consumer byte ring: loads, byte copies and stores of both sides interleaved in any order,
  over counters that wrap.
 */
module Spsc {
  import opened Types
  import opened Modulo

  /** n: ring size. wrap: range of the counters; 2^64 in the code, of which any power of two below it is a divisor. */
  datatype Config = Config(n: nat, wrap: nat)

  predicate Proper(c: Config) {
    0 < c.n < c.wrap && c.wrap % c.n == 0
  }

  /** headAbs and tailAbs are the unwrapped values behind head and tail. */
  datatype Producer =
    | PIdle
    | PHead(data: seq<Byte>, head: nat, headAbs: nat)
    | PCopy(data: seq<Byte>, tail: nat, actual: nat, written: set<nat>, headAbs: nat)

  datatype Consumer =
    | CIdle
    | CTail(request: nat, tail: nat, tailAbs: nat)
    | CRegion(pos: nat, actual: nat, seen: seq<Byte>)

  /** produced and consumed record every byte published and released so far. */
  datatype State = State(buf: seq<Byte>, head: nat, tail: nat, prod: Producer, cons: Consumer,
                         produced: seq<Byte>, consumed: seq<Byte>)

  datatype Step =
    | CallPush(data: seq<Byte>)
    | Reserve
    | CopyByte(i: nat)
    | Publish
    | CallAcquire(request: nat)
    | Acquire
    | ReadByte
    | Release(bytes: nat)

  function Least(a: int, b: int): int {
    if a < b then a else b
  }

  /** Unsigned subtraction. */
  function Sub(c: Config, a: nat, b: nat): nat
    requires Proper(c)
  {
    (a + c.wrap - b % c.wrap) % c.wrap
  }

  /** Where byte i of a push lands: the first copy runs to the end of the buffer, the second starts over. */
  function Target(c: Config, tail: nat, actual: nat, i: nat): int
    requires Proper(c)
  {
    var pos := tail % c.n;
    var n1 := Least(c.n - pos, actual);
    if i < n1 then pos + i else i - n1
  }

  predicate Enabled(c: Config, s: State, e: Step)
    requires Proper(c)
  {
    match e
    case CallPush(_) => s.prod == PIdle
    case Reserve => s.prod.PHead?
    case CopyByte(i) =>
      && s.prod.PCopy? && i < s.prod.actual <= |s.prod.data| && i !in s.prod.written
      && 0 <= Target(c, s.prod.tail, s.prod.actual, i) < |s.buf|
    case Publish => s.prod.PCopy? && s.prod.actual <= |s.prod.data| && forall i :: 0 <= i < s.prod.actual ==> i in s.prod.written
    case CallAcquire(_) => s.cons == CIdle
    case Acquire => s.cons.CTail?
    case ReadByte => s.cons.CRegion? && |s.cons.seen| < s.cons.actual && s.cons.pos + |s.cons.seen| < |s.buf|
    case Release(k) => s.cons.CRegion? && k <= |s.cons.seen|
  }

  function Next(c: Config, s: State, e: Step): State
    requires Proper(c) && Enabled(c, s, e)
  {
    match e
    case CallPush(data) => s.(prod := PHead(data, s.head, |s.consumed|))
    case Reserve =>
      var p := s.prod;
      var free := c.n - Sub(c, s.tail, p.head);
      if free <= 0 || p.data == [] then s.(prod := PIdle)
      else s.(prod := PCopy(p.data, s.tail, Least(|p.data|, free), {}, p.headAbs))
    case CopyByte(i) =>
      var p := s.prod;
      s.(buf := s.buf[Target(c, p.tail, p.actual, i) := p.data[i]], prod := p.(written := p.written + {i}))
    case Publish =>
      var p := s.prod;
      s.(tail := (p.tail + p.actual) % c.wrap, prod := PIdle, produced := s.produced + p.data[..p.actual])
    case CallAcquire(r) => s.(cons := CTail(r, s.tail, |s.produced|))
    case Acquire =>
      var used := Sub(c, s.cons.tail, s.head);
      if used == 0 || s.cons.request == 0 then s.(cons := CIdle)
      else
        var pos := s.head % c.n;
        s.(cons := CRegion(pos, Least(Least(s.cons.request, used), c.n - pos), []))
    case ReadByte => s.(cons := s.cons.(seen := s.cons.seen + [s.buf[s.cons.pos + |s.cons.seen|]]))
    case Release(k) => s.(head := (s.head + k) % c.wrap, cons := CIdle, consumed := s.consumed + s.cons.seen[..k])
  }

  ghost function Start(c: Config, buf: seq<Byte>): State {
    State(buf, 0, 0, PIdle, CIdle, [], [])
  }

  ghost predicate Runs(c: Config, s: State, es: seq<Step>)
    requires Proper(c)
    decreases es
  {
    es == [] || (Enabled(c, s, es[0]) && Runs(c, Next(c, s, es[0]), es[1..]))
  }

  ghost function After(c: Config, s: State, es: seq<Step>): State
    requires Proper(c) && Runs(c, s, es)
    decreases es
  {
    if es == [] then s else After(c, Next(c, s, es[0]), es[1..])
  }

  /**
    Bytes come out in the order they went in; the bytes in flight fit the ring; and a region handed to the consumer
    shows the next bytes in order, now and at every state until it is released.
   */
  ghost predicate Safe(c: Config, s: State) {
    && s.consumed <= s.produced && |s.produced| - |s.consumed| <= c.n
    && (s.cons.CRegion? ==>
          && 0 < s.cons.actual && |s.consumed| + s.cons.actual <= |s.produced|
          && s.cons.pos + s.cons.actual <= |s.buf|
          && s.buf[s.cons.pos..s.cons.pos + s.cons.actual] == s.produced[|s.consumed|..|s.consumed| + s.cons.actual])
  }

  // ── the invariant ──

  /** In-flight byte j lies at j modulo n. */
  ghost predicate Live(c: Config, s: State)
    requires Proper(c) && |s.buf| == c.n
  {
    forall j :: |s.consumed| <= j < |s.produced| ==> s.buf[j % c.n] == s.produced[j]
  }

  ghost predicate Counters(c: Config, s: State)
    requires Proper(c)
  {
    && |s.consumed| <= |s.produced| <= |s.consumed| + c.n
    && s.head == |s.consumed| % c.wrap && s.tail == |s.produced| % c.wrap
    && s.consumed == s.produced[..|s.consumed|]
  }

  ghost predicate ProdOk(c: Config, s: State)
    requires Proper(c) && |s.buf| == c.n
  {
    match s.prod
    case PIdle => true
    case PHead(_, h, a) => a <= |s.consumed| && h == a % c.wrap && |s.produced| <= a + c.n
    case PCopy(data, t, k, written, a) =>
      && a <= |s.consumed| && t == s.tail && k <= |data| && |s.produced| + k <= a + c.n
      && forall i :: i in written ==> i < k && s.buf[(|s.produced| + i) % c.n] == data[i]
  }

  ghost predicate ConsOk(c: Config, s: State)
    requires Proper(c)
  {
    match s.cons
    case CIdle => true
    case CTail(_, t, a) => |s.consumed| <= a <= |s.produced| && t == a % c.wrap
    case CRegion(pos, k, seen) =>
      && pos == |s.consumed| % c.n && 0 < k && pos + k <= c.n && |s.consumed| + k <= |s.produced|
      && |seen| <= k && seen == s.produced[|s.consumed|..|s.consumed| + |seen|]
  }

  ghost predicate Inv(c: Config, s: State)
    requires Proper(c)
  {
    |s.buf| == c.n && Counters(c, s) && Live(c, s) && ProdOk(c, s) && ConsOk(c, s)
  }

  // ── arithmetic of wrapped counters ──

  lemma SubExact(c: Config, a: nat, b: nat)
    requires Proper(c) && b <= a < b + c.wrap
    ensures Sub(c, a % c.wrap, b % c.wrap) == a - b
  {
    hide Sub;
    DivMod(b, c.wrap);
    SubSmall(c, a % c.wrap, b % c.wrap);
    SubMod(a, b, c.wrap);
  }

  lemma SubSmall(c: Config, x: nat, y: nat)
    requires Proper(c) && y < c.wrap
    ensures Sub(c, x, y) == (x + c.wrap - y) % c.wrap
  {
    ModSmall(y, c.wrap);
  }

  /** Reducing by the counter range first does not change the position in the ring. */
  lemma WrapThenRing(c: Config, a: nat)
    requires Proper(c)
    ensures (a % c.wrap) % c.n == a % c.n
  {
    DivMod(a, c.wrap);
    DivMod(c.wrap, c.n);
    RingMultiple(c.n, c.wrap / c.n, a / c.wrap, a % c.wrap);
  }

  lemma RingMultiple(n: nat, k: nat, q: nat, r: nat)
    requires n > 0
    ensures ((n * k) * q + r) % n == r % n
  {
    MulAssoc(n, k, q);
    ModAddMultiple(r, k * q, n);
  }

  lemma AddInRing(a: nat, i: nat, n: nat)
    requires 0 < n && i < n
    ensures (a + i) % n == if a % n + i < n then a % n + i else a % n + i - n
  {
    AddWrap(a, i, n);
    DivMod(a, n);
    if a % n + i < n {
      ModSmall(a % n + i, n);
    } else {
      ModSmall(a % n + i - n, n);
      ModAddMultiple(a % n + i - n, 1, n);
    }
  }

  /** The two copies of a push write byte i at its place in the ring. */
  lemma TargetExact(c: Config, t: nat, actual: nat, i: nat)
    requires Proper(c) && i < actual <= c.n
    ensures Target(c, t % c.wrap, actual, i) == (t + i) % c.n
    ensures 0 <= (t + i) % c.n < c.n
  {
    WrapThenRing(c, t);
    AddInRing(t, i, c.n);
    DivMod(t, c.n);
  }

  // ── every step keeps it ──

  /** A push takes as many bytes as fit between the published bytes and the head it loaded, wrapped or not. */
  lemma PushTakes(c: Config, s: State)
    requires Proper(c) && Inv(c, s) && s.prod.PHead?
    ensures var (data, a, t) := (s.prod.data, s.prod.headAbs, |s.produced|);
      && 0 <= c.n - (t - a)
      && Next(c, s, Reserve) == s.(prod :=
           if data == [] || t - a == c.n then PIdle
           else PCopy(data, s.tail, Least(|data|, c.n - (t - a)), {}, a))
  {
    hide Live, ConsOk, Sub;
    SubExact(c, |s.produced|, s.prod.headAbs);
  }

  lemma KeepReserve(c: Config, s: State)
    requires Proper(c) && Inv(c, s) && Enabled(c, s, Reserve)
    ensures Inv(c, Next(c, s, Reserve))
  {
    PushTakes(c, s);
  }

  lemma CopyKeepsLive(c: Config, s: State, i: nat, j: nat)
    requires Proper(c) && Inv(c, s) && Enabled(c, s, CopyByte(i)) && |s.consumed| <= j < |s.produced|
    ensures Next(c, s, CopyByte(i)).buf[j % c.n] == s.produced[j]
  {
    TargetExact(c, |s.produced|, s.prod.actual, i);
    DistinctResidues(j, |s.produced| + i, c.n);
    DivMod(j, c.n);
  }

  lemma CopyKeepsWritten(c: Config, s: State, i: nat, k: nat)
    requires Proper(c) && Inv(c, s) && Enabled(c, s, CopyByte(i)) && (k in s.prod.written || k == i)
    ensures k < s.prod.actual && Next(c, s, CopyByte(i)).buf[(|s.produced| + k) % c.n] == s.prod.data[k]
  {
    var t := |s.produced|;
    TargetExact(c, t, s.prod.actual, i);
    TargetExact(c, t, s.prod.actual, k);
    if k < i {
      DistinctResidues(t + k, t + i, c.n);
    } else if i < k {
      DistinctResidues(t + i, t + k, c.n);
    }
  }

  lemma KeepCopy(c: Config, s: State, i: nat)
    requires Proper(c) && Inv(c, s) && Enabled(c, s, CopyByte(i))
    ensures Inv(c, Next(c, s, CopyByte(i)))
  {
    var s' := Next(c, s, CopyByte(i));
    forall j | |s'.consumed| <= j < |s'.produced| ensures s'.buf[j % c.n] == s'.produced[j] {
      CopyKeepsLive(c, s, i, j);
    }
    forall k | k in s'.prod.written ensures k < s'.prod.actual && s'.buf[(|s'.produced| + k) % c.n] == s'.prod.data[k] {
      CopyKeepsWritten(c, s, i, k);
    }
  }

  lemma KeepPublish(c: Config, s: State)
    requires Proper(c) && Inv(c, s) && Enabled(c, s, Publish)
    ensures Inv(c, Next(c, s, Publish))
  {
    var s' := Next(c, s, Publish);
    AddWrap(|s.produced|, s.prod.actual, c.wrap);
    forall j | |s'.consumed| <= j < |s'.produced| ensures s'.buf[j % c.n] == s'.produced[j] {
      PublishedByte(c, s, j);
    }
  }

  lemma PublishedByte(c: Config, s: State, j: nat)
    requires Proper(c) && Inv(c, s) && Enabled(c, s, Publish) && |s.consumed| <= j < |s.produced| + s.prod.actual
    ensures s.buf[j % c.n] == (s.produced + s.prod.data[..s.prod.actual])[j]
  {
    if j >= |s.produced| {
      assert j - |s.produced| in s.prod.written;
    }
  }

  /** An acquire gets the bytes asked for, up to what was published when it looked and to the end of the buffer. */
  lemma AcquireTakes(c: Config, s: State)
    requires Proper(c) && Inv(c, s) && s.cons.CTail?
    ensures var (r, a, h) := (s.cons.request, s.cons.tailAbs, |s.consumed|);
      && h <= a && 0 <= c.n - h % c.n
      && Next(c, s, Acquire) == s.(cons :=
           if a == h || r == 0 then CIdle
           else CRegion(h % c.n, Least(Least(r, a - h), c.n - h % c.n), []))
  {
    SubExact(c, s.cons.tailAbs, |s.consumed|);
    WrapThenRing(c, |s.consumed|);
    DivMod(|s.consumed|, c.n);
  }

  lemma KeepAcquire(c: Config, s: State)
    requires Proper(c) && Inv(c, s) && Enabled(c, s, Acquire)
    ensures Inv(c, Next(c, s, Acquire))
  {
    AcquireTakes(c, s);
    DivMod(|s.consumed|, c.n);
  }

  lemma RegionByte(c: Config, s: State, i: nat)
    requires Proper(c) && Inv(c, s) && s.cons.CRegion? && i < s.cons.actual
    ensures s.buf[s.cons.pos + i] == s.produced[|s.consumed| + i]
  {
    AddInRing(|s.consumed|, i, c.n);
  }

  lemma KeepRead(c: Config, s: State)
    requires Proper(c) && Inv(c, s) && Enabled(c, s, ReadByte)
    ensures Inv(c, Next(c, s, ReadByte))
  {
    RegionByte(c, s, |s.cons.seen|);
  }

  lemma KeepRelease(c: Config, s: State, k: nat)
    requires Proper(c) && Inv(c, s) && Enabled(c, s, Release(k))
    ensures Inv(c, Next(c, s, Release(k)))
  {
    AddWrap(|s.consumed|, k, c.wrap);
  }

  lemma StepKeeps(c: Config, s: State, e: Step)
    requires Proper(c) && Inv(c, s) && Enabled(c, s, e)
    ensures Inv(c, Next(c, s, e))
  {
    match e
    case CallPush(_) =>
    case Reserve => KeepReserve(c, s);
    case CopyByte(i) => KeepCopy(c, s, i);
    case Publish => KeepPublish(c, s);
    case CallAcquire(_) =>
    case Acquire => KeepAcquire(c, s);
    case ReadByte => KeepRead(c, s);
    case Release(k) => KeepRelease(c, s, k);
  }

  lemma InvSafe(c: Config, s: State)
    requires Proper(c) && Inv(c, s)
    ensures Safe(c, s)
  {
    hide Live, ProdOk;
    if s.cons.CRegion? {
      var region := s.buf[s.cons.pos..s.cons.pos + s.cons.actual];
      var due := s.produced[|s.consumed|..|s.consumed| + s.cons.actual];
      forall i | 0 <= i < |region| ensures region[i] == due[i] {
        RegionByte(c, s, i);
      }
    }
  }

  /** The range conditions in Enabled never hold either side back. */
  lemma NoSideBlocked(c: Config, s: State)
    requires Proper(c) && Inv(c, s)
    ensures s.prod.PCopy? ==> forall i :: 0 <= i < s.prod.actual && i !in s.prod.written ==> Enabled(c, s, CopyByte(i))
    ensures s.prod.PCopy? && (forall i :: 0 <= i < s.prod.actual ==> i in s.prod.written) ==> Enabled(c, s, Publish)
    ensures s.cons.CRegion? && |s.cons.seen| < s.cons.actual ==> Enabled(c, s, ReadByte)
  {
    if s.prod.PCopy? {
      forall i | 0 <= i < s.prod.actual && i !in s.prod.written ensures Enabled(c, s, CopyByte(i)) {
        TargetExact(c, |s.produced|, s.prod.actual, i);
      }
    }
  }

  lemma {:induction false} RunKeeps(c: Config, s: State, es: seq<Step>)
    requires Proper(c) && Inv(c, s) && Runs(c, s, es)
    ensures Inv(c, After(c, s, es))
    decreases es
  {
    hide Inv, Next, Enabled;
    if es != [] {
      StepKeeps(c, s, es[0]);
      RunKeeps(c, Next(c, s, es[0]), es[1..]);
    }
  }

  /** Every interleaving, any number of wraps of the counters. */
  lemma RunsSafe(c: Config, buf: seq<Byte>, es: seq<Step>)
    requires Proper(c) && |buf| == c.n && Runs(c, Start(c, buf), es)
    ensures Safe(c, After(c, Start(c, buf), es))
  {
    ModSmall(0, c.wrap);
    RunKeeps(c, Start(c, buf), es);
    InvSafe(c, After(c, Start(c, buf), es));
  }
}
