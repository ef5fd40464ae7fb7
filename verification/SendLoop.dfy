/**
  Response batches travel to the Send thread through the byte ring as a 48-byte header followed by the response frames.
  The ring is taken at the level the Spsc module proves it works at: a push appends as many bytes as fit, an acquire
  shows the next bytes up to the end of the buffer, a release drops them.
 */
module SendLoop {
  import opened Types
  import opened Modulo
  import opened Spsc

  const RESPONSE_SIZE := 48
  const RSP_HEADER: Byte := 0x87

  /** A batch of responses for one connection; junk is what the unset bytes of the header happen to hold. */
  datatype Batch = Batch(fd: nat, body: seq<Byte>, junk: seq<Byte>)

  predicate WellFormed(b: Batch) {
    && |b.junk| == 39 && b.fd < 0x8000_0000
    && |b.body| % RESPONSE_SIZE == 0 && 0 < |b.body| / RESPONSE_SIZE < TWO32
  }

  // ── header layout ──

  function Little(v: nat): (r: seq<Byte>)
    requires v < TWO32
    ensures |r| == 4
  {
    [v % 0x100, v / 0x100 % 0x100, v / 0x1_0000 % 0x100, v / 0x100_0000]
  }

  function FromLittle(b: seq<Byte>): nat
    requires |b| == 4
  {
    (b[0] as int) + 0x100 * (b[1] as int) + 0x1_0000 * (b[2] as int) + 0x100_0000 * (b[3] as int)
  }

  lemma LittleRoundTrip(v: nat)
    requires v < TWO32
    ensures FromLittle(Little(v)) == v
  {
    assert v == v % 0x100 + 0x100 * (v / 0x100);
    assert v / 0x100 == v / 0x100 % 0x100 + 0x100 * (v / 0x1_0000);
    assert v / 0x1_0000 == v / 0x1_0000 % 0x100 + 0x100 * (v / 0x100_0000);
  }

  function Header(b: Batch): (h: seq<Byte>)
    requires WellFormed(b)
    ensures |h| == RESPONSE_SIZE
  {
    [RSP_HEADER] + b.junk[..7] + Little(b.fd) + Little(|b.body| / RESPONSE_SIZE) + b.junk[7..]
  }

  function HeaderFd(h: seq<Byte>): nat
    requires |h| == RESPONSE_SIZE
  {
    FromLittle(h[8..12])
  }

  function HeaderCount(h: seq<Byte>): nat
    requires |h| == RESPONSE_SIZE
  {
    FromLittle(h[12..16])
  }

  /** The Send thread reads back the connection and the byte count from any header. */
  lemma HeaderRoundTrip(b: Batch)
    requires WellFormed(b)
    ensures Header(b)[0] == RSP_HEADER && HeaderFd(Header(b)) == b.fd
    ensures HeaderCount(Header(b)) * RESPONSE_SIZE == |b.body|
  {
    hide Little, FromLittle;
    var h := Header(b);
    assert h[8..12] == Little(b.fd);
    assert h[12..16] == Little(|b.body| / RESPONSE_SIZE);
    LittleRoundTrip(b.fd);
    LittleRoundTrip(|b.body| / RESPONSE_SIZE);
    DivMod(|b.body|, RESPONSE_SIZE);
  }

  // ── the two threads ──

  /** headSeen: the release count the producer loaded last. */
  datatype Producer = Ready | Fits(batch: Batch, headSeen: nat) | HeaderIn(batch: Batch, headSeen: nat)

  datatype Consumer =
    | AtHeader
    | Got(hdr: seq<Byte>)
    | Partial(hdr: seq<Byte>)
    | GotMore(hdr: seq<Byte>, more: seq<Byte>)
    | Sending(fd: nat, need: nat, sent: nat)
    | Chunk(fd: nat, need: nat, sent: nat, size: nat)
    | Broken

  /** produced: bytes published. head: bytes released. batches, done: history of batches pushed and fully sent. */
  datatype Link = Link(produced: seq<Byte>, head: nat, prod: Producer, cons: Consumer, delivered: map<nat, seq<Byte>>,
                       batches: seq<Batch>, done: nat)

  datatype Move =
    | Check(batch: Batch)
    | PushHeader(headSeen: nat)
    | PushBody(headSeen: nat)
    | PopAcquire
    | PopRelease
    | PopMore
    | PopMoreRelease
    | SendAcquire
    | SendSome(r: nat)
    | SendRetry

  /** What the ring takes of a push, given the release count the push loaded. */
  function Taken(n: nat, s: Link, headSeen: nat, data: seq<Byte>): seq<Byte> {
    var k := Least(|data|, n - (|s.produced| - headSeen));
    if k <= 0 then [] else data[..k]
  }

  /** What an acquire shows. */
  function Shown(n: nat, s: Link, request: nat): (r: seq<Byte>)
    requires n > 0
  {
    var k := Least(Least(request, |s.produced| - s.head), n - s.head % n);
    if k <= 0 || s.head + k > |s.produced| then [] else s.produced[s.head..s.head + k]
  }

  function Delivered(s: Link, fd: nat): seq<Byte> {
    if fd in s.delivered then s.delivered[fd] else []
  }

  predicate CanMove(n: nat, s: Link, e: Move)
    requires n > 0
  {
    match e
    case Check(b) => s.prod.Ready? && WellFormed(b) && n - (|s.produced| - s.head) >= RESPONSE_SIZE + |b.body|
    case PushHeader(h) => s.prod.Fits? && WellFormed(s.prod.batch) && s.prod.headSeen <= h <= s.head
    case PushBody(h) => s.prod.HeaderIn? && s.prod.headSeen <= h <= s.head
    case PopAcquire => s.cons.AtHeader?
    case PopRelease => s.cons.Got?
    case PopMore => s.cons.Partial? && |s.cons.hdr| < RESPONSE_SIZE
    case PopMoreRelease => s.cons.GotMore?
    case SendAcquire => s.cons.Sending? && s.cons.sent < s.cons.need
    case SendSome(r) => s.cons.Chunk? && 0 < r <= s.cons.size && s.head + r <= |s.produced|
    case SendRetry => s.cons.Chunk?
  }

  /** A whole header names the batch; a torn or foreign one leaves the thread off the frame boundary. */
  function Decoded(hdr: seq<Byte>): Consumer {
    if |hdr| == RESPONSE_SIZE && hdr[0] == RSP_HEADER && HeaderCount(hdr) > 0
    then Sending(HeaderFd(hdr), HeaderCount(hdr) * RESPONSE_SIZE, 0)
    else Broken
  }

  function Moved(n: nat, s: Link, e: Move): Link
    requires n > 0 && CanMove(n, s, e)
  {
    match e
    case Check(b) => s.(prod := Fits(b, s.head))
    case PushHeader(h) =>
      var b := s.prod.batch;
      s.(produced := s.produced + Taken(n, s, h, Header(b)), prod := HeaderIn(b, h), batches := s.batches + [b])
    case PushBody(h) => s.(produced := s.produced + Taken(n, s, h, s.prod.batch.body), prod := Ready)
    case PopAcquire =>
      var got := Shown(n, s, RESPONSE_SIZE);
      if got == [] then s else s.(cons := Got(got))
    case PopRelease =>
      var hdr := s.cons.hdr;
      s.(head := s.head + |hdr|, cons := if |hdr| < RESPONSE_SIZE then Partial(hdr) else Decoded(hdr))
    case PopMore =>
      var got := Shown(n, s, RESPONSE_SIZE - |s.cons.hdr|);
      s.(cons := if got == [] then Broken else GotMore(s.cons.hdr, got))
    case PopMoreRelease => s.(head := s.head + |s.cons.more|, cons := Decoded(s.cons.hdr + s.cons.more))
    case SendAcquire =>
      var got := Shown(n, s, s.cons.need - s.cons.sent);
      if got == [] then s else s.(cons := Chunk(s.cons.fd, s.cons.need, s.cons.sent, |got|))
    case SendSome(r) =>
      var c := s.cons;
      var bytes := s.produced[s.head..s.head + r];
      var last := c.sent + r >= c.need;
      s.(head := s.head + r, delivered := s.delivered[c.fd := Delivered(s, c.fd) + bytes],
         cons := if last then AtHeader else Sending(c.fd, c.need, c.sent + r), done := if last then s.done + 1 else s.done)
    case SendRetry => s.(cons := Sending(s.cons.fd, s.cons.need, s.cons.sent))
  }

  const OPEN := Link([], 0, Ready, AtHeader, map[], [], 0)

  ghost predicate Runs(n: nat, s: Link, es: seq<Move>)
    requires n > 0
    decreases es
  {
    es == [] || (CanMove(n, s, es[0]) && Runs(n, Moved(n, s, es[0]), es[1..]))
  }

  ghost function After(n: nat, s: Link, es: seq<Move>): Link
    requires n > 0 && Runs(n, s, es)
    decreases es
  {
    if es == [] then s else After(n, Moved(n, s, es[0]), es[1..])
  }

  // ── what the stream is ──

  ghost predicate AllWell(bs: seq<Batch>) {
    forall i :: 0 <= i < |bs| ==> WellFormed(bs[i])
  }

  /** The batches as they lie in the ring, end to end. */
  ghost function Wire(bs: seq<Batch>): seq<Byte>
    requires AllWell(bs)
  {
    if bs == [] then [] else Wire(bs[..|bs| - 1]) + (Header(bs[|bs| - 1]) + bs[|bs| - 1].body)
  }

  /** What connection fd is owed: the bodies of its batches, in order. */
  ghost function Bodies(bs: seq<Batch>, fd: nat): seq<Byte> {
    if bs == [] then []
    else Bodies(bs[..|bs| - 1], fd) + if bs[|bs| - 1].fd == fd then bs[|bs| - 1].body else []
  }

  lemma {:induction false} WirePrefix(bs: seq<Batch>, d: nat)
    requires AllWell(bs) && d <= |bs|
    ensures Wire(bs[..d]) <= Wire(bs)
    ensures d < |bs| ==> Wire(bs[..d]) <= Wire(bs[..|bs| - 1])
  {
    hide Header;
    if d == |bs| {
      assert bs[..d] == bs;
    } else {
      var n := |bs| - 1;
      WirePrefix(bs[..n], d);
      assert bs[..n][..d] == bs[..d];
    }
  }

  lemma NextBatch(bs: seq<Batch>, d: nat)
    requires AllWell(bs) && d < |bs|
    ensures Wire(bs[..d + 1]) == Wire(bs[..d]) + (Header(bs[d]) + bs[d].body)
    ensures forall fd :: Bodies(bs[..d + 1], fd) == Bodies(bs[..d], fd) + if bs[d].fd == fd then bs[d].body else []
  {
    assert bs[..d + 1][..d] == bs[..d];
  }

  /** The bytes of batch d, where it starts. */
  lemma WireAt(bs: seq<Batch>, d: nat)
    requires AllWell(bs) && d < |bs|
    ensures var w := Wire(bs[..d]);
      && w <= Wire(bs) && |w| + RESPONSE_SIZE + |bs[d].body| <= |Wire(bs)|
      && Wire(bs)[|w|..|w| + RESPONSE_SIZE] == Header(bs[d])
      && Wire(bs)[|w| + RESPONSE_SIZE..|w| + RESPONSE_SIZE + |bs[d].body|] == bs[d].body
      && (d + 1 < |bs| ==> |w| + RESPONSE_SIZE + |bs[d].body| <= |Wire(bs[..|bs| - 1])|)
  {
    hide Header, Wire, Bodies;
    var w, h, b := Wire(bs[..d]), Header(bs[d]), bs[d].body;
    WirePrefix(bs, d);
    WirePrefix(bs, d + 1);
    NextBatch(bs, d);
    SuffixSlices(w, h, b);
    PrefixSlice(w + (h + b), Wire(bs), |w|, |w| + RESPONSE_SIZE);
    PrefixSlice(w + (h + b), Wire(bs), |w| + RESPONSE_SIZE, |w| + RESPONSE_SIZE + |b|);
  }

  lemma PrefixSlice<T>(p: seq<T>, q: seq<T>, i: nat, j: nat)
    requires i <= j <= |p| && p <= q
    ensures q[i..j] == p[i..j]
  {
  }

  lemma SuffixSlices<T>(w: seq<T>, h: seq<T>, b: seq<T>)
    ensures (w + (h + b))[|w|..|w| + |h|] == h && (w + (h + b))[|w| + |h|..|w| + |h| + |b|] == b
  {
  }

  /** The part of the current batch already sent on fd. */
  ghost function Part(s: Link, fd: nat): seq<Byte> {
    if (s.cons.Sending? || s.cons.Chunk?) && s.cons.fd == fd && s.done < |s.batches| && s.cons.sent <= |s.batches[s.done].body|
    then s.batches[s.done].body[..s.cons.sent] else []
  }

  ghost predicate ProdOk(n: nat, s: Link) {
    && AllWell(s.batches)
    && match s.prod
       case Ready => s.produced == Wire(s.batches)
       case Fits(b, h) =>
         && s.produced == Wire(s.batches) && WellFormed(b) && h <= s.head
         && |s.produced| + RESPONSE_SIZE + |b.body| <= h + n
       case HeaderIn(b, h) =>
         && s.batches != [] && s.batches[|s.batches| - 1] == b
         && s.produced == Wire(s.batches[..|s.batches| - 1]) + Header(b) && h <= s.head
         && |s.produced| + |b.body| <= h + n
  }

  ghost predicate ConsOk(n: nat, s: Link)
    requires AllWell(s.batches) && n > 0
  {
    && s.done <= |s.batches| && s.head <= |s.produced| && !s.cons.Broken?
    && var at := |Wire(s.batches[..s.done])|;
    && (s.cons.AtHeader? ==> s.head == at)
    && (!s.cons.AtHeader? ==>
          && s.done < |s.batches|
          && var b := s.batches[s.done];
          match s.cons
          case Got(hdr) =>
            && s.head == at && 0 < |hdr| <= RESPONSE_SIZE && hdr == Header(b)[..|hdr|]
            && (|hdr| < RESPONSE_SIZE ==> (s.head + |hdr|) % n == 0)
          case Partial(hdr) => 0 < |hdr| < RESPONSE_SIZE && s.head == at + |hdr| && hdr == Header(b)[..|hdr|] && s.head % n == 0
          case GotMore(hdr, more) => hdr + more == Header(b) && s.head == at + |hdr|
          case Sending(fd, need, sent) => fd == b.fd && need == |b.body| && sent < need && s.head == at + RESPONSE_SIZE + sent
          case Chunk(fd, need, sent, k) =>
            && fd == b.fd && need == |b.body| && sent < need && s.head == at + RESPONSE_SIZE + sent
            && 0 < k <= need - sent && s.head + k <= |s.produced|
          case _ => true)
  }

  ghost predicate SentOk(s: Link) {
    && s.done <= |s.batches|
    && forall fd :: Delivered(s, fd) == Bodies(s.batches[..s.done], fd) + Part(s, fd)
  }

  ghost predicate Inv(n: nat, s: Link)
    requires n > 0
  {
    ProdOk(n, s) && ConsOk(n, s) && SentOk(s)
  }

  /** Published bytes are a prefix of the stream that holds every header begun. */
  lemma Published(n: nat, s: Link)
    requires n > 0 && ProdOk(n, s)
    ensures s.produced <= Wire(s.batches)
    ensures s.batches != [] ==> |s.produced| >= |Wire(s.batches[..|s.batches| - 1])| + RESPONSE_SIZE
  {
  }

  /** A batch that was begun has its header in the ring, and as much of its body as is published. */
  lemma BatchThere(n: nat, s: Link)
    requires n > 0 && ProdOk(n, s) && s.done < |s.batches|
    ensures var (at, b) := (|Wire(s.batches[..s.done])|, s.batches[s.done]);
      && at + RESPONSE_SIZE <= |s.produced| && s.produced[at..at + RESPONSE_SIZE] == Header(b)
      && forall x, y :: 0 <= x <= y <= |b.body| && at + RESPONSE_SIZE + y <= |s.produced| ==>
           s.produced[at + RESPONSE_SIZE + x..at + RESPONSE_SIZE + y] == b.body[x..y]
  {
    hide Wire, Header, ProdOk;
    Published(n, s);
    assert AllWell(s.batches) by { Wells(n, s); }
    WireAt(s.batches, s.done);
    var w, at, b := Wire(s.batches), |Wire(s.batches[..s.done])|, s.batches[s.done];
    assert s.produced == w[..|s.produced|];
    assert s.produced[at..at + RESPONSE_SIZE] == w[at..at + RESPONSE_SIZE];
    forall x, y | 0 <= x <= y <= |b.body| && at + RESPONSE_SIZE + y <= |s.produced|
      ensures s.produced[at + RESPONSE_SIZE + x..at + RESPONSE_SIZE + y] == b.body[x..y]
    {
      SubSlice(s.produced, w, at + RESPONSE_SIZE, |b.body|, x, y);
    }
  }

  lemma SubSlice<T>(p: seq<T>, w: seq<T>, base: nat, len: nat, x: nat, y: nat)
    requires p <= w && x <= y <= len && base + len <= |w| && base + y <= |p|
    ensures p[base + x..base + y] == w[base..base + len][x..y]
  {
    var a, b := p[base + x..base + y], w[base..base + len][x..y];
    forall i | 0 <= i < |a| ensures a[i] == b[i] {
      assert a[i] == p[base + x + i] && b[i] == w[base + x + i];
    }
  }

  lemma Wells(n: nat, s: Link)
    requires n > 0 && ProdOk(n, s)
    ensures AllWell(s.batches)
  {
  }

  // ── producer moves ──

  /** Starting another batch does not disturb what the consumer is doing. */
  lemma ConsGrow(n: nat, s: Link, s': Link, b: Batch)
    requires n > 0 && AllWell(s.batches) && AllWell(s'.batches) && ConsOk(n, s) && SentOk(s)
    requires s'.batches == s.batches + [b] && s'.done == s.done && s'.head == s.head && s'.cons == s.cons
    requires s'.delivered == s.delivered && |s'.produced| >= |s.produced|
    ensures ConsOk(n, s') && SentOk(s')
  {
    hide Wire, Header, Bodies;
    assert s'.batches[..s.done] == s.batches[..s.done];
    forall fd ensures Delivered(s', fd) == Bodies(s'.batches[..s'.done], fd) + Part(s', fd) {
      assert Delivered(s', fd) == Delivered(s, fd) && Part(s', fd) == Part(s, fd);
    }
  }

  lemma KeepPushHeader(n: nat, s: Link, h: nat)
    requires n > 0 && Inv(n, s) && CanMove(n, s, PushHeader(h))
    ensures Inv(n, Moved(n, s, PushHeader(h)))
  {
    hide Wire, Header, Bodies, ConsOk, SentOk;
    var s', b := Moved(n, s, PushHeader(h)), s.prod.batch;
    assert Taken(n, s, h, Header(b)) == Header(b);
    assert s'.batches[..|s.batches|] == s.batches;
    ConsGrow(n, s, s', b);
  }

  lemma ConsSame(n: nat, s: Link, s': Link)
    requires n > 0 && AllWell(s.batches) && ConsOk(n, s)
    requires s'.batches == s.batches && s'.done == s.done && s'.head == s.head && s'.cons == s.cons && |s'.produced| >= |s.produced|
    ensures ConsOk(n, s')
  {
    hide Wire, Header;
  }

  lemma KeepPushBody(n: nat, s: Link, h: nat)
    requires n > 0 && Inv(n, s) && CanMove(n, s, PushBody(h))
    ensures Inv(n, Moved(n, s, PushBody(h)))
  {
    hide Header, SentOk, ConsOk;
    var b := s.prod.batch;
    var s' := Moved(n, s, PushBody(h));
    assert Taken(n, s, h, b.body) == b.body;
    assert (Wire(s.batches[..|s.batches| - 1]) + Header(b)) + b.body == Wire(s.batches);
    ConsSame(n, s, s');
    SentSame(s, s');
  }

  // ── consumer moves ──

  /** Moves that deliver nothing. */
  lemma SentSame(s: Link, s': Link)
    requires SentOk(s) && s'.batches == s.batches && s'.done == s.done && s'.delivered == s.delivered
    requires forall fd :: Part(s', fd) == Part(s, fd)
    ensures SentOk(s')
  {
    hide Bodies;
    forall fd ensures Delivered(s', fd) == Bodies(s'.batches[..s'.done], fd) + Part(s', fd) {
      assert Delivered(s', fd) == Delivered(s, fd);
      assert Part(s', fd) == Part(s, fd);
    }
  }

  lemma ProdSame(n: nat, s: Link, s': Link)
    requires n > 0 && ProdOk(n, s) && s'.produced == s.produced && s'.prod == s.prod && s'.batches == s.batches && s'.head >= s.head
    ensures ProdOk(n, s') && AllWell(s.batches)
  {
    hide Wire, Header;
  }

  /** At a boundary the ring holds nothing, or a whole header at least. */
  lemma Boundary(n: nat, s: Link)
    requires n > 0 && Inv(n, s) && s.cons.AtHeader?
    ensures s.head == |s.produced| || (s.done < |s.batches| && s.head + RESPONSE_SIZE <= |s.produced|)
  {
    hide Header, Wire;
    Published(n, s);
    if s.done < |s.batches| {
      BatchThere(n, s);
    } else {
      assert s.batches[..s.done] == s.batches;
    }
  }

  /** The first read at a boundary shows the header, or the part of it before the end of the buffer. */
  lemma ShownHeader(n: nat, s: Link)
    requires n > 0 && Inv(n, s) && s.cons.AtHeader? && s.head < |s.produced|
    ensures s.done < |s.batches| && Shown(n, s, RESPONSE_SIZE) == Header(s.batches[s.done])[..Least(RESPONSE_SIZE, n - s.head % n)]
  {
    hide Header, Wire, SentOk;
    Boundary(n, s);
    BatchThere(n, s);
    DivMod(s.head, n);
    var k := Least(RESPONSE_SIZE, n - s.head % n);
    assert s.produced[s.head..s.head + k] == s.produced[s.head..s.head + RESPONSE_SIZE][..k];
  }

  lemma KeepPopAcquire(n: nat, s: Link)
    requires n > 0 && Inv(n, s) && CanMove(n, s, PopAcquire)
    ensures Inv(n, Moved(n, s, PopAcquire))
  {
    hide Header, Wire, ProdOk, SentOk, Shown;
    var s' := Moved(n, s, PopAcquire);
    ProdSame(n, s, s');
    if s.head < |s.produced| {
      ShownHeader(n, s);
      DivMod(s.head, n);
      AddWrapEnd(s.head, n);
    } else {
      NothingShown(n, s, RESPONSE_SIZE);
    }
    SentSame(s, s');
  }

  lemma NothingShown(n: nat, s: Link, request: nat)
    requires n > 0 && s.head >= |s.produced|
    ensures Shown(n, s, request) == []
  {
  }

  lemma AddWrapEnd(a: nat, n: nat)
    requires n > 0
    ensures (a + (n - a % n)) % n == 0
  {
    DivMod(a, n);
    MulAdd(n, a / n, 1);
    ModAddMultiple(0, a / n + 1, n);
  }

  lemma DecodedOk(b: Batch)
    requires WellFormed(b)
    ensures Decoded(Header(b)) == Sending(b.fd, |b.body|, 0)
  {
    HeaderRoundTrip(b);
    DivMod(|b.body|, RESPONSE_SIZE);
  }

  lemma KeepPopRelease(n: nat, s: Link)
    requires n > 0 && Inv(n, s) && CanMove(n, s, PopRelease)
    ensures Inv(n, Moved(n, s, PopRelease))
  {
    hide Header, Wire, SentOk, Decoded;
    var s', b := Moved(n, s, PopRelease), s.batches[s.done];
    BatchThere(n, s);
    if |s.cons.hdr| == RESPONSE_SIZE {
      assert s.cons.hdr == Header(b);
      DecodedOk(b);
    }
    SentSame(s, s');
  }

  /** The second read shows the rest of the header. */
  lemma ShownRest(n: nat, s: Link)
    requires RESPONSE_SIZE <= n && Inv(n, s) && s.cons.Partial?
    ensures |s.cons.hdr| < RESPONSE_SIZE
    ensures Shown(n, s, RESPONSE_SIZE - |s.cons.hdr|) == Header(s.batches[s.done])[|s.cons.hdr|..]
  {
    hide Header, Wire, SentOk;
    BatchThere(n, s);
    var k, at := |s.cons.hdr|, |Wire(s.batches[..s.done])|;
    assert s.produced[at + k..at + RESPONSE_SIZE] == s.produced[at..at + RESPONSE_SIZE][k..];
  }

  lemma KeepPopMore(n: nat, s: Link)
    requires RESPONSE_SIZE <= n && Inv(n, s) && CanMove(n, s, PopMore)
    ensures Inv(n, Moved(n, s, PopMore))
  {
    hide Header, Wire, SentOk, ProdOk, Shown;
    var s', k := Moved(n, s, PopMore), |s.cons.hdr|;
    ProdSame(n, s, s');
    ShownRest(n, s);
    var h := Header(s.batches[s.done]);
    assert h == h[..k] + h[k..];
    SentSame(s, s');
  }

  lemma KeepPopMoreRelease(n: nat, s: Link)
    requires n > 0 && Inv(n, s) && CanMove(n, s, PopMoreRelease)
    ensures Inv(n, Moved(n, s, PopMoreRelease))
  {
    hide Header, Wire, SentOk, Decoded;
    var s' := Moved(n, s, PopMoreRelease);
    BatchThere(n, s);
    DecodedOk(s.batches[s.done]);
    SentSame(s, s');
  }

  lemma KeepSendAcquire(n: nat, s: Link)
    requires n > 0 && Inv(n, s) && CanMove(n, s, SendAcquire)
    ensures Inv(n, Moved(n, s, SendAcquire))
  {
    hide Header, Wire, SentOk, ProdOk;
    ProdSame(n, s, Moved(n, s, SendAcquire));
    DivMod(s.head, n);
    SentSame(s, Moved(n, s, SendAcquire));
  }

  lemma KeepSendRetry(n: nat, s: Link)
    requires n > 0 && Inv(n, s) && CanMove(n, s, SendRetry)
    ensures Inv(n, Moved(n, s, SendRetry))
  {
    hide Header, Wire, SentOk, ProdOk;
    ProdSame(n, s, Moved(n, s, SendRetry));
    SentSame(s, Moved(n, s, SendRetry));
  }

  /** Sending r bytes delivers the next r bytes of the current body. */
  lemma KeepSendSome(n: nat, s: Link, r: nat)
    requires n > 0 && Inv(n, s) && CanMove(n, s, SendSome(r))
    ensures Inv(n, Moved(n, s, SendSome(r)))
  {
    hide Header, Wire, Bodies, ProdOk, Part, Delivered;
    var s', c, b := Moved(n, s, SendSome(r)), s.cons, s.batches[s.done];
    ProdSame(n, s, s');
    BatchThere(n, s);
    var bytes := s.produced[s.head..s.head + r];
    assert bytes == b.body[c.sent..c.sent + r];
    forall fd ensures Delivered(s', fd) == Bodies(s'.batches[..s'.done], fd) + Part(s', fd) {
      SentMore(s, s', r, fd);
    }
    if c.sent + r == c.need {
      NextBatch(s.batches, s.done);
    }
  }

  lemma Append(before: seq<Byte>, body: seq<Byte>, i: nat, j: nat)
    requires i <= j <= |body|
    ensures (before + body[..i]) + body[i..j] == before + body[..j]
  {
    assert body[..i] + body[i..j] == body[..j];
  }

  lemma SentMore(s: Link, s': Link, r: nat, fd: nat)
    requires s.done < |s.batches| && SentOk(s) && s.cons.Chunk? && AllWell(s.batches)
    requires var (c, b) := (s.cons, s.batches[s.done]);
      && c.fd == b.fd && c.need == |b.body| && c.sent + r <= c.need && s'.batches == s.batches
      && s'.delivered == s.delivered[c.fd := Delivered(s, c.fd) + b.body[c.sent..c.sent + r]]
      && if c.sent + r == c.need then s'.cons == AtHeader && s'.done == s.done + 1
         else s'.cons == Sending(c.fd, c.need, c.sent + r) && s'.done == s.done
    ensures Delivered(s', fd) == Bodies(s'.batches[..s'.done], fd) + Part(s', fd)
  {
    hide Bodies, Wire, WellFormed, SentOk;
    var c, b := s.cons, s.batches[s.done];
    NextBatch(s.batches, s.done);
    SentFact(s, fd);
    var before := Bodies(s.batches[..s.done], fd);
    if fd == c.fd {
      Append(before, b.body, c.sent, c.sent + r);
      assert Delivered(s', fd) == before + b.body[..c.sent + r];
      assert c.sent + r == c.need ==> b.body[..c.sent + r] == b.body;
    }
  }

  lemma SentFact(s: Link, fd: nat)
    requires SentOk(s)
    ensures Delivered(s, fd) == Bodies(s.batches[..s.done], fd) + Part(s, fd)
  {
    hide Bodies;
  }

  lemma KeepCheck(n: nat, s: Link, b: Batch)
    requires n > 0 && Inv(n, s) && CanMove(n, s, Check(b))
    ensures Inv(n, Moved(n, s, Check(b)))
  {
    hide Header, Wire;
    SentSame(s, Moved(n, s, Check(b)));
  }

  lemma MoveKeeps(n: nat, s: Link, e: Move)
    requires RESPONSE_SIZE <= n && Inv(n, s) && CanMove(n, s, e)
    ensures Inv(n, Moved(n, s, e))
  {
    hide Inv, Moved, CanMove;
    match e
    case Check(b) => KeepCheck(n, s, b);
    case PushHeader(h) => KeepPushHeader(n, s, h);
    case PushBody(h) => KeepPushBody(n, s, h);
    case PopAcquire => KeepPopAcquire(n, s);
    case PopRelease => KeepPopRelease(n, s);
    case PopMore => KeepPopMore(n, s);
    case PopMoreRelease => KeepPopMoreRelease(n, s);
    case SendAcquire => KeepSendAcquire(n, s);
    case SendSome(r) => KeepSendSome(n, s, r);
    case SendRetry => KeepSendRetry(n, s);
  }

  /** The range conditions in CanMove never hold either thread back. */
  lemma NoMoveBlocked(n: nat, s: Link)
    requires RESPONSE_SIZE <= n && Inv(n, s)
    ensures s.prod.Fits? ==> CanMove(n, s, PushHeader(s.head))
    ensures s.prod.HeaderIn? ==> CanMove(n, s, PushBody(s.head))
    ensures match s.cons
      case AtHeader => CanMove(n, s, PopAcquire)
      case Got(_) => CanMove(n, s, PopRelease)
      case Partial(_) => CanMove(n, s, PopMore) && Shown(n, s, RESPONSE_SIZE - |s.cons.hdr|) != []
      case GotMore(_, _) => CanMove(n, s, PopMoreRelease)
      case Sending(_, _, _) => CanMove(n, s, SendAcquire)
      case Chunk(_, _, _, k) => forall r :: 0 < r <= k ==> CanMove(n, s, SendSome(r))
      case Broken => false
  {
    hide Wire, Header, SentOk;
    if s.cons.Partial? {
      ShownRest(n, s);
    }
  }

  lemma {:induction false} RunKeeps(n: nat, s: Link, es: seq<Move>)
    requires RESPONSE_SIZE <= n && Inv(n, s) && Runs(n, s, es)
    ensures Inv(n, After(n, s, es))
    decreases es
  {
    hide Inv, Moved, CanMove;
    if es != [] {
      MoveKeeps(n, s, es[0]);
      RunKeeps(n, Moved(n, s, es[0]), es[1..]);
    }
  }

  /**
    Over every run: the Send thread never reads a torn or foreign header; when it looks for one it stands at the start of
    a batch; and each connection has received its batches, concatenated in push order, up to a point within the current
    one. Once the ring is drained it has received all of them.
   */
  lemma RunsDeliver(n: nat, es: seq<Move>, fd: nat)
    requires RESPONSE_SIZE <= n && Runs(n, OPEN, es)
    ensures var s := After(n, OPEN, es);
      && !s.cons.Broken?
      && s.done <= |s.batches| && AllWell(s.batches)
      && (s.cons.AtHeader? ==> s.head == |Wire(s.batches[..s.done])|)
      && Delivered(s, fd) == Bodies(s.batches[..s.done], fd) + Part(s, fd)
      && (s.prod.Ready? && s.cons.AtHeader? && s.head == |s.produced| ==> Delivered(s, fd) == Bodies(s.batches, fd))
  {
    hide Header, Runs, After, Wire;
    Opened(n);
    RunKeeps(n, OPEN, es);
    var s := After(n, OPEN, es);
    if s.prod.Ready? && s.cons.AtHeader? && s.head == |s.produced| {
      if s.done < |s.batches| {
        BatchThere(n, s);
      } else {
        assert s.batches[..s.done] == s.batches;
      }
    }
  }

  lemma Opened(n: nat)
    requires n > 0
    ensures Inv(n, OPEN)
  {
    assert OPEN.batches[..0] == [];
  }

  // ── the ring does what the moves above take from it ──

  /** A push publishes exactly Taken. */
  lemma RingTakes(c: Config, r: State, s: Link)
    requires Proper(c) && Spsc.Inv(c, r) && r.prod.PHead? && s.produced == r.produced
    ensures var p := Next(c, r, Reserve).prod;
      Taken(c.n, s, r.prod.headAbs, r.prod.data) == if p.PCopy? then r.prod.data[..p.actual] else []
  {
    PushTakes(c, r);
  }

  /** The ring the program uses. */
  lemma RingFits()
    ensures RESPONSE_SIZE <= RING_SIZE && Proper(Config(RING_SIZE, TWO64))
  {
  }

  const RING_SIZE: nat := 8388608
}
