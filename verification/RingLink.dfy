/**
  Both threads over the real ring: pushResponses and the Send loop calling push, read_acquire and read_release, with every
  load, byte copy and store of the ring a step of its own. Every run of it is a run of the link model.
 */
module RingLink {
  import opened Types
  import opened Modulo
  import R = Spsc
  import L = SendLoop

  type Batch = L.Batch

  /** headSeen: the release count at the writer's last load of the head. */
  datatype Writer =
    | Ready
    | Fits(batch: Batch, headSeen: nat)
    | InHeader(batch: Batch, headSeen: nat)
    | HeaderDone(batch: Batch, headSeen: nat)
    | InBody(batch: Batch, headSeen: nat)

  datatype Reader =
    | AtHeader
    | Partial(hdr: seq<Byte>)
    | Sending(fd: nat, need: nat, sent: nat)
    | Broken

  datatype Node = Node(ring: R.State, writer: Writer, reader: Reader, delivered: map<nat, seq<Byte>>,
                       batches: seq<Batch>, done: nat)

  datatype Act =
    | Check(batch: Batch)
    | StartPush
    | Reserve
    | CopyByte(i: nat)
    | Publish
    | Ask
    | Acquire
    | ReadByte
    | Give(k: nat)

  // ── steps ──

  /** What the reader asks the ring for. */
  function Request(r: Reader): int {
    match r
    case AtHeader => L.RESPONSE_SIZE
    case Partial(hdr) => L.RESPONSE_SIZE - |hdr|
    case Sending(_, need, sent) => need - sent
    case Broken => 0
  }

  /** What the writer pushes next. */
  function Data(w: Writer): seq<Byte> {
    match w
    case Fits(b, _) => if L.WellFormed(b) then L.Header(b) else []
    case HeaderDone(b, _) => b.body
    case _ => []
  }

  /** The ring step an action makes, if it makes one. */
  function RingStep(s: Node, a: Act): Option<R.Step> {
    match a
    case Check(_) => None
    case StartPush => Some(R.CallPush(Data(s.writer)))
    case Reserve => Some(R.Reserve)
    case CopyByte(i) => Some(R.CopyByte(i))
    case Publish => Some(R.Publish)
    case Ask => if Request(s.reader) >= 0 then Some(R.CallAcquire(Request(s.reader))) else None
    case Acquire => Some(R.Acquire)
    case ReadByte => Some(R.ReadByte)
    case Give(k) => Some(R.Release(k))
  }

  predicate CanAct(c: R.Config, s: Node, a: Act)
    requires R.Proper(c)
  {
    && (RingStep(s, a).Some? ==> R.Enabled(c, s.ring, RingStep(s, a).value))
    && match a
       case Check(b) =>
         && s.writer.Ready? && L.WellFormed(b)
         && c.n - R.Sub(c, s.ring.tail, s.ring.head) >= L.RESPONSE_SIZE + |b.body|
       case StartPush => s.writer.Fits? || s.writer.HeaderDone?
       case Ask => !s.reader.Broken? && Request(s.reader) >= 0
       case Give(k) =>
         // a pop copies the whole region; a send may take part of it, or nothing when it has to retry
         s.reader.Sending? || (k == s.ring.cons.actual && !s.reader.Broken?)
       case _ => true
  }

  /** Where the writer is once a push has returned. */
  function Returned(s: Node, headAbs: nat): Node {
    match s.writer
    case InHeader(b, _) => s.(writer := HeaderDone(b, headAbs), batches := s.batches + [b])
    case InBody(_, _) => s.(writer := Ready)
    case _ => s
  }

  function Decoded(hdr: seq<Byte>): Reader {
    match L.Decoded(hdr)
    case Sending(fd, need, sent) => Sending(fd, need, sent)
    case _ => Broken
  }

  function DeliveredTo(s: Node, fd: nat): seq<Byte> {
    if fd in s.delivered then s.delivered[fd] else []
  }

  /** Where the reader is once it has released k of the bytes it read. */
  function Released(s: Node, seen: seq<Byte>, k: nat): Node
    requires k <= |seen|
  {
    match s.reader
    case AtHeader => s.(reader := if |seen| < L.RESPONSE_SIZE then Partial(seen) else Decoded(seen))
    case Partial(hdr) => s.(reader := Decoded(hdr + seen))
    case Sending(fd, need, sent) =>
      if k == 0 then s
      else
        var last := sent + k >= need;
        s.(delivered := s.delivered[fd := DeliveredTo(s, fd) + seen[..k]],
           reader := if last then AtHeader else Sending(fd, need, sent + k),
           done := if last then s.done + 1 else s.done)
    case Broken => s
  }

  function Acted(c: R.Config, s: Node, a: Act): Node
    requires R.Proper(c) && CanAct(c, s, a)
  {
    var ring := if RingStep(s, a).Some? then R.Next(c, s.ring, RingStep(s, a).value) else s.ring;
    match a
    case Check(b) => s.(writer := Fits(b, |s.ring.consumed|))
    case StartPush =>
      s.(ring := ring, writer := if s.writer.Fits? then InHeader(s.writer.batch, s.writer.headSeen)
                                 else InBody(s.writer.batch, s.writer.headSeen))
    case Reserve => var s' := s.(ring := ring); if ring.prod.PIdle? then Returned(s', s.ring.prod.headAbs) else s'
    case CopyByte(_) => s.(ring := ring)
    case Publish => Returned(s.(ring := ring), s.ring.prod.headAbs)
    case Ask => s.(ring := ring)
    case Acquire =>
      // a pop whose second read finds nothing goes on with a torn header
      s.(ring := ring, reader := if ring.cons.CIdle? && s.reader.Partial? then Broken else s.reader)
    case ReadByte => s.(ring := ring)
    case Give(k) => Released(s.(ring := ring), s.ring.cons.seen, k)
  }

  ghost function Start(c: R.Config, buf: seq<Byte>): Node {
    Node(R.Start(c, buf), Ready, AtHeader, map[], [], 0)
  }

  ghost predicate Runs(c: R.Config, s: Node, acts: seq<Act>)
    requires R.Proper(c)
    decreases acts
  {
    acts == [] || (CanAct(c, s, acts[0]) && Runs(c, Acted(c, s, acts[0]), acts[1..]))
  }

  ghost function After(c: R.Config, s: Node, acts: seq<Act>): Node
    requires R.Proper(c) && Runs(c, s, acts)
    decreases acts
  {
    if acts == [] then s else After(c, Acted(c, s, acts[0]), acts[1..])
  }

  // ── the link it looks like ──

  function WriterOf(w: Writer): L.Producer {
    match w
    case Ready => L.Ready
    case Fits(b, h) => L.Fits(b, h)
    case InHeader(b, h) => L.Fits(b, h)
    case HeaderDone(b, h) => L.HeaderIn(b, h)
    case InBody(b, h) => L.HeaderIn(b, h)
  }

  function Base(r: Reader): L.Consumer {
    match r
    case AtHeader => L.AtHeader
    case Partial(hdr) => L.Partial(hdr)
    case Sending(fd, need, sent) => L.Sending(fd, need, sent)
    case Broken => L.Broken
  }

  /** The reader once an acquire is bound to show it these bytes. */
  function Showing(r: Reader, bytes: seq<Byte>): L.Consumer {
    if bytes == [] then if r.Partial? then L.Broken else Base(r)
    else
      match r
      case AtHeader => L.Got(bytes)
      case Partial(hdr) => L.GotMore(hdr, bytes)
      case Sending(fd, need, sent) => L.Chunk(fd, need, sent, |bytes|)
      case Broken => L.Broken
  }

  /** What an acquire that has loaded its tail will show, or a region shows. */
  function Due(n: nat, ring: R.State): seq<Byte>
    requires n > 0
  {
    var h := |ring.consumed|;
    match ring.cons
    case CIdle => []
    case CTail(r, _, a) =>
      var k := R.Least(R.Least(r, a - h), n - h % n);
      if k <= 0 || h + k > |ring.produced| then [] else ring.produced[h..h + k]
    case CRegion(_, k, _) => if h + k > |ring.produced| then [] else ring.produced[h..h + k]
  }

  function ReaderOf(n: nat, s: Node): L.Consumer
    requires n > 0
  {
    if s.ring.cons.CIdle? then Base(s.reader) else Showing(s.reader, Due(n, s.ring))
  }

  function LinkOf(n: nat, s: Node): L.Link
    requires n > 0
  {
    L.Link(s.ring.produced, |s.ring.consumed|, WriterOf(s.writer), ReaderOf(n, s), s.delivered, s.batches, s.done)
  }

  /** What the ring's producer is busy with is what the writer asked for. */
  ghost predicate WriterOk(n: nat, s: Node)
    requires n > 0
  {
    match s.ring.prod
    case PIdle => !s.writer.InHeader? && !s.writer.InBody?
    case PHead(data, _, a) => Pushing(s, data, a)
    case PCopy(data, _, k, _, a) =>
      Pushing(s, data, a) && k <= |data| && L.Taken(n, LinkOf(n, s), a, data) == data[..k]
  }

  ghost predicate Pushing(s: Node, data: seq<Byte>, a: nat) {
    match s.writer
    case InHeader(b, h) => L.WellFormed(b) && data == L.Header(b) && h <= a <= |s.ring.consumed|
    case InBody(b, h) => data == b.body && h <= a <= |s.ring.consumed|
    case _ => false
  }

  ghost predicate ReaderOk(s: Node) {
    s.ring.cons.CTail? ==> s.ring.cons.request == Request(s.reader)
  }

  ghost predicate Inv(c: R.Config, s: Node) {
    && R.Proper(c) && L.RESPONSE_SIZE <= c.n
    && R.Inv(c, s.ring) && WriterOk(c.n, s) && ReaderOk(s) && L.Inv(c.n, LinkOf(c.n, s))
  }

  /** The link move an action amounts to, if it shows at that level. */
  function MoveOf(c: R.Config, s: Node, a: Act): Option<L.Move>
    requires R.Proper(c) && CanAct(c, s, a)
  {
    match a
    case Check(b) => Some(L.Check(b))
    case StartPush => None
    case Reserve => if Acted(c, s, a).ring.prod.PIdle? then Some(PushMove(s)) else None
    case CopyByte(_) => None
    case Publish => Some(PushMove(s))
    case Ask =>
      (match s.reader
       case AtHeader => Some(L.PopAcquire)
       case Partial(_) => Some(L.PopMore)
       case _ => Some(L.SendAcquire))
    case Acquire => None
    case ReadByte => None
    case Give(k) =>
      (match s.reader
       case AtHeader => Some(L.PopRelease)
       case Partial(_) => Some(L.PopMoreRelease)
       case _ => if k == 0 then Some(L.SendRetry) else Some(L.SendSome(k)))
  }

  function PushMove(s: Node): L.Move
    requires s.ring.prod.PHead? || s.ring.prod.PCopy?
  {
    if s.writer.InHeader? then L.PushHeader(s.ring.prod.headAbs) else L.PushBody(s.ring.prod.headAbs)
  }

  /** An action either does not show at the level of the link, or is one of its moves. */
  ghost predicate Simulates(c: R.Config, s: Node, a: Act)
    requires R.Proper(c) && CanAct(c, s, a)
  {
    var e, l, l' := MoveOf(c, s, a), LinkOf(c.n, s), LinkOf(c.n, Acted(c, s, a));
    if e.None? then l' == l else L.CanMove(c.n, l, e.value) && l' == L.Moved(c.n, l, e.value)
  }

  // ── action by action ──

  lemma SimCheck(c: R.Config, s: Node, b: Batch)
    requires Inv(c, s) && CanAct(c, s, Check(b))
    ensures Simulates(c, s, Check(b)) && WriterOk(c.n, Acted(c, s, Check(b))) && ReaderOk(Acted(c, s, Check(b)))
  {
    hide L.Inv, R.Live, R.ConsOk, R.ProdOk, R.Sub;
    R.SubExact(c, |s.ring.produced|, |s.ring.consumed|);
  }

  lemma SimStartPush(c: R.Config, s: Node)
    requires Inv(c, s) && CanAct(c, s, StartPush)
    ensures Simulates(c, s, StartPush) && WriterOk(c.n, Acted(c, s, StartPush)) && ReaderOk(Acted(c, s, StartPush))
  {
    hide L.Inv, R.Inv, L.Header, L.Taken, Due;
    WriterFacts(c, s);
    DueSame(c.n, s.ring, Acted(c, s, StartPush).ring);
  }

  /** A batch about to be pushed is well formed, and the head it was checked against is not ahead of the ring's. */
  lemma WriterFacts(c: R.Config, s: Node)
    requires Inv(c, s)
    ensures s.writer.Fits? ==> L.WellFormed(s.writer.batch) && s.writer.headSeen <= |s.ring.consumed|
    ensures s.writer.HeaderDone? ==> s.writer.headSeen <= |s.ring.consumed|
  {
    hide R.Inv, L.ConsOk, L.SentOk, L.Wire, L.Header, L.WellFormed;
  }

  lemma SimCopyByte(c: R.Config, s: Node, i: nat)
    requires Inv(c, s) && CanAct(c, s, CopyByte(i))
    ensures Simulates(c, s, CopyByte(i)) && WriterOk(c.n, Acted(c, s, CopyByte(i))) && ReaderOk(Acted(c, s, CopyByte(i)))
  {
    hide L.Inv, R.Inv, L.Header, L.Taken, Due;
    DueSame(c.n, s.ring, Acted(c, s, CopyByte(i)).ring);
    TakenSame(c.n, s, Acted(c, s, CopyByte(i)));
  }

  lemma SimReserve(c: R.Config, s: Node)
    requires Inv(c, s) && CanAct(c, s, Reserve)
    ensures Simulates(c, s, Reserve) && WriterOk(c.n, Acted(c, s, Reserve)) && ReaderOk(Acted(c, s, Reserve))
  {
    hide L.Inv, R.Inv, R.Next, L.Header, Due;
    R.PushTakes(c, s.ring);
    L.RingTakes(c, s.ring, LinkOf(c.n, s));
    DueSame(c.n, s.ring, R.Next(c, s.ring, R.Reserve));
    assert s.ring.produced + [] == s.ring.produced;
  }

  lemma DueSame(n: nat, ring: R.State, ring': R.State)
    requires n > 0 && ring'.consumed == ring.consumed && ring'.cons == ring.cons && ring'.produced == ring.produced
    ensures Due(n, ring') == Due(n, ring)
  {
  }

  /** Publishing leaves what an acquire in progress is bound to show. */
  lemma DueGrows(n: nat, ring: R.State, ring': R.State)
    requires n > 0 && ring'.consumed == ring.consumed && ring'.cons == ring.cons && ring.produced <= ring'.produced
    requires ring.cons.CTail? ==> ring.cons.tailAbs <= |ring.produced|
    requires ring.cons.CRegion? ==> |ring.consumed| + ring.cons.actual <= |ring.produced|
    ensures Due(n, ring') == Due(n, ring)
  {
  }

  lemma SimPublish(c: R.Config, s: Node)
    requires Inv(c, s) && CanAct(c, s, Publish)
    ensures Simulates(c, s, Publish) && WriterOk(c.n, Acted(c, s, Publish)) && ReaderOk(Acted(c, s, Publish))
  {
    hide L.Inv, R.Live, R.ProdOk, L.Header, Due, L.Taken;
    DueGrows(c.n, s.ring, R.Next(c, s.ring, R.Publish));
  }

  lemma SimAsk(c: R.Config, s: Node)
    requires Inv(c, s) && CanAct(c, s, Ask)
    ensures Simulates(c, s, Ask) && WriterOk(c.n, Acted(c, s, Ask)) && ReaderOk(Acted(c, s, Ask))
  {
    hide R.Inv, L.ProdOk, L.SentOk, L.Header, L.Wire, L.Taken;
    var s' := Acted(c, s, Ask);
    DueIsShown(c.n, s, s');
    TakenSame(c.n, s, s');
  }

  lemma DueIsShown(n: nat, s: Node, s': Node)
    requires n > 0 && s.ring.cons.CIdle? && Request(s.reader) >= 0
    requires s'.ring == s.ring.(cons := R.CTail(Request(s.reader), s.ring.tail, |s.ring.produced|))
    ensures Due(n, s'.ring) == L.Shown(n, LinkOf(n, s), Request(s.reader))
  {
  }

  lemma TakenSame(n: nat, s: Node, s': Node)
    requires n > 0 && s'.ring.produced == s.ring.produced
    ensures forall a, data :: L.Taken(n, LinkOf(n, s'), a, data) == L.Taken(n, LinkOf(n, s), a, data)
  {
  }

  lemma SimAcquire(c: R.Config, s: Node)
    requires Inv(c, s) && CanAct(c, s, Acquire)
    ensures Simulates(c, s, Acquire) && WriterOk(c.n, Acted(c, s, Acquire)) && ReaderOk(Acted(c, s, Acquire))
  {
    hide R.Live, R.ProdOk, R.Next, L.Inv, L.Header, L.Taken;
    R.AcquireTakes(c, s.ring);
    DivMod(|s.ring.consumed|, c.n);
    TakenSame(c.n, s, Acted(c, s, Acquire));
  }

  lemma SimReadByte(c: R.Config, s: Node)
    requires Inv(c, s) && CanAct(c, s, ReadByte)
    ensures Simulates(c, s, ReadByte) && WriterOk(c.n, Acted(c, s, ReadByte)) && ReaderOk(Acted(c, s, ReadByte))
  {
    hide R.Inv, L.Inv, L.Header, L.Taken;
    TakenSame(c.n, s, Acted(c, s, ReadByte));
  }

  /** The bytes read so far are the first of those the region shows. */
  lemma RegionSeen(c: R.Config, s: Node)
    requires R.Proper(c) && R.Inv(c, s.ring) && s.ring.cons.CRegion?
    ensures var (due, seen, h) := (Due(c.n, s.ring), s.ring.cons.seen, |s.ring.consumed|);
      && |seen| <= |due| == s.ring.cons.actual && 0 < |due| && h + |due| <= |s.ring.produced|
      && due == s.ring.produced[h..h + |due|] && seen == due[..|seen|]
      && forall k :: 0 <= k <= |seen| ==> seen[..k] == s.ring.produced[h..h + k]
  {
    hide R.Live, R.ProdOk;
  }

  lemma SimGivePop(c: R.Config, s: Node, k: nat)
    requires Inv(c, s) && CanAct(c, s, Give(k)) && !s.reader.Sending?
    ensures Simulates(c, s, Give(k))
  {
    hide R.Inv, L.ProdOk, L.SentOk, L.Header, L.Wire, L.HeaderFd, L.HeaderCount, Due;
    RegionSeen(c, s);
    assert s.ring.cons.seen == Due(c.n, s.ring);
  }

  lemma SimGiveSend(c: R.Config, s: Node, k: nat)
    requires Inv(c, s) && CanAct(c, s, Give(k)) && s.reader.Sending?
    ensures Simulates(c, s, Give(k))
  {
    hide R.Inv, L.ProdOk, L.SentOk, L.Header, L.Wire, Due;
    RegionSeen(c, s);
    assert s.ring.consumed + [] == s.ring.consumed;
  }

  lemma SimGive(c: R.Config, s: Node, k: nat)
    requires Inv(c, s) && CanAct(c, s, Give(k))
    ensures Simulates(c, s, Give(k)) && WriterOk(c.n, Acted(c, s, Give(k))) && ReaderOk(Acted(c, s, Give(k)))
  {
    hide R.Inv, L.Inv, L.Header, L.Taken, L.Decoded, Simulates;
    if s.reader.Sending? {
      SimGiveSend(c, s, k);
    } else {
      SimGivePop(c, s, k);
    }
    TakenSame(c.n, s, Acted(c, s, Give(k)));
  }

  lemma ActSimulates(c: R.Config, s: Node, a: Act)
    requires Inv(c, s) && CanAct(c, s, a)
    ensures Simulates(c, s, a) && Inv(c, Acted(c, s, a))
  {
    hide R.Inv, L.Inv, WriterOk, ReaderOk, LinkOf, L.Moved, L.CanMove, R.Next, R.Enabled;
    match a {
      case Check(b) => SimCheck(c, s, b);
      case StartPush => SimStartPush(c, s);
      case Reserve => SimReserve(c, s);
      case CopyByte(i) => SimCopyByte(c, s, i);
      case Publish => SimPublish(c, s);
      case Ask => SimAsk(c, s);
      case Acquire => SimAcquire(c, s);
      case ReadByte => SimReadByte(c, s);
      case Give(k) => SimGive(c, s, k);
    }
    if RingStep(s, a).Some? {
      R.StepKeeps(c, s.ring, RingStep(s, a).value);
    }
    if MoveOf(c, s, a).Some? {
      L.MoveKeeps(c.n, LinkOf(c.n, s), MoveOf(c, s, a).value);
    }
  }

  // ── run by run ──

  lemma StartInv(c: R.Config, buf: seq<Byte>)
    requires R.Proper(c) && L.RESPONSE_SIZE <= c.n && |buf| == c.n
    ensures Inv(c, Start(c, buf)) && LinkOf(c.n, Start(c, buf)) == L.OPEN
  {
    ModSmall(0, c.wrap);
    L.Opened(c.n);
  }

  /** Every run over the ring, seen from the link, is a run of the link. */
  lemma {:induction false} RunSimulates(c: R.Config, s: Node, acts: seq<Act>) returns (es: seq<L.Move>)
    requires Inv(c, s) && Runs(c, s, acts)
    ensures L.Runs(c.n, LinkOf(c.n, s), es)
    ensures L.After(c.n, LinkOf(c.n, s), es) == LinkOf(c.n, After(c, s, acts)) && Inv(c, After(c, s, acts))
    decreases acts
  {
    hide Inv, LinkOf, Acted, CanAct, L.Moved, L.CanMove;
    if acts == [] {
      es := [];
    } else {
      Shape(c, s);
      ActSimulates(c, s, acts[0]);
      es := RunSimulates(c, Acted(c, s, acts[0]), acts[1..]);
      var e := MoveOf(c, s, acts[0]);
      if e.Some? {
        assert ([e.value] + es)[1..] == es;
        es := [e.value] + es;
      }
    }
  }

  lemma Shape(c: R.Config, s: Node)
    requires Inv(c, s)
    ensures R.Proper(c) && L.RESPONSE_SIZE <= c.n
  {
  }

  /** The reader looks for a header only at the start of a batch, also while an acquire is under way. */
  lemma AtBoundary(c: R.Config, s: Node)
    requires Inv(c, s)
    ensures L.AllWell(s.batches) && s.done <= |s.batches|
    ensures s.reader.AtHeader? ==> |s.ring.consumed| == |L.Wire(s.batches[..s.done])|
  {
    hide R.Inv, WriterOk, L.ProdOk, L.SentOk, L.Wire, Due, L.Header;
    L.Wells(c.n, LinkOf(c.n, s));
  }

  /**
    Over every interleaving of the two threads' loads, byte copies and stores on the ring: the Send thread never decodes a
    torn or foreign header and looks for one only at the start of a batch, and each connection has received its batches, concatenated in push order, up to a point
    within the current one; all of them once the ring is drained and both threads are between batches.
   */
  lemma RingDelivers(c: R.Config, buf: seq<Byte>, acts: seq<Act>, fd: nat)
    requires R.Proper(c) && L.RESPONSE_SIZE <= c.n && |buf| == c.n && Runs(c, Start(c, buf), acts)
    ensures var s := After(c, Start(c, buf), acts);
      && !s.reader.Broken? && s.done <= |s.batches| && L.AllWell(s.batches)
      && (s.reader.AtHeader? ==> |s.ring.consumed| == |L.Wire(s.batches[..s.done])|)
      && DeliveredTo(s, fd) == L.Bodies(s.batches[..s.done], fd) + L.Part(LinkOf(c.n, s), fd)
      && (s.writer.Ready? && s.reader.AtHeader? && s.ring.cons.CIdle? && |s.ring.consumed| == |s.ring.produced| ==>
            DeliveredTo(s, fd) == L.Bodies(s.batches, fd))
  {
    hide Runs, After, Start, Inv, L.Runs, L.After, L.Bodies, L.Part, L.Wire;
    StartInv(c, buf);
    var es := RunSimulates(c, Start(c, buf), acts);
    L.RunsDeliver(c.n, es, fd);
    AtBoundary(c, After(c, Start(c, buf), acts));
  }
}
