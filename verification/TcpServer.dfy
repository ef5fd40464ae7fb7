/** The matching thread's side of a connection: receive, cut into messages, hand each to the engine, collect answers. */
module TcpServerModel {
  import opened Types
  import opened Exchange
  import opened OrderBookModel
  import opened Runs
  import opened IndexRuns
  import opened Outcomes
  import opened MatchingEngineModel
  import opened ItchFraming
  import opened ItchParserModel

  /** The engine's state and index, and what is sent back. */
  datatype Served = Served(now: Whole, out: seq<Response>)

  ghost function ByStep(w: Whole, c: Command): (r: Served)
    requires |w.state.books| == MAX_LOCATE
    ensures |r.now.state.books| == MAX_LOCATE
  {
    Served(Next(w, c), Step(w.state, c, InsertAnswer(w.state, w.index, c)).out)
  }

  /**
    ITCH names no account, so the order reference stands for the user. A replace takes its side from the order it
    replaces, and is refused outright when there is none.
   */
  ghost function Serve(w: Whole, ev: Event): (r: Served)
    requires |w.state.books| == MAX_LOCATE
    ensures |r.now.state.books| == MAX_LOCATE
  {
    var st := w.state;
    match ev
    case EvAdd(l, ref, side, price, shares) => ByStep(w, CmdAdd(l, ref, side, price, shares, ref, Day))
    case EvDelete(l, ref) => ByStep(w, CmdCancel(l, ref, ref))
    case EvCancel(l, ref, shares) => ByStep(w, CmdCancelShares(l, ref, shares, ref))
    case EvReplace(l, ref, newRef, price, shares) =>
      if Found(st, l, ref) then ByStep(w, CmdReplace(l, ref, newRef, OrderIn(st.books[l], ref).side, price, shares, ref))
      else Served(w, [RspError(OrderNotFound)])
    case EvBook(l) => Served(w, [RspBook(l, Top(st.books[l].bids, st.books[l].asks))])
  }

  ghost predicate EventPermitted(st: State, ev: Event)
    requires |st.books| == MAX_LOCATE
  {
    match ev
    case EvAdd(_, ref, _, _, _) => FreshRef(st, ref)
    case EvDelete(l, ref) => OwnLocate(st, l, ref)
    case EvCancel(l, ref, _) => OwnLocate(st, l, ref)
    case EvReplace(l, ref, newRef, _, _) => OwnLocate(st, l, ref) && ReplaceFresh(st, l, ref, newRef)
    case EvBook(_) => true
  }

  /** One message; what is not an order or book event is ignored. */
  ghost function ServeMessage(w: Whole, m: seq<Byte>): (r: Served)
    requires |w.state.books| == MAX_LOCATE
    ensures |r.now.state.books| == MAX_LOCATE
  {
    if Parse(m).Some? then Serve(w, Parse(m).value) else Served(w, [])
  }

  ghost predicate MessagePermitted(st: State, m: seq<Byte>)
    requires |st.books| == MAX_LOCATE
  {
    Parse(m).Some? ==> EventPermitted(st, Parse(m).value)
  }

  /** Added refs are fresh and cancels name their own locate, all along the messages. */
  ghost predicate AllPermitted(w: Whole, ms: seq<seq<Byte>>)
    requires |w.state.books| == MAX_LOCATE
    decreases |ms|
  {
    ms != [] ==> MessagePermitted(w.state, ms[0]) && AllPermitted(ServeMessage(w, ms[0]).now, ms[1..])
  }

  ghost function ServeAll(w: Whole, ms: seq<seq<Byte>>): (r: Served)
    requires |w.state.books| == MAX_LOCATE
    ensures |r.now.state.books| == MAX_LOCATE
    decreases |ms|
  {
    if ms == [] then Served(w, [])
    else
      var n := |ms| - 1;
      var before := ServeAll(w, ms[..n]);
      var last := ServeMessage(before.now, ms[n]);
      Served(last.now, before.out + last.out)
  }

  lemma ServeMore(w: Whole, ms: seq<seq<Byte>>, m: seq<Byte>)
    requires |w.state.books| == MAX_LOCATE
    ensures var before := ServeAll(w, ms); var last := ServeMessage(before.now, m);
      ServeAll(w, ms + [m]) == Served(last.now, before.out + last.out)
  {
    assert (ms + [m])[..|ms|] == ms;
  }

  // ── one answer per event ──

  function NonTrades(out: seq<Response>): nat {
    if out == [] then 0 else NonTrades(out[..|out| - 1]) + if out[|out| - 1].RspTrade? then 0 else 1
  }

  function Recognised(ms: seq<seq<Byte>>): nat {
    if ms == [] then 0 else Recognised(ms[..|ms| - 1]) + if Parse(ms[|ms| - 1]).Some? then 1 else 0
  }

  lemma {:induction false} NonTradesConcat(a: seq<Response>, b: seq<Response>)
    ensures NonTrades(a + b) == NonTrades(a) + NonTrades(b)
  {
    if b == [] {
      assert a + b == a;
    } else {
      assert (a + b)[..|a + b| - 1] == a + b[..|b| - 1];
      NonTradesConcat(a, b[..|b| - 1]);
    }
  }

  lemma {:induction false} TradesOnly(out: seq<Response>)
    requires forall i :: 0 <= i < |out| ==> out[i].RspTrade?
    ensures NonTrades(out) == 0
  {
    if out != [] {
      TradesOnly(out[..|out| - 1]);
    }
  }

  lemma ServeAnswersOnce(w: Whole, ev: Event)
    requires |w.state.books| == MAX_LOCATE
    ensures TradesThenOne(Serve(w, ev).out)
  {
    hide Step, InsertAnswer, IndexAfter;
    var st := w.state;
    match ev
    case EvAdd(l, ref, side, price, shares) => StepAnswersOnce(w, CmdAdd(l, ref, side, price, shares, ref, Day));
    case EvDelete(l, ref) => StepAnswersOnce(w, CmdCancel(l, ref, ref));
    case EvCancel(l, ref, shares) => StepAnswersOnce(w, CmdCancelShares(l, ref, shares, ref));
    case EvReplace(l, ref, newRef, price, shares) =>
      if Found(st, l, ref) {
        StepAnswersOnce(w, CmdReplace(l, ref, newRef, OrderIn(st.books[l], ref).side, price, shares, ref));
      }
    case EvBook(l) =>
  }

  lemma StepAnswersOnce(w: Whole, c: Command)
    requires |w.state.books| == MAX_LOCATE && (c.CmdAdd? ==> c.tif == Day)
    ensures TradesThenOne(ByStep(w, c).out)
  {
    AnswersOnce(w.state, c, InsertAnswer(w.state, w.index, c));
  }

  /** Over any drained stream there are as many non-trade frames as recognised events. */
  lemma {:induction false} OneAnswerPerEvent(w: Whole, ms: seq<seq<Byte>>)
    requires |w.state.books| == MAX_LOCATE
    ensures NonTrades(ServeAll(w, ms).out) == Recognised(ms)
    decreases |ms|
  {
    hide Serve, Parse;
    if ms != [] {
      var n := |ms| - 1;
      OneAnswerPerEvent(w, ms[..n]);
      var before := ServeAll(w, ms[..n]);
      var last := ServeMessage(before.now, ms[n]);
      NonTradesConcat(before.out, last.out);
      if Parse(ms[n]).Some? {
        ServeAnswersOnce(before.now, Parse(ms[n]).value);
        TradesOnly(last.out[..|last.out| - 1]);
      }
    }
  }

  // ── the server ──

  class TcpServer {
    const engine: MatchingEngine
    const parser: ItchParser

    constructor (engine: MatchingEngine, parser: ItchParser)
      ensures this.engine == engine && this.parser == parser
    {
      this.engine, this.parser := engine, parser;
    }

    /** The side of the order a replace names, if there is one. */
    method LookUp(l: u16, ref: u64) returns (r: Option<Side>)
      requires engine.Valid() && OwnLocate(engine.st, l, ref)
      modifies engine.Footprint()
      ensures engine.Valid() && fresh(engine.Footprint() - old(engine.Footprint())) && engine.W() == old(engine.W())
      ensures l < |engine.st.books|
      ensures r == if Found(engine.st, l, ref) then Some(OrderIn(engine.st.books[l], ref).side) else None
    {
      hide MatchingEngine.Valid, OwnLocate, Found, OrderIn, Locate;
      engine.SlotCount();
      var book := engine.BookFor(l);
      var x := engine.FindAny(l, ref);
      if x.None? {
        return None;
      }
      return Some(engine.pool.storage[x.value].data.side);
    }

    /** A replace that carries no side: look the order up first. */
    method ServeReplace(l: u16, ref: u64, newRef: u64, price: u32, shares: u32) returns (out: seq<Response>)
      requires engine.Valid() && EventPermitted(engine.st, EvReplace(l, ref, newRef, price, shares))
      modifies engine.Footprint()
      ensures engine.Valid() && fresh(engine.Footprint() - old(engine.Footprint()))
      ensures Served(engine.W(), out) == Serve(old(engine.W()), EvReplace(l, ref, newRef, price, shares))
    {
      hide MatchingEngine.Valid, Replace, OwnLocate, ReplaceFresh, InsertAnswer, IndexAfter, Found, OrderIn, Locate;
      var side := LookUp(l, ref);
      if side.None? {
        return [RspError(OrderNotFound)];
      }
      ghost var ins: bool;
      out, ins := engine.ProcessReplace(l, ref, newRef, side.value, price, shares, ref);
    }

    method ServeEvent(ev: Event) returns (out: seq<Response>)
      requires engine.Valid() && EventPermitted(engine.st, ev)
      modifies engine.Footprint()
      ensures engine.Valid() && fresh(engine.Footprint() - old(engine.Footprint()))
      ensures Served(engine.W(), out) == Serve(old(engine.W()), ev)
    {
      hide MatchingEngine.Valid, Add, Cancel, CancelShares, Replace, OwnLocate, ReplaceFresh, FreshRef,
           InsertAnswer, IndexAfter;
      match ev
      case EvAdd(l, ref, side, price, shares) =>
        ghost var ins: bool;
        out, ins := engine.ProcessAdd(l, ref, side, price, shares, ref, Day);
      case EvDelete(l, ref) =>
        out := engine.ProcessCancel(l, ref, ref);
      case EvCancel(l, ref, shares) =>
        out := engine.ProcessCancelShares(l, ref, shares, ref);
      case EvReplace(l, ref, newRef, price, shares) =>
        out := ServeReplace(l, ref, newRef, price, shares);
      case EvBook(l) =>
        var rsp := engine.GetBook(l);
        out := [rsp];
    }

    method ProcessItchMessage(m: seq<Byte>) returns (out: seq<Response>)
      requires engine.Valid() && MessagePermitted(engine.st, m)
      modifies engine.Footprint(), parser
      ensures engine.Valid() && fresh(engine.Footprint() - old(engine.Footprint()))
      ensures Served(engine.W(), out) == ServeMessage(old(engine.W()), m)
    {
      hide MatchingEngine.Valid, EventPermitted, Serve, Listed, Parse;
      out := [];
      var ev := parser.Feed(m);
      if ev.Some? {
        out := ServeEvent(ev.value);
      }
    }

    /** Handle the complete message at the front of the unread bytes, and consume it. */
    method HandleFrame(conn: ConnContext, bodyLen: nat, out: seq<Response>, ghost s: Progress) returns (out': seq<Response>)
      requires conn.Valid() && |conn.Unread()| >= 2 && bodyLen == BodyLen(conn.Unread())
      requires 1 <= bodyLen <= MAX_BODY && |conn.Unread()| >= 2 + bodyLen
      requires engine.Valid() && SoFar(s, Served(engine.W(), out), conn.Unread())
      modifies engine.Footprint(), parser, conn
      ensures conn.Valid() && conn.accum == old(conn.accum) && conn.consumed == old(conn.consumed) + 2 + bodyLen
      ensures engine.Valid() && fresh(engine.Footprint() - old(engine.Footprint()))
      ensures SoFar(Handled(s, old(conn.Unread())), Served(engine.W(), out'), conn.Unread())
    {
      hide MatchingEngine.Valid, MatchingEngine.Footprint, BodyLen, SoFar, ServeMessage, MessagePermitted, Handled;
      ConnApart(engine, conn);
      ghost var unread := conn.Unread();
      var m := conn.accum[conn.consumed + 2..conn.consumed + 2 + bodyLen];
      DropSlice(conn.accum, conn.consumed, 2, 2 + bodyLen);
      DropSlice(conn.accum, conn.consumed, 2 + bodyLen, |unread|);
      SoFarNext(s, Served(engine.W(), out), unread);
      var rsp := ProcessItchMessage(m);
      out' := out + rsp;
      conn.consumed := conn.consumed + (2 + bodyLen);
    }

    /** Handle every complete message received, keep the rest. */
    method DrainBuffered(conn: ConnContext) returns (out: seq<Response>)
      requires conn.Valid() && engine.Valid()
      requires AllPermitted(engine.W(), Drain(conn.Unread()).messages)
      modifies engine.Footprint(), parser, conn
      ensures conn.Valid() && conn.consumed == 0 && engine.Valid() && fresh(engine.Footprint() - old(engine.Footprint()))
      ensures conn.Unread() == Drain(old(conn.Unread())).rest
      ensures Served(engine.W(), out) == ServeAll(old(engine.W()), Drain(old(conn.Unread())).messages)
    {
      hide MatchingEngine.Valid, ServeMessage, MessagePermitted, Drain, ServeAll, AllPermitted, BodyLen, SoFar, Handled;
      engine.SlotCount();
      ghost var s := Progress(engine.W(), Drain(conn.Unread()), []);
      out := [];
      SoFarBegin(s, conn.Unread());
      while conn.pending - conn.consumed >= 2
        invariant conn.Valid() && engine.Valid() && fresh(engine.Footprint() - old(engine.Footprint()))
        invariant s.start == old(engine.W()) && s.whole == Drain(old(conn.Unread()))
        invariant SoFar(s, Served(engine.W(), out), conn.Unread())
        decreases |conn.accum| - conn.consumed
      {
        ghost var unread, now := conn.Unread(), Served(engine.W(), out);
        var bodyLen := BodyLen(conn.accum[conn.consumed..]);
        if bodyLen < 1 || bodyLen > MAX_BODY {
          SoFarSkip(s, now, unread);
          conn.consumed := conn.consumed + 1;
          assert conn.Unread() == unread[1..];
          continue;
        }
        if conn.pending - conn.consumed < 2 + bodyLen {
          break;
        }
        out := HandleFrame(conn, bodyLen, out, s);
        HandledFrom(s, unread);
        s := Handled(s, unread);
      }
      SoFarEnd(s, Served(engine.W(), out), conn.Unread());
      conn.Compact();
    }

    /** Bytes arrive: whatever completes a message is handled, together with what was left over before. */
    method OnRecv(conn: ConnContext, bytes: seq<Byte>) returns (out: seq<Response>)
      requires conn.Valid() && engine.Valid()
      requires AllPermitted(engine.W(), Drain(conn.Unread() + bytes).messages)
      modifies engine.Footprint(), parser, conn
      ensures conn.Valid() && engine.Valid() && fresh(engine.Footprint() - old(engine.Footprint()))
      ensures conn.Unread() == Drain(old(conn.Unread()) + bytes).rest
      ensures Served(engine.W(), out) == ServeAll(old(engine.W()), Drain(old(conn.Unread()) + bytes).messages)
    {
      hide MatchingEngine.Valid, Drain, ServeAll, AllPermitted;
      conn.AppendRead(bytes);
      out := DrainBuffered(conn);
    }
  }

  /** A connection is none of the engine's objects. */
  lemma ConnApart(engine: MatchingEngine, conn: ConnContext)
    ensures conn !in engine.Footprint()
  {
  }

  lemma DropSlice<T>(s: seq<T>, k: nat, i: nat, j: nat)
    requires i <= j && k + j <= |s|
    ensures s[k..][i..j] == s[k + i..k + j]
    ensures k + j == |s| ==> s[k..][i..] == s[k + i..]
  {
  }

  // ── part of the way through a stream ──

  /** Where the engine started, how the stream is cut, and the messages handled. */
  datatype Progress = Progress(start: Whole, whole: Cut, done: seq<seq<Byte>>)

  /** The messages not yet handled are in the unread bytes, and permitted. */
  ghost predicate SoFar(s: Progress, now: Served, unread: seq<Byte>) {
    && |s.start.state.books| == |now.now.state.books| == MAX_LOCATE
    && s.whole == Cut(s.done + Drain(unread).messages, Drain(unread).rest)
    && now == ServeAll(s.start, s.done) && AllPermitted(now.now, Drain(unread).messages)
  }

  /** One more message handled: the one at the front of the unread bytes. */
  ghost function Handled(s: Progress, unread: seq<Byte>): Progress {
    if |unread| >= 2 && |unread| >= 2 + BodyLen(unread) then s.(done := s.done + [unread[2..2 + BodyLen(unread)]]) else s
  }

  lemma HandledFrom(s: Progress, unread: seq<Byte>)
    ensures Handled(s, unread).start == s.start && Handled(s, unread).whole == s.whole
  {
  }

  lemma SoFarBegin(s: Progress, unread: seq<Byte>)
    requires |s.start.state.books| == MAX_LOCATE && AllPermitted(s.start, Drain(unread).messages)
    requires s.done == [] && s.whole == Drain(unread)
    ensures SoFar(s, Served(s.start, []), unread)
  {
    hide Drain, AllPermitted;
    assert [] + Drain(unread).messages == Drain(unread).messages;
  }

  lemma SoFarSkip(s: Progress, now: Served, unread: seq<Byte>)
    requires SoFar(s, now, unread) && |unread| >= 2 && !(1 <= BodyLen(unread) <= MAX_BODY)
    ensures SoFar(s, now, unread[1..])
  {
    hide Drain, ServeAll, AllPermitted;
    DrainBad(unread);
  }

  lemma SoFarNext(s: Progress, now: Served, unread: seq<Byte>)
    requires SoFar(s, now, unread)
    requires |unread| >= 2 && 1 <= BodyLen(unread) <= MAX_BODY && |unread| >= 2 + BodyLen(unread)
    ensures |now.now.state.books| == MAX_LOCATE
    ensures var n := BodyLen(unread); var m := unread[2..2 + n]; var r := ServeMessage(now.now, m);
      MessagePermitted(now.now.state, m) && SoFar(Handled(s, unread), Served(r.now, now.out + r.out), unread[2 + n..])
  {
    hide Drain, ServeAll, AllPermitted, ServeMessage, MessagePermitted;
    var n := BodyLen(unread);
    var m, t := unread[2..2 + n], Drain(unread[2 + n..]);
    DrainFrame(unread);
    assert ([m] + t.messages)[1..] == t.messages;
    PermittedNext(now.now, [m] + t.messages);
    ServeMore(s.start, s.done, m);
    assert s.done + ([m] + t.messages) == (s.done + [m]) + t.messages;
  }

  lemma PermittedNext(w: Whole, ms: seq<seq<Byte>>)
    requires |w.state.books| == MAX_LOCATE && ms != [] && AllPermitted(w, ms)
    ensures MessagePermitted(w.state, ms[0]) && AllPermitted(ServeMessage(w, ms[0]).now, ms[1..])
  {
  }

  lemma SoFarEnd(s: Progress, now: Served, unread: seq<Byte>)
    requires SoFar(s, now, unread)
    requires |unread| < 2 || (1 <= BodyLen(unread) <= MAX_BODY && |unread| < 2 + BodyLen(unread))
    ensures |s.start.state.books| == MAX_LOCATE && s.whole == Cut(s.done, unread) && now == ServeAll(s.start, s.done)
  {
    hide Drain, ServeAll, AllPermitted;
    DrainWaits(unread);
    assert s.done + [] == s.done;
  }
}
