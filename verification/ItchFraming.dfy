/** Cutting a TCP byte stream into length-prefixed ITCH messages. */
module ItchFraming {
  import opened Types

  const MAX_BODY := 4096

  /** The big-endian length prefix. */
  function BodyLen(s: seq<Byte>): nat
    requires |s| >= 2
  {
    (s[0] as int) * 256 + s[1]
  }

  /** What a stream yields so far. */
  datatype Cut = Cut(messages: seq<seq<Byte>>, rest: seq<Byte>)

  /** A bad length drops one byte; an incomplete frame waits. */
  function Drain(s: seq<Byte>): (r: Cut)
    ensures |r.rest| <= |s|
  {
    if |s| < 2 then Cut([], s)
    else
      var n := BodyLen(s);
      if n < 1 || n > MAX_BODY then Drain(s[1..])
      else if |s| < 2 + n then Cut([], s)
      else
        var r := Drain(s[2 + n..]);
        Cut([s[2..2 + n]] + r.messages, r.rest)
  }

  lemma DrainBad(s: seq<Byte>)
    requires |s| >= 2 && !(1 <= BodyLen(s) <= MAX_BODY)
    ensures Drain(s) == Drain(s[1..])
  {
  }

  lemma DrainFrame(s: seq<Byte>)
    requires |s| >= 2 && 1 <= BodyLen(s) <= MAX_BODY && |s| >= 2 + BodyLen(s)
    ensures var n := BodyLen(s);
      Drain(s) == Cut([s[2..2 + n]] + Drain(s[2 + n..]).messages, Drain(s[2 + n..]).rest)
  {
  }

  lemma DrainWaits(s: seq<Byte>)
    requires |s| < 2 || (1 <= BodyLen(s) <= MAX_BODY && |s| < 2 + BodyLen(s))
    ensures Drain(s) == Cut([], s)
  {
  }

  /** Draining what has arrived and then the leftover with what comes next is draining it all at once. */
  lemma {:induction false} DrainSplit(a: seq<Byte>, b: seq<Byte>)
    ensures var d := Drain(a); var e := Drain(d.rest + b);
      Drain(a + b) == Cut(d.messages + e.messages, e.rest)
  {
    hide Drain;
    if |a| < 2 {
      DrainWaits(a);
    } else {
      var n := BodyLen(a);
      assert BodyLen(a + b) == n;
      if n < 1 || n > MAX_BODY {
        DrainBad(a);
        DrainBad(a + b);
        assert (a + b)[1..] == a[1..] + b;
        DrainSplit(a[1..], b);
      } else if |a| < 2 + n {
        DrainWaits(a);
      } else {
        DrainFrame(a);
        DrainFrame(a + b);
        var t := a[2 + n..];
        assert (a + b)[2 + n..] == t + b && (a + b)[2..2 + n] == a[2..2 + n];
        DrainSplit(t, b);
        var e := Drain(Drain(t).rest + b);
        assert [a[2..2 + n]] + (Drain(t).messages + e.messages) == ([a[2..2 + n]] + Drain(t).messages) + e.messages;
      }
    }
  }

  ghost function Joined(chunks: seq<seq<Byte>>): seq<Byte> {
    if chunks == [] then [] else chunks[0] + Joined(chunks[1..])
  }

  /** One drain per chunk received, the leftover carried over. */
  ghost function Received(rest: seq<Byte>, chunks: seq<seq<Byte>>): Cut
    decreases |chunks|
  {
    if chunks == [] then Cut([], rest)
    else
      var d := Drain(rest + chunks[0]);
      var e := Received(d.rest, chunks[1..]);
      Cut(d.messages + e.messages, e.rest)
  }

  /** Nothing is left to drain in a leftover. */
  lemma {:induction false} RestIsDrained(s: seq<Byte>)
    ensures Drain(Drain(s).rest) == Cut([], Drain(s).rest)
  {
    if |s| >= 2 {
      var n := BodyLen(s);
      if n < 1 || n > MAX_BODY {
        RestIsDrained(s[1..]);
      } else if |s| >= 2 + n {
        RestIsDrained(s[2 + n..]);
      }
    }
  }

  lemma {:induction false} ReceivedAny(rest: seq<Byte>, chunks: seq<seq<Byte>>)
    requires Drain(rest) == Cut([], rest)
    ensures Received(rest, chunks) == Drain(rest + Joined(chunks))
    decreases |chunks|
  {
    if chunks == [] {
      assert rest + [] == rest;
    } else {
      var a, b := rest + chunks[0], Joined(chunks[1..]);
      assert rest + Joined(chunks) == a + b;
      RestIsDrained(a);
      ReceivedAny(Drain(a).rest, chunks[1..]);
      DrainSplit(a, b);
    }
  }

  /** However a stream is cut into receives, the same messages come out and the same bytes are left. */
  lemma ChunkingIrrelevant(chunks: seq<seq<Byte>>, chunks': seq<seq<Byte>>)
    requires Joined(chunks) == Joined(chunks')
    ensures Received([], chunks) == Received([], chunks') == Drain(Joined(chunks))
  {
    assert Drain([]) == Cut([], []);
    ReceivedAny([], chunks);
    ReceivedAny([], chunks');
    assert [] + Joined(chunks) == Joined(chunks);
  }

  // ── sending side ──

  predicate Sendable(m: seq<Byte>) {
    1 <= |m| <= MAX_BODY
  }

  function Framed(m: seq<Byte>): seq<Byte>
    requires Sendable(m)
  {
    [|m| / 256, |m| % 256] + m
  }

  ghost function Stream(ms: seq<seq<Byte>>): seq<Byte>
    requires forall i :: 0 <= i < |ms| ==> Sendable(ms[i])
  {
    if ms == [] then [] else Framed(ms[0]) + Stream(ms[1..])
  }

  lemma FramedLength(m: seq<Byte>, tail: seq<Byte>)
    requires Sendable(m)
    ensures |Framed(m) + tail| == 2 + |m| + |tail| && BodyLen(Framed(m) + tail) == |m|
    ensures (Framed(m) + tail)[2..2 + |m|] == m && (Framed(m) + tail)[2 + |m|..] == tail
  {
    assert |m| == (|m| / 256) * 256 + |m| % 256;
  }

  /** Framed messages come out as they went in, with nothing left. */
  lemma {:induction false} FramesRoundTrip(ms: seq<seq<Byte>>)
    requires forall i :: 0 <= i < |ms| ==> Sendable(ms[i])
    ensures Drain(Stream(ms)) == Cut(ms, [])
  {
    if ms != [] {
      FramedLength(ms[0], Stream(ms[1..]));
      FramesRoundTrip(ms[1..]);
      assert ms == [ms[0]] + ms[1..];
    }
  }

  /** So a client's messages are what the server handles, however the network cuts the stream. */
  lemma AnyChunksDeliver(ms: seq<seq<Byte>>, chunks: seq<seq<Byte>>)
    requires (forall i :: 0 <= i < |ms| ==> Sendable(ms[i])) && Joined(chunks) == Stream(ms)
    ensures Received([], chunks) == Cut(ms, [])
  {
    ChunkingIrrelevant(chunks, chunks);
    FramesRoundTrip(ms);
  }

  // ── the connection's accumulation buffer ──

  class ConnContext {
    var accum: seq<Byte>
    var pending: nat
    var consumed: nat

    ghost predicate Valid()
      reads this
    {
      pending == |accum| && consumed <= pending
    }

    /** The bytes received and not yet consumed. */
    ghost function Unread(): seq<Byte>
      requires Valid()
      reads this
    {
      accum[consumed..]
    }

    constructor ()
      ensures Valid() && Unread() == [] && consumed == 0
    {
      accum, pending, consumed := [], 0, 0;
    }

    method AppendRead(bytes: seq<Byte>)
      requires Valid()
      modifies this
      ensures Valid() && Unread() == old(Unread()) + bytes && consumed == old(consumed)
    {
      accum := accum + bytes;
      pending := |accum|;
    }

    /** Drop the consumed bytes from the front. */
    method Compact()
      requires Valid()
      modifies this
      ensures Valid() && Unread() == old(Unread()) && consumed == 0
    {
      if consumed == 0 {
        return;
      }
      var remaining := pending - consumed;
      accum := accum[consumed..];
      pending := remaining;
      consumed := 0;
    }
  }
}
