/**
  What every message of the keepalive connection leads to, in every reachable state: which
  requests are started, what is written and read next, and how a request is answered, in terms
  of what was asked, sent and read so far.
 */
module KeepaliveTurns {
  import opened Bytes
  import opened ChunkedSpec
  import opened ChunkedPartition
  import opened HttpHead
  import opened Keepalive
  import opened KeepaliveRuns

  /** The message itself is answered, and nothing else happens. */
  predicate Declines(s: System, t: Turn, error: Error) {
    t == Turn(s.conn, reply := Some(Reply(s.nextRequest, Failure(error), false)))
  }

  /** A request starts: one call, its deadline, and no reply. */
  predicate Begins(s: System, t: Turn, bytes: seq<Byte>) {
    var generation := s.conn.generation + 1;
    && t.lane == Some(if s.conn.transport.Some? then Write(s.conn.transport.value, generation, bytes)
                      else Connect(generation))
    && t.deadline == Some(generation) && t.reply.None? && t.close.None?
    && RequestOf(t.conn) == Some(s.nextRequest) && t.conn.transport == s.conn.transport
  }

  /** The request in flight goes on with one call and nothing else. */
  predicate GoesOn(s: System, t: Turn, call: Call) {
    && t.lane == Some(call) && t.deadline.None? && t.reply.None? && t.close.None?
    && RequestOf(t.conn) == RequestOf(s.conn)
  }

  /** The request in flight is answered; the transport is closed when it is to retire. */
  predicate Ends(s: System, t: Turn, answer: Answer, retire: bool) {
    && s.conn.inFlight.Some?
    && t.reply == Some(Reply(s.conn.inFlight.value.request, answer, retire))
    && t.lane.None? && t.deadline.None? && t.conn.inFlight.None?
    && t.conn.transport == (if retire then None else s.conn.transport)
    && t.close == (if retire then s.conn.transport else None)
  }

  // --- What a response is read as ---------------------------------------------------------

  datatype Reading = Unfinished | Answer(answer: Answer, retire: bool)

  /** The bytes of one response so far, with the cuts its chunked part was fed in. */
  function ReadAs(config: Config, wire: seq<Byte>, parts: seq<seq<Byte>>): Reading
    requires config.maxBody <= USIZE_MAX
  {
    match config.parse(wire)
    case HeadNeedsMore => Unfinished
    case HeadFailed => Answer(Failure(Malformed), true)
    case HeadComplete(head, n) =>
      if head.chunked then
        var f := FeedParts(New(config.maxBody), [], parts);
        match f.result {
          case NeedMore => Unfinished
          case Failed(_) => Answer(Failure(Malformed), true)
          case Complete => Answer(Response(f.out), true)
        }
      else
        var end := n + head.contentLength;
        if |wire| < end then Unfinished else Answer(Response(wire[Min(n, end)..end]), head.close || |wire| > end)
  }

  /** The bytes of the response being read, taken from the transport's stream. */
  function Unread(s: System): seq<Byte> {
    s.got[Min(|Concat(s.frames)|, |s.got|)..]
  }

  /** The cuts of a response after one more read: the first part is what came with the head. */
  function Cuts(config: Config, before: seq<Byte>, fed: seq<seq<Byte>>, data: seq<Byte>): seq<seq<Byte>> {
    var wire := before + data;
    match config.parse(wire)
    case HeadComplete(head, n) =>
      if !head.chunked then []
      else if config.parse(before).HeadComplete? then fed + [data]
      else [wire[Min(n, |wire|)..]]
    case _ => []
  }

  // --- Every turn -------------------------------------------------------------------------

  ghost predicate Exact(config: Config, s: System, e: Event, t: Turn)
    requires StepReady(config, s, e)
  {
    match e
    case Ask(encoded) =>
      && (Declines(s, t, Busy) <==> s.conn.inFlight.Some?)
      && (Declines(s, t, Refused) <==> s.conn.inFlight.None? && encoded.None?)
      && (encoded.Some? && s.conn.inFlight.None? ==> Begins(s, t, encoded.value))
      && (t.lane.Some? || t.deadline.Some? || t.reply.None? ==> encoded.Some? && s.conn.inFlight.None?)
    case Maintain(_, _) => t.lane.None? && t.reply.None? && t.deadline.None?
    case Connected(g, ok) =>
      if ok then GoesOn(s, t, Write(s.nextStream, g, s.asked)) && t.conn.transport == Some(s.nextStream)
      else Ends(s, t, Failure(ConnectFailed), true)
    case Wrote(call, written) =>
      if written.None? || written.value == 0 then Ends(s, t, Failure(WriteFailed), true)
      else
        && |s.sent| + written.value <= |s.asked|
        && GoesOn(s, t, if written.value == |call.bytes| then Read(call.stream, call.generation)
                        else Write(call.stream, call.generation, s.asked[|s.sent| + written.value..]))
    case ReadDone(call, None) => Ends(s, t, Failure(ReadFailed), true)
    case ReadDone(call, Some(data)) =>
      if data == [] then Ends(s, t, Failure(PeerClosed), true)
      else
        match ReadAs(config, Unread(s) + data, Cuts(config, Unread(s), s.fed, data)) {
          case Unfinished => GoesOn(s, t, Read(call.stream, call.generation))
          case Answer(answer, retire) => Ends(s, t, answer, retire)
        }
    case Deadline(_) => Ends(s, t, Failure(Timeout), true)
  }

  lemma {:induction false} AskIsExact(config: Config, s: System, encoded: Option<seq<Byte>>)
    requires Inv(config, s) && s.conn.generation < USIZE_MAX
    ensures TurnOf(config, s, Ask(encoded)).Some?
    ensures Exact(config, s, Ask(encoded), TurnOf(config, s, Ask(encoded)).value)
  {
    hide StreamsKept, RepliesKept, WritesKept, FramingInv, ResponseInv, PrefixStable, LanesKept;
  }

  lemma {:induction false} CurrentLane(config: Config, s: System, e: Event)
    requires Inv(config, s) && Enabled(s, e) && !Stale(s, e) && (e.Connected? || e.Wrote? || e.ReadDone?)
    ensures var call := if e.Connected? then Connect(e.generation) else e.call;
            && s.conn.inFlight.Some? && call.generation == s.conn.inFlight.value.generation
            && (if e.Connected? then s.conn.transport.None? && s.conn.connectBytes == Some(s.asked)
                else s.conn.transport == Some(call.stream) && s.conn.connectBytes.None?)
            && (e.Wrote? ==> s.sent + call.bytes == s.asked)
  {
    hide StreamsKept, RepliesKept, FramingInv, ResponseInv, PrefixStable;
    LiveIs(s, if e.Connected? then Connect(e.generation) else e.call);
  }

  lemma {:induction false} ConnectedIsExact(config: Config, s: System, e: Event)
    requires Inv(config, s) && Enabled(s, e) && !Stale(s, e) && e.Connected?
    ensures TurnOf(config, s, e).Some? && Exact(config, s, e, TurnOf(config, s, e).value)
  {
    CurrentLane(config, s, e);
    hide LanesKept, StreamsKept, RepliesKept, WritesKept, FramingInv, ResponseInv, PrefixStable;
  }

  lemma {:induction false} WroteIsExact(config: Config, s: System, e: Event)
    requires Inv(config, s) && Enabled(s, e) && !Stale(s, e) && e.Wrote?
    ensures TurnOf(config, s, e).Some? && Exact(config, s, e, TurnOf(config, s, e).value)
  {
    CurrentLane(config, s, e);
    hide LanesKept, StreamsKept, RepliesKept, WritesKept, FramingInv, ResponseInv, PrefixStable;
    if e.written.Some? {
      assert (s.sent + e.call.bytes)[|s.sent| + e.written.value..] == e.call.bytes[e.written.value..];
    }
  }

  // --- Reads ------------------------------------------------------------------------------

  /** What a turn on the connection's own transport does with a response read like this. */
  predicate Does(c: Connection, t: Turn, reading: Reading) {
    && c.inFlight.Some? && c.transport.Some? && t.deadline.None?
    && match reading {
         case Unfinished =>
           && t.lane == Some(Read(c.transport.value, c.inFlight.value.generation))
           && t.reply.None? && t.close.None? && RequestOf(t.conn) == RequestOf(c)
         case Answer(answer, retire) =>
           && t.reply == Some(Reply(c.inFlight.value.request, answer, retire)) && t.lane.None?
           && t.conn.inFlight.None? && t.conn.transport == (if retire then None else c.transport)
           && t.close == (if retire then c.transport else None)
       }
  }

  lemma {:induction false} LengthIsRead(config: Config, c: Connection)
    requires config.maxBody <= USIZE_MAX && DecoderValid(c) && c.inFlight.Some? && c.transport.Some?
    requires var f := c.inFlight.value;
             && f.head.Some? && config.parse(f.readBuf) == HeadComplete(f.head.value, f.headLen)
             && !f.head.value.chunked
    ensures HandleBody(c).Some? && Does(c, HandleBody(c).value, ReadAs(config, c.inFlight.value.readBuf, []))
  {
    hide FeedAll, FeedParts;
  }

  lemma {:induction false} ChunkedIsRead(config: Config, c: Connection, fed: seq<seq<Byte>>)
    requires config.maxBody <= USIZE_MAX && DecoderValid(c) && c.inFlight.Some? && c.transport.Some?
    requires var f := c.inFlight.value;
             && f.head.Some? && config.parse(f.readBuf) == HeadComplete(f.head.value, f.headLen)
             && f.headLen + f.rawConsumed <= |f.readBuf| <= USIZE_MAX
             && f.head.value.chunked && f.decoder.Some?
             && var r := FeedAll(f.decoder.value, f.readBuf[f.headLen + f.rawConsumed..]);
                FeedParts(New(config.maxBody), [], fed) == After(f.decodedBody, f.rawConsumed, r)
    ensures HandleBody(c).Some? && Does(c, HandleBody(c).value, ReadAs(config, c.inFlight.value.readBuf, fed))
  {
    hide FeedAll, FeedParts;
  }

  lemma {:induction false} DataIsRead(config: Config, c: Connection, fed: seq<seq<Byte>>, data: seq<Byte>)
    requires config.maxBody <= USIZE_MAX && PrefixStable(config.parse) && DecoderValid(c)
    requires c.inFlight.Some? && c.transport.Some? && c.connectBytes.None? && data != []
    requires ResponseKept(config, c.inFlight.value, fed) && |c.inFlight.value.readBuf| + |data| <= USIZE_MAX
    ensures var before := c.inFlight.value.readBuf;
            var t := HandleBytesRead(config, c, data);
            t.Some? && Does(c, t.value, ReadAs(config, before + data, Cuts(config, before, fed, data)))
  {
    hide FeedAll, FeedParts, Concat, PrefixStable, DecodingKept, HandleBody;
    var f := c.inFlight.value;
    var f1 := f.(readBuf := f.readBuf + data);
    if f.head.Some? {
      HeadAfterRead(config, f, fed, data);
      var c1 := c.(inFlight := Some(f1));
      if f.head.value.chunked {
        ResumedRead(config, f, fed, data);
        ChunkedIsRead(config, c1, fed + [data]);
      } else {
        LengthIsRead(config, c1);
      }
    } else if config.parse(f1.readBuf).HeadComplete? {
      var h, n := config.parse(f1.readBuf).head, config.parse(f1.readBuf).headLen;
      Stable(config.parse, f1.readBuf, []);
      var decoder := if h.chunked then Some(New(config.maxBody)) else None;
      var c2 := c.(inFlight := Some(f1.(head := Some(h), headLen := n, decoder := decoder)));
      if h.chunked {
        FirstChunkedRead(config, f1.readBuf[n..]);
        AfterNothing(FeedAll(New(config.maxBody), f1.readBuf[n..]));
        ChunkedIsRead(config, c2, [f1.readBuf[n..]]);
      } else {
        LengthIsRead(config, c2);
      }
    }
  }

  lemma {:induction false} UnreadIs(config: Config, s: System)
    requires FramingInv(config, s) && s.conn.inFlight.Some?
    ensures Unread(s) == s.conn.inFlight.value.readBuf
  {
    hide Concat;
    assert |Concat(s.frames) + Unframed(s.conn)| == |Concat(s.frames)| + |Unframed(s.conn)|;
  }

  lemma {:induction false} EofIsExact(config: Config, s: System, e: Event)
    requires Inv(config, s) && Enabled(s, e) && !Stale(s, e) && e.ReadDone? && e.data == Some([])
    ensures TurnOf(config, s, e).Some? && Exact(config, s, e, TurnOf(config, s, e).value)
  {
    CurrentLane(config, s, e);
    hide LanesKept, StreamsKept, RepliesKept, WritesKept, FramingInv, PrefixStable, DecodingKept, HandleBody;
  }

  lemma {:induction false} ReadIsExact(config: Config, s: System, e: Event)
    requires Inv(config, s) && Enabled(s, e) && !Stale(s, e) && e.ReadDone? && e.data.Some? && e.data.value != []
    ensures TurnOf(config, s, e).Some? && Exact(config, s, e, TurnOf(config, s, e).value)
  {
    CurrentLane(config, s, e);
    UnreadIs(config, s);
    hide LanesKept, StreamsKept, RepliesKept, WritesKept, FramingInv, PrefixStable, ResponseKept;
    hide HandleBytesRead, ReadAs, Unread;
    DataIsRead(config, s.conn, s.fed, e.data.value);
  }

  lemma {:induction false} TurnIsExact(config: Config, s: System, e: Event)
    requires Inv(config, s) && Enabled(s, e) && !Stale(s, e) && s.conn.generation < USIZE_MAX
    ensures TurnOf(config, s, e).Some? && Exact(config, s, e, TurnOf(config, s, e).value)
  {
    match e
    case Ask(encoded) => AskIsExact(config, s, encoded);
    case Connected(_, _) => ConnectedIsExact(config, s, e);
    case Wrote(_, _) => WroteIsExact(config, s, e);
    case ReadDone(_, Some(data)) =>
      if data == [] {
        EofIsExact(config, s, e);
      } else {
        ReadIsExact(config, s, e);
      }
    case _ => hide LanesKept, StreamsKept, RepliesKept, WritesKept, FramingInv, ResponseInv, PrefixStable, HandleBytesRead;
  }

  /**
    In every reachable state below the request counter's limit, every message that is not stale
    leads to exactly the turn stated above: a request is started, busy or refused; a connect, a
    write or a read is followed by the right next call, or answers with its own error.
   */
  lemma {:induction false} EveryTurnIsExact(config: Config, events: seq<Event>, e: Event)
    requires config.maxBody <= USIZE_MAX && PrefixStable(config.parse) && |events| < USIZE_MAX
    ensures RunOf(config, events).Some?
    ensures var s := RunOf(config, events).value;
            Enabled(s, e) && !Stale(s, e) ==>
              && StepReady(config, s, e) && TurnOf(config, s, e).Some?
              && Exact(config, s, e, TurnOf(config, s, e).value)
              && RunOf(config, events + [e]) == Some(Apply(s, e, TurnOf(config, s, e).value))
  {
    var s := RunOf(config, events).value;
    assert Inv(config, s) && s.conn.generation <= |events|;
    hide RunOf, Inv, TurnOf, Exact, Apply, Enabled, Stale, PrefixStable;
    if Enabled(s, e) && !Stale(s, e) {
      RunSnoc(config, events, e);
      TurnIsExact(config, s, e);
    }
  }
}
