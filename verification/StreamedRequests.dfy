/**
  Requests whose bodies are streamed to the service: what the dispatch keeps of the bytes already
  read, and where the next request is read from.
 */
module StreamedRequests {
  import opened Bytes
  import opened HttpHead
  import opened Pipeline
  import B = InboundBody
  import I = InboundConnection
  import C = ChunkedSpec
  import P = ChunkedPartition

  /** The end of the message at the front of the read buffer. */
  function MessageEnd(p: Pipe): nat
    requires p.head.Some?
  {
    p.headLen + p.head.value.contentLength
  }

  ghost predicate LengthRequest(config: Config, p: Pipe) {
    && p.head.Some? && Streams(config, p.head.value) && !p.head.value.chunked
    && p.headLen <= |p.readBuf| && p.readAhead == []
  }

  /** Every byte the connection still has after a streamed dispatch. */
  function StillHeld(r: (Pipe, Action)): seq<Byte> {
    (if r.1.CallStreaming? then r.1.held.body.buffer else []) + r.0.readBuf + r.0.readAhead
  }

  /**
    A Content-Length body streamed to the service: of the bytes read with the head exactly those
    of the body are kept.  None is lost if and only if the buffer ends with the message or before.
   */
  lemma {:induction false} DispatchKeepsTheBody(config: Config, p: Pipe)
    requires LengthRequest(config, p)
    ensures var r := DispatchStreamed(config, p, true);
            && r.1.CallStreaming?
            && StillHeld(r) == p.readBuf[p.headLen..Min(|p.readBuf|, MessageEnd(p))]
            && (StillHeld(r) == p.readBuf[p.headLen..] <==> |p.readBuf| <= MessageEnd(p))
  {
    var r := DispatchStreamed(config, p, true);
    var early := p.readBuf[p.headLen..];
    var end := Min(|p.readBuf|, MessageEnd(p));
    assert early[..Min(|early|, p.head.value.contentLength)] == p.readBuf[p.headLen..end];
    assert StillHeld(r) == p.readBuf[p.headLen..end] + [] + [];
    assert |p.readBuf| > MessageEnd(p) ==> |p.readBuf[p.headLen..end]| < |early|;
  }

  /** Bytes taken from the socket from the head of the request to the end of a run of its body. */
  function Taken(p: Pipe, early: seq<Byte>, r: B.Run): int {
    |p.readBuf| + |Concat(r.pulls)| - |early|
  }

  /**
    Over every run of the body behind a streamed dispatch: the next request is read from the end
    of this one if and only if the bytes read with the head did not pass it and the whole body was
    received before the response was done.
   */
  lemma {:induction false} NextRequestIsInStep(config: Config, p: Pipe, events: seq<B.Event>)
    requires LengthRequest(config, p)
    ensures DispatchStreamed(config, p, true).1.CallStreaming?
    ensures var body := DispatchStreamed(config, p, true).1.held.body;
            && B.Inv(B.Started(body, body.buffer), 0) && !body.chunked
            && var r := B.RunEvents(B.Started(body, body.buffer), events, 0);
               && r.s.received <= p.head.value.contentLength
               && (Taken(p, body.buffer, r) == MessageEnd(p) <==>
                     |p.readBuf| <= MessageEnd(p) && r.s.received == p.head.value.contentLength)
  {
    var early, total := p.readBuf[p.headLen..], p.head.value.contentLength;
    var chunkSize := config.stream.value.chunkSize;
    var body := B.DispatchLength(total, chunkSize, early);
    assert DispatchStreamed(config, p, true).1.held.body == body;
    B.StartLength(total, chunkSize, early);
    hide B.Inv, DispatchStreamed;
    B.LengthRuns(total, chunkSize, early, events);
    B.TotalKept(B.Started(body, body.buffer), events);
    FirstPullStays(B.Started(body, body.buffer), events, 0);
    var pulls := B.RunEvents(B.Started(body, body.buffer), events, 0).pulls;
    assert Concat(pulls) == pulls[0] + Concat(pulls[1..]);
  }

  /**
    A chunked body that ended whole: the raw bytes left over, which the reset for the next request
    throws away, are none if and only if the bytes read with the head did not pass its end.
   */
  lemma {:induction false} ChunkedIsInStep(maxBody: nat, chunkSize: nat, early: seq<Byte>, events: seq<B.Event>)
    requires maxBody <= USIZE_MAX && B.DispatchChunked(maxBody, chunkSize, early).Some?
    ensures var start := B.Started(B.DispatchChunked(maxBody, chunkSize, early).value, early);
            && B.Inv(start, maxBody)
            && var r := B.RunEvents(start, events, maxBody);
               r.ending.WholeBody? ==> (r.s.raw == [] <==> B.EarlyWithinBody(r, maxBody))
  {
    B.StartChunked(maxBody, chunkSize, early);
    var start := B.Started(B.DispatchChunked(maxBody, chunkSize, early).value, early);
    hide C.FeedAll, B.RunEvents;
    var r := B.RunEvents(start, events, maxBody);
    FirstPullStays(start, events, maxBody);
    if r.ending.WholeBody? && !B.EarlyWithinBody(r, maxBody) {
      FinalAtOnce(maxBody, r.pulls);
    }
  }

  lemma {:induction false} StepPulls(r: B.Run, e: B.Event)
    requires r.s.Valid() && B.Enabled(r, e)
    requires e.Arrive? && e.result.Received? && !r.s.chunked ==>
               r.s.delivered + |r.s.buffer| + |e.result.data| <= r.s.total
    ensures r.pulls <= B.Step(r, e).pulls
  {
    hide B.BodyNext, B.BodyRead;
  }

  lemma {:induction false} FirstPullStays(r: B.Run, events: seq<B.Event>, maxBody: nat)
    requires B.Inv(r, if r.s.chunked then maxBody else 0) && r.pulls != []
    ensures var pulls := B.RunEvents(r, events, maxBody).pulls; pulls != [] && pulls[0] == r.pulls[0]
    decreases |events|
  {
    hide B.Inv, B.Step;
    if events != [] {
      var last := |events| - 1;
      FirstPullStays(r, events[..last], maxBody);
      var before := B.RunEvents(r, events[..last], maxBody);
      B.ValidRun(before, if r.s.chunked then maxBody else 0);
      if B.Enabled(before, events[last]) {
        B.StepKeepsInv(before, events[last], maxBody);
        StepPulls(before, events[last]);
      }
    }
  }

  /** A first read that completes the body and goes past it leaves its surplus for good. */
  lemma {:induction false} FinalAtOnce(maxBody: nat, pulls: seq<seq<Byte>>)
    requires maxBody <= USIZE_MAX && pulls != []
    requires var f := C.FeedAll(C.New(maxBody), pulls[0]);
             f.result.Complete? && f.consumed < |pulls[0]|
    ensures P.FeedParts(C.New(maxBody), [], pulls).consumed < |Concat(pulls)|
  {
    hide C.FeedAll;
    assert [] + pulls[0] == pulls[0];
    assert Concat(pulls) == pulls[0] + Concat(pulls[1..]);
  }

  // --- Two requests in one read -----------------------------------------------------------

  /** A head of one byte that announces a body of one byte. */
  function OneByteHead(b: seq<Byte>): Parse {
    if b == [] then HeadNeedsMore else HeadComplete(Head(1, false, false), 1)
  }

  const STREAMED: Config := Config(OneByteHead, true, false, Some(Streaming(1, 10, false)))

  const BUFFERED: Config := Config(OneByteHead, true, false, None)

  lemma {:induction false} OneByteHeadFits()
    ensures ParserFits(STREAMED) && ParserFits(BUFFERED)
  {
    forall b: seq<Byte>, more: seq<Byte> | OneByteHead(b).HeadComplete?
      ensures OneByteHead(b + more) == OneByteHead(b)
    {
      assert |b + more| == |b| + |more|;
    }
  }

  lemma {:induction false} TwoMessages()
    ensures Messages(OneByteHead, [1, 2, 3, 4]) == [[1, 2], [3, 4]]
  {
    var w: seq<Byte> := [1, 2, 3, 4];
    assert w[..2] == [1, 2] && w[2..] == [3, 4] && w[2..][..2] == [3, 4] && w[2..][2..] == [];
    assert Messages(OneByteHead, w[2..][2..]) == [];
    assert Messages(OneByteHead, w[2..]) == [[3, 4]];
  }

  /**
    Two requests in one read.  Buffered, the second waits as read-ahead; streamed, it is gone
    from every buffer of the connection.
   */
  lemma {:induction false} SecondRequestIsLost()
    ensures var w, yes := [1, 2, 3, 4], Verdicts(true, true);
            && ParserFits(BUFFERED) && ParserFits(STREAMED) && Messages(OneByteHead, w) == [[1, 2], [3, 4]]
            && HandleBytesRead(BUFFERED, FRESH, w, yes).1 == CallService([1, 2])
            && HandleBytesRead(BUFFERED, FRESH, w, yes).0.readAhead == [3, 4]
            && HandleBytesRead(STREAMED, FRESH, w, yes).1.CallStreaming?
            && StillHeld(HandleBytesRead(STREAMED, FRESH, w, yes)) == [2]
  {
    OneByteHeadFits();
    TwoMessages();
    hide Messages, ParserFits;
    var w: seq<Byte> := [1, 2, 3, 4];
    assert [] + w == w && w[..2] == [1, 2] && w[2..] == [3, 4] && w[1..] == [2, 3, 4] && w[1..][..1] == [2];
    assert [] + w[2..] == [3, 4];
  }

  /**
    A service that answers before it has pulled the body.  The body's byte is still in the socket
    when the connection is reused, and is read as the head of a request that nobody sent.
   */
  lemma {:induction false} RemainderIsReadAsRequest()
    ensures var yes := Verdicts(true, true);
            var (p, first) := HandleBytesRead(STREAMED, FRESH, [1], yes);
            var (q, done) := FinishResponse(STREAMED, p, yes);
            && ParserFits(STREAMED) && Messages(OneByteHead, [1, 2]) == [[1, 2]]
            && first.CallStreaming? && first.held.body.received == 0 < first.held.body.total
            && done.ReadMore?
            && HandleBytesRead(STREAMED, q, [2], yes).1.CallStreaming?
  {
    OneByteHeadFits();
    OneMessage();
    hide Messages, ParserFits;
    var one, two: seq<Byte> := [1], [2];
    assert [] + one == one && one[1..] == [] && [] + two == two;
  }

  lemma {:induction false} OneMessage()
    ensures Messages(OneByteHead, [1, 2]) == [[1, 2]]
  {
    var w: seq<Byte> := [1, 2];
    assert w[..2] == w && w[2..] == [];
    assert Messages(OneByteHead, w[2..]) == [];
  }
}
