/**
  The pull-driven request body: the service asks for one chunk at a time and the connection
  answers from its buffer, from one socket read, or with the end of the body.
 */
module InboundBody {
  import opened Bytes
  import opened ChunkedSpec
  import opened ChunkedPartition
  import opened ChunkedEncoding
  import PullReads

  const READ_CHUNK: nat := 4096

  datatype ChunkReply = Chunk(data: seq<Byte>) | Eof | ReadError

  datatype Effect = Reply(reply: ChunkReply) | Read(want: nat)

  /** What a socket read came back with; `Received([])` is the peer's end of stream. */
  datatype ReadResult = Received(data: seq<Byte>) | IoError

  datatype Inbound = Inbound(
    chunked: bool,
    total: nat,
    chunkSize: nat,
    received: nat,
    delivered: nat,
    buffer: seq<Byte>,
    decoder: Decoder,
    raw: seq<Byte>,
    eofReplied: bool)
  {
    ghost predicate Valid() {
      && decoder.Valid() && 0 < chunkSize
      && (!chunked ==> delivered + |buffer| <= total)
    }
  }

  // --- Dispatch ---------------------------------------------------------------------------

  /** Content-Length dispatch: `early` are the bytes read past the head. */
  function DispatchLength(total: nat, chunkSize: nat, early: seq<Byte>): (s: Inbound)
    ensures s.Valid()
  {
    var kept := early[..Min(|early|, total)];
    Inbound(false, total, Max(chunkSize, 1), |kept|, 0, kept, New(0), [], false)
  }

  /** Chunked dispatch; `None` when the early bytes are already malformed. */
  function DispatchChunked(maxBody: nat, chunkSize: nat, early: seq<Byte>): (s: Option<Inbound>)
    requires maxBody <= USIZE_MAX
    ensures s.Some? ==> s.value.Valid()
  {
    var r := FeedAll(New(maxBody), early);
    if r.result.Failed? then None
    else Some(Inbound(true, 0, Max(chunkSize, 1), r.consumed, 0, r.out, r.dec, early[r.consumed..], false))
  }

  // --- Handlers ---------------------------------------------------------------------------

  function ServeChunk(s: Inbound): (r: (Inbound, Effect))
    requires s.Valid()
    ensures r.0.Valid()
  {
    var take := if s.chunked then Min(s.chunkSize, |s.buffer|)
                else Min(Min(s.chunkSize, |s.buffer|), s.total - s.delivered);
    (s.(buffer := s.buffer[take..], delivered := s.delivered + take), Reply(Chunk(s.buffer[..take])))
  }

  function End(s: Inbound, reply: ChunkReply): (Inbound, Effect) {
    (s.(eofReplied := true), Reply(reply))
  }

  function ReadLimit(s: Inbound): nat {
    Min(READ_CHUNK, Max(s.chunkSize, 1))
  }

  /** `handle_request_body_next`. */
  function BodyNext(s: Inbound): (r: (Inbound, Effect))
    requires s.Valid()
    ensures r.0.Valid()
  {
    if s.eofReplied then (s, Reply(Eof))
    else if s.buffer != [] then ServeChunk(s)
    else if s.chunked then
      if s.decoder.phase.Done? then End(s, Eof)
      else (s, Read(PreferredReadSize(s.decoder.phase, ReadLimit(s))))
    else if s.delivered >= s.total then End(s, Eof)
    else
      var want := Min(SaturatingSub(s.total, s.received), ReadLimit(s));
      if want == 0 then End(s, Eof) else (s, Read(want))
  }

  /** Runs the decoder over the raw bytes with `data` appended. */
  function Decoded(s: Inbound, data: seq<Byte>): (r: (Inbound, Result))
    requires s.Valid() && s.chunked
    ensures r.0.Valid() && r.0.chunked
  {
    var raw := s.raw + data;
    var f := FeedAll(s.decoder, raw);
    (s.(received := s.received + |data|, raw := raw[f.consumed..], buffer := s.buffer + f.out, decoder := f.dec),
     f.result)
  }

  /** What the service is told, or which bytes are read next, once the decoder has run. */
  function AfterDecoding(s: Inbound, result: Result): (r: (Inbound, Effect))
    requires s.Valid() && s.chunked
    ensures r.0.Valid()
  {
    if result.Failed? then End(s, ReadError)
    else if s.buffer != [] then ServeChunk(s)
    else if result.Complete? then End(s, Eof)
    else (s, Read(PreferredReadSize(s.decoder.phase, ReadLimit(s))))
  }

  /** `handle_body_chunk_read`, with every charge admitted. */
  function BodyRead(s: Inbound, result: ReadResult): (r: (Inbound, Effect))
    requires s.Valid()
    requires result.Received? && !s.chunked ==> s.delivered + |s.buffer| + |result.data| <= s.total
    ensures r.0.Valid()
  {
    if result.IoError? then End(s, ReadError)
    else if result.data == [] then End(s, Eof)
    else if s.chunked then
      var (s', progress) := Decoded(s, result.data);
      AfterDecoding(s', progress)
    else
      ServeChunk(s.(received := s.received + |result.data|, buffer := s.buffer + result.data))
  }

  // --- Runs -------------------------------------------------------------------------------

  /** How the stream ended, as far as the service was told. */
  datatype Ending = Open | WholeBody | Truncated | Broken

  /**
    One state of a run: the connection, the read it waits for, every byte taken from the socket
    for this body (`pulls`, the early bytes first) and every chunk handed to the service.
   */
  datatype Run = Run(
    s: Inbound,
    reading: Option<nat>,
    pulls: seq<seq<Byte>>,
    served: seq<seq<Byte>>,
    ending: Ending)

  function Started(s: Inbound, early: seq<Byte>): Run {
    Run(s, None, [early], [], Open)
  }

  function Apply(r: Run, next: (Inbound, Effect), pulls: seq<seq<Byte>>, cutShort: bool): Run {
    match next.1
    case Read(want) => Run(next.0, Some(want), pulls, r.served, r.ending)
    case Reply(Chunk(data)) => Run(next.0, None, pulls, r.served + [data], r.ending)
    case Reply(reply) =>
      Run(next.0, None, pulls, r.served, if r.ending.Open? then EndingOf(reply, cutShort) else r.ending)
  }

  datatype Event = Next | Arrive(result: ReadResult)

  /** A second `Next` while a read is outstanding is rejected; a read returns at most `want`. */
  predicate Enabled(r: Run, e: Event) {
    match e
    case Next => r.reading.None?
    case Arrive(result) => r.reading.Some? && (result.Received? ==> |result.data| <= r.reading.value)
  }

  function EndingOf(reply: ChunkReply, cutShort: bool): Ending {
    if reply.ReadError? then Broken else if cutShort then Truncated else WholeBody
  }

  function Step(r: Run, e: Event): Run
    requires r.s.Valid() && Enabled(r, e)
    requires e.Arrive? && e.result.Received? && !r.s.chunked ==>
               r.s.delivered + |r.s.buffer| + |e.result.data| <= r.s.total
  {
    match e
    case Next => Apply(r, BodyNext(r.s), r.pulls, false)
    case Arrive(result) =>
      var pulls := if result.Received? && result.data != [] then r.pulls + [result.data] else r.pulls;
      Apply(r, BodyRead(r.s, result), pulls, result == Received([]))
  }

  ghost predicate Inv(r: Run, maxBody: nat) {
    && maxBody <= USIZE_MAX && r.s.Valid() && RunKept(r)
    && if r.s.chunked then ChunkedInv(r, maxBody) else LengthInv(r)
  }

  /** Chunks of the right size; no read after the end, and none while there is data to serve. */
  ghost predicate RunKept(r: Run) {
    && (forall i :: 0 <= i < |r.served| ==> 0 < |r.served[i]| <= r.s.chunkSize)
    && (r.ending.Open? <==> !r.s.eofReplied)
    && (r.reading.Some? ==> !r.s.eofReplied && r.s.buffer == [] && 0 < r.reading.value <= READ_CHUNK)
  }

  /** Content-Length: received - delivered = buffered, nothing lost or reordered. */
  ghost predicate LengthInv(r: Run)
    requires r.s.Valid()
  {
    && r.s.received == |Concat(r.pulls)| <= r.s.total
    && r.s.delivered == |Concat(r.served)|
    && Concat(r.served) + r.s.buffer == Concat(r.pulls)
    && (r.reading.Some? ==> r.reading.value <= Min(r.s.total - r.s.received, r.s.chunkSize))
    && (r.ending.WholeBody? ==> |Concat(r.served)| == r.s.total)
    && (r.ending.Truncated? ==> |Concat(r.served)| < r.s.total)
  }

  /** Chunked: the decoder, raw bytes and data are those of feeding the pulls one by one. */
  ghost predicate ChunkedInv(r: Run, maxBody: nat)
    requires maxBody <= USIZE_MAX
  {
    var f := FeedParts(New(maxBody), [], r.pulls);
    && r.s.decoder == f.dec
    && f.consumed <= |Concat(r.pulls)| && r.s.raw == Concat(r.pulls)[f.consumed..]
    && Concat(r.served) + r.s.buffer == f.out
    && (f.result.NeedMore? ==> Waiting(r.s.decoder, r.s.raw))
    && (r.s.decoder.phase.Done? <==> f.result.Complete?)
    && (f.result.Failed? ==> r.ending.Broken?)
    && (r.reading.Some? ==> f.result.NeedMore? && r.reading.value <= PreferredReadSize(f.dec.phase, READ_CHUNK))
    && (r.ending.WholeBody? ==> f.result.Complete? && r.s.buffer == [])
    && (r.ending.Truncated? ==> f.result.NeedMore?)
    && (EarlyWithinBody(r, maxBody) && f.result.Complete? ==> r.s.raw == [])
  }

  /** The bytes that came with the head do not pass the end of the body. */
  ghost predicate EarlyWithinBody(r: Run, maxBody: nat)
    requires maxBody <= USIZE_MAX
  {
    && r.pulls != []
    && var f := FeedAll(New(maxBody), r.pulls[0]);
       f.result.Complete? ==> f.consumed == |r.pulls[0]|
  }

  // --- Every step keeps the invariant -----------------------------------------------------

  lemma {:induction false} StartLength(total: nat, chunkSize: nat, early: seq<Byte>)
    ensures var s := DispatchLength(total, chunkSize, early);
            Inv(Started(s, s.buffer), 0) && s.buffer <= early
  {
    var s := DispatchLength(total, chunkSize, early);
    assert Concat([s.buffer]) == s.buffer + Concat<Byte>([]);
  }

  lemma {:induction false} StartChunked(maxBody: nat, chunkSize: nat, early: seq<Byte>)
    requires maxBody <= USIZE_MAX && DispatchChunked(maxBody, chunkSize, early).Some?
    ensures Inv(Started(DispatchChunked(maxBody, chunkSize, early).value, early), maxBody)
  {
    hide FeedAll;
    FeedOnePart(New(maxBody), [], early);
    assert [] + early == early && Concat([early]) == early + Concat<Byte>([]);
    var f := FeedAll(New(maxBody), early);
    FinalPhase(New(maxBody), early);
    if f.result.NeedMore? {
      NeedMoreWaits(New(maxBody), early);
    }
  }

  /** The decoder is in its final state exactly when the result is `Complete`. */
  lemma {:induction false} FinalPhase(d: Decoder, x: seq<Byte>)
    requires d.Valid()
    ensures FeedAll(d, x).dec.phase.Done? <==> FeedAll(d, x).result.Complete?
    decreases |x|
  {
    var t := NextTurn(d, x);
    if !t.Halt? {
      FinalPhase(t.dec, x[t.consumed..]);
    }
  }

  lemma {:induction false} ServeKeepsData(s: Inbound)
    requires s.Valid() && s.buffer != [] && (!s.chunked ==> s.delivered + |s.buffer| <= s.total)
    ensures var (s', effect) := ServeChunk(s);
            && effect.Reply? && effect.reply.Chunk?
            && 0 < |effect.reply.data| <= s.chunkSize
            && effect.reply.data + s'.buffer == s.buffer
            && s' == s.(buffer := s'.buffer, delivered := s.delivered + |effect.reply.data|)
  {
  }

  lemma {:induction false} LengthNextServes(r: Run)
    requires Inv(r, 0) && !r.s.chunked && Enabled(r, Next) && !r.s.eofReplied && r.s.buffer != []
    ensures Inv(Step(r, Next), 0)
  {
    hide ServeChunk, Concat;
    ServeKeepsData(r.s);
    var chunk := ServeChunk(r.s).1.reply.data;
    ConcatSnoc(r.served, chunk);
    assert Concat(r.served) + chunk + ServeChunk(r.s).0.buffer == Concat(r.served) + r.s.buffer;
  }

  lemma {:induction false} LengthNext(r: Run)
    requires Inv(r, 0) && !r.s.chunked && Enabled(r, Next)
    ensures Inv(Step(r, Next), 0)
  {
    hide ServeChunk, Concat;
    if !r.s.eofReplied && r.s.buffer != [] {
      LengthNextServes(r);
    } else {
      assert |Concat(r.served) + r.s.buffer| == |Concat(r.pulls)|;
    }
  }

  lemma {:induction false} LengthArrival(r: Run, data: seq<Byte>)
    requires Inv(r, 0) && !r.s.chunked && data != [] && Enabled(r, Arrive(Received(data)))
    ensures r.s.delivered + |r.s.buffer| + |data| <= r.s.total
    ensures Inv(Step(r, Arrive(Received(data))), 0)
  {
    hide ServeChunk;
    var s := r.s.(received := r.s.received + |data|, buffer := r.s.buffer + data);
    assert |Concat(r.served) + r.s.buffer| == |Concat(r.pulls)|;
    ServeKeepsData(s);
    var chunk := ServeChunk(s).1.reply.data;
    ConcatSnoc(r.pulls, data);
    ConcatSnoc(r.served, chunk);
    assert Concat(r.served) + chunk + ServeChunk(s).0.buffer == Concat(r.served) + s.buffer;
    assert Concat(r.served) + s.buffer == Concat(r.served) + r.s.buffer + data;
  }

  lemma {:induction false} LengthEnds(r: Run, result: ReadResult)
    requires Inv(r, 0) && !r.s.chunked && Enabled(r, Arrive(result))
    requires result.IoError? || result.data == []
    ensures Inv(Step(r, Arrive(result)), 0)
  {
    assert |Concat(r.served) + r.s.buffer| == |Concat(r.pulls)|;
  }

  lemma {:induction false} ChunkedNextFed(r: Run, maxBody: nat)
    requires Inv(r, maxBody) && r.s.chunked && Enabled(r, Next)
    ensures ChunkedInv(Step(r, Next), maxBody)
  {
    hide FeedAll, FeedParts, Concat, Waiting, ServeChunk;
    if !r.s.eofReplied && r.s.buffer != [] {
      ServeKeepsData(r.s);
      var chunk := ServeChunk(r.s).1.reply.data;
      ConcatSnoc(r.served, chunk);
      assert Concat(r.served) + chunk + ServeChunk(r.s).0.buffer == Concat(r.served) + r.s.buffer;
    }
  }

  lemma {:induction false} ChunkedNextRun(r: Run, maxBody: nat)
    requires Inv(r, maxBody) && r.s.chunked && Enabled(r, Next)
    ensures RunKept(Step(r, Next)) && Step(r, Next).s.chunked
  {
    hide FeedAll, FeedParts, Concat, ChunkedInv, ServeChunk;
    if !r.s.eofReplied && r.s.buffer != [] {
      ServeKeepsData(r.s);
    }
  }

  lemma {:induction false} ChunkedNext(r: Run, maxBody: nat)
    requires Inv(r, maxBody) && r.s.chunked && Enabled(r, Next)
    ensures Inv(Step(r, Next), maxBody)
  {
    ChunkedNextFed(r, maxBody);
    ChunkedNextRun(r, maxBody);
    hide RunKept, ChunkedInv, Concat, ServeChunk;
  }

  lemma {:induction false} TailAfter(all: seq<Byte>, data: seq<Byte>, c: nat, n: nat)
    requires c <= |all| && n <= |all[c..] + data|
    ensures (all + data)[c + n..] == (all[c..] + data)[n..]
  {
    assert (all + data)[c..] == all[c..] + data;
    assert (all + data)[c..][n..] == (all + data)[c + n..];
  }

  /** What one more sized read does to the outcome of feeding the pulls. */
  lemma {:induction false} OneMorePull(maxBody: nat, pulls: seq<seq<Byte>>, data: seq<Byte>)
    requires maxBody <= USIZE_MAX
    requires var before := FeedParts(New(maxBody), [], pulls);
             && before.result.NeedMore? && before.consumed <= |Concat(pulls)|
             && Waiting(before.dec, Concat(pulls)[before.consumed..])
             && |data| <= PreferredReadSize(before.dec.phase, READ_CHUNK)
    ensures var before := FeedParts(New(maxBody), [], pulls);
            var raw := Concat(pulls)[before.consumed..] + data;
            var f := FeedAll(before.dec, raw);
            var after := FeedParts(New(maxBody), [], pulls + [data]);
            && after == After(before.out, before.consumed, f)
            && after.consumed <= |Concat(pulls + [data])|
            && raw[f.consumed..] == Concat(pulls + [data])[after.consumed..]
            && (f.result.NeedMore? ==> Waiting(f.dec, raw[f.consumed..]))
            && (f.dec.phase.Done? <==> f.result.Complete?)
            && (f.result.Complete? ==> raw[f.consumed..] == [])
  {
    hide FeedAll, FeedParts, Concat, PreferredReadSize;
    var all := Concat(pulls);
    assert [] + all == all;
    FeedPartsSnoc(New(maxBody), [], pulls, data);
    ConcatSnoc(pulls, data);
    var before := FeedParts(New(maxBody), [], pulls);
    var raw := all[before.consumed..] + data;
    var f := FeedAll(before.dec, raw);
    TailAfter(all, data, before.consumed, f.consumed);
    FinalPhase(before.dec, raw);
    if f.result.NeedMore? {
      NeedMoreWaits(before.dec, raw);
    }
    PullReads.SizedReadIsConsumed(before.dec, all[before.consumed..], data, READ_CHUNK);
  }

  /** What follows the decoding of one read: an end, a chunk served, or the next read. */
  lemma {:induction false} DecodingLeads(s: Inbound, result: Result)
    requires s.Valid() && s.chunked
    ensures var (s', effect) := AfterDecoding(s, result);
            && s' == s.(buffer := s'.buffer, delivered := s'.delivered, eofReplied := s'.eofReplied)
            && (if result.Failed? then effect == Reply(ReadError) && s' == s.(eofReplied := true)
                else if s.buffer != [] then
                  && effect.Reply? && effect.reply.Chunk? && 0 < |effect.reply.data| <= s.chunkSize
                  && effect.reply.data + s'.buffer == s.buffer && s'.eofReplied == s.eofReplied
                else if result.Complete? then effect == Reply(Eof) && s' == s.(eofReplied := true)
                else effect == Read(PreferredReadSize(s.decoder.phase, ReadLimit(s))) && s' == s)
  {
    hide ServeChunk;
    if s.buffer != [] {
      ServeKeepsData(s);
    }
  }

  lemma {:induction false} ArrivalFed(r: Run, data: seq<Byte>, maxBody: nat)
    requires Inv(r, maxBody) && r.s.chunked && data != [] && Enabled(r, Arrive(Received(data)))
    ensures ChunkedInv(Step(r, Arrive(Received(data))), maxBody)
  {
    hide FeedAll, FeedParts, Waiting, AfterDecoding, Concat;
    OneMorePull(maxBody, r.pulls, data);
    var (s, result) := Decoded(r.s, data);
    DecodingLeads(s, result);
    var f := FeedAll(r.s.decoder, r.s.raw + data);
    assert Concat(r.served) + s.buffer == Concat(r.served) + r.s.buffer + f.out;
    var effect := AfterDecoding(s, result).1;
    if effect.Reply? && effect.reply.Chunk? {
      var chunk := effect.reply.data;
      ConcatSnoc(r.served, chunk);
      assert Concat(r.served) + chunk + AfterDecoding(s, result).0.buffer == Concat(r.served) + s.buffer;
    }
  }

  lemma {:induction false} ArrivalRun(r: Run, data: seq<Byte>, maxBody: nat)
    requires Inv(r, maxBody) && r.s.chunked && data != [] && Enabled(r, Arrive(Received(data)))
    ensures RunKept(Step(r, Arrive(Received(data)))) && Step(r, Arrive(Received(data))).s.chunked
  {
    hide FeedAll, ChunkedInv, AfterDecoding;
    var (s, result) := Decoded(r.s, data);
    DecodingLeads(s, result);
  }

  lemma {:induction false} ChunkedArrival(r: Run, data: seq<Byte>, maxBody: nat)
    requires Inv(r, maxBody) && r.s.chunked && data != [] && Enabled(r, Arrive(Received(data)))
    ensures Inv(Step(r, Arrive(Received(data))), maxBody)
  {
    ArrivalFed(r, data, maxBody);
    ArrivalRun(r, data, maxBody);
    hide RunKept, ChunkedInv, FeedAll, AfterDecoding;
  }

  lemma {:induction false} ChunkedEnds(r: Run, result: ReadResult, maxBody: nat)
    requires Inv(r, maxBody) && r.s.chunked && Enabled(r, Arrive(result))
    requires result.IoError? || result.data == []
    ensures Inv(Step(r, Arrive(result)), maxBody)
  {
    hide FeedAll, FeedParts;
  }

  // --- Whole runs -------------------------------------------------------------------------

  /** The state after the enabled events of a list. */
  function RunEvents(r: Run, events: seq<Event>, maxBody: nat): (r': Run)
    requires Inv(r, if r.s.chunked then maxBody else 0)
    ensures Inv(r', if r.s.chunked then maxBody else 0) && r'.s.chunked == r.s.chunked
    decreases |events|
  {
    hide Inv;
    if events == [] then r
    else
      var last := |events| - 1;
      var before := RunEvents(r, events[..last], maxBody);
      if !Enabled(before, events[last]) then before
      else
        ValidRun(before, if r.s.chunked then maxBody else 0);
        StepKeepsInv(before, events[last], maxBody);
        Step(before, events[last])
  }

  lemma {:induction false} ValidRun(r: Run, maxBody: nat)
    requires Inv(r, maxBody)
    ensures r.s.Valid()
  {
  }

  lemma {:induction false} StepChunked(r: Run, e: Event, maxBody: nat)
    requires Inv(r, maxBody) && Enabled(r, e)
    ensures e.Arrive? && e.result.Received? && !r.s.chunked ==>
              r.s.delivered + |r.s.buffer| + |e.result.data| <= r.s.total
    ensures r.s.Valid() && Step(r, e).s.chunked == r.s.chunked
  {
    assert !r.s.chunked ==> |Concat(r.served) + r.s.buffer| == |Concat(r.pulls)|;
    hide FeedAll, FeedParts, Concat, ServeChunk, ChunkedInv;
    if r.s.chunked && e.Arrive? && e.result.Received? && e.result.data != [] {
      DecodingLeads(Decoded(r.s, e.result.data).0, Decoded(r.s, e.result.data).1);
    } else {
      ServedChunked(r.s);
    }
  }

  lemma {:induction false} ServedChunked(s: Inbound)
    requires s.Valid()
    ensures BodyNext(s).0.chunked == s.chunked
  {
  }

  lemma {:induction false} StepKeepsInv(r: Run, e: Event, maxBody: nat)
    requires Inv(r, if r.s.chunked then maxBody else 0) && Enabled(r, e)
    ensures e.Arrive? && e.result.Received? && !r.s.chunked ==>
              r.s.delivered + |r.s.buffer| + |e.result.data| <= r.s.total
    ensures Step(r, e).s.chunked == r.s.chunked
    ensures Inv(Step(r, e), if r.s.chunked then maxBody else 0)
  {
    StepChunked(r, e, if r.s.chunked then maxBody else 0);
    hide Inv, Step;
    if !r.s.chunked {
      if e.Next? {
        LengthNext(r);
      } else if e.result.Received? && e.result.data != [] {
        LengthArrival(r, e.result.data);
      } else {
        LengthEnds(r, e.result);
      }
    } else if e.Next? {
      ChunkedNext(r, maxBody);
    } else if e.result.Received? && e.result.data != [] {
      ChunkedArrival(r, e.result.data, maxBody);
    } else {
      ChunkedEnds(r, e.result, maxBody);
    }
  }

  /**
    Content-Length bodies, over every run: the chunks served are a prefix of the body in order,
    none empty or above the chunk size; a clean end means the whole body; after the end nothing
    is read any more.
   */
  lemma {:induction false} LengthRuns(total: nat, chunkSize: nat, early: seq<Byte>, events: seq<Event>)
    ensures Inv(Started(DispatchLength(total, chunkSize, early), DispatchLength(total, chunkSize, early).buffer), 0)
    ensures var s := DispatchLength(total, chunkSize, early);
            var r := RunEvents(Started(s, s.buffer), events, 0);
            && r.s.received - r.s.delivered == |r.s.buffer| && r.s.received <= r.s.total
            && Concat(r.served) <= Concat(r.pulls) && |Concat(r.pulls)| == r.s.received
            && (forall i :: 0 <= i < |r.served| ==> 0 < |r.served[i]| <= r.s.chunkSize)
            && (r.ending.WholeBody? ==> |Concat(r.served)| == r.s.total)
            && (r.s.eofReplied ==> r.reading.None?)
  {
    StartLength(total, chunkSize, early);
    var s := DispatchLength(total, chunkSize, early);
    var r := RunEvents(Started(s, s.buffer), events, 0);
    assert |Concat(r.served) + r.s.buffer| == |Concat(r.pulls)|;
  }

  /**
    Chunked bodies, over every run: a clean end means the service got exactly what decoding the
    pulls one by one yields, which on a robust wire is the one-shot body; and if the early bytes
    stay within the body, the socket was not read past it.
   */
  lemma {:induction false} ChunkedRuns(maxBody: nat, chunkSize: nat, early: seq<Byte>, events: seq<Event>)
    requires maxBody <= USIZE_MAX && DispatchChunked(maxBody, chunkSize, early).Some?
    ensures Inv(Started(DispatchChunked(maxBody, chunkSize, early).value, early), maxBody)
    ensures var r := RunEvents(Started(DispatchChunked(maxBody, chunkSize, early).value, early), events, maxBody);
            && Concat(r.served) <= FeedParts(New(maxBody), [], r.pulls).out
            && (r.s.eofReplied ==> r.reading.None?)
            && (r.ending.WholeBody? && Robust(New(maxBody), Concat(r.pulls)) ==>
                  var whole := FeedAll(New(maxBody), Concat(r.pulls));
                  && whole.result.Complete? && Concat(r.served) == whole.out
                  && (EarlyWithinBody(r, maxBody) ==> whole.consumed == |Concat(r.pulls)|))
  {
    hide FeedAll, FeedParts;
    StartChunked(maxBody, chunkSize, early);
    var r := RunEvents(Started(DispatchChunked(maxBody, chunkSize, early).value, early), events, maxBody);
    if r.ending.WholeBody? && Robust(New(maxBody), Concat(r.pulls)) {
      assert [] + Concat(r.pulls) == Concat(r.pulls);
      PullReads.OnlyNeedsMore(New(maxBody));
      PartsAgree(New(maxBody), [], r.pulls);
    }
  }

  lemma {:induction false} OneEvent(r: Run, e: Event, maxBody: nat)
    requires Inv(r, if r.s.chunked then maxBody else 0) && Enabled(r, e)
    ensures r.s.Valid() && (e.Next? || e.result == Received([]) ==> RunEvents(r, [e], maxBody) == Step(r, e))
  {
    ValidRun(r, if r.s.chunked then maxBody else 0);
    hide Inv, Step;
    assert [e][..0] == [];
    assert RunEvents(r, [], maxBody) == r;
  }

  /** A body that is all there with the early bytes, and one the peer cuts off at once. */
  lemma {:induction false} EndsAlike()
    ensures FeedAll(New(10), TERMINATOR) == Outcome(New(10).(phase := Done), [], Complete, 5)
    ensures FeedAll(New(10), []) == Outcome(New(10), [], NeedMore, 0)
  {
    hide FeedAll;
    DecodeTerminator(New(10), []);
    assert TERMINATOR + [] == TERMINATOR;
    PullReads.OnlyNeedsMore(New(10));
  }

  /**
    A chunked body cut off by the peer ends with the same reply as a whole one: two runs that
    serve nothing and then reply `Eof`, one at the terminator, one at the peer's close.
   */
  lemma {:induction false} TruncationLooksWhole()
    ensures DispatchChunked(10, 1, TERMINATOR).Some? && DispatchChunked(10, 1, []).Some?
    ensures var whole := Started(DispatchChunked(10, 1, TERMINATOR).value, TERMINATOR);
            var cut := Started(DispatchChunked(10, 1, []).value, []);
            && Inv(whole, 10) && Inv(cut, 10)
            && var w, waits := RunEvents(whole, [Next], 10), RunEvents(cut, [Next], 10);
               && waits.reading.Some? && Inv(waits, 10)
               && var c := RunEvents(waits, [Arrive(Received([]))], 10);
                  && BodyNext(whole.s).1 == Reply(Eof) == BodyRead(waits.s, Received([])).1
                  && w.served == c.served == [] && w.ending.WholeBody? && c.ending.Truncated?
  {
    EndsAlike();
    hide FeedAll, FeedParts;
    StartChunked(10, 1, TERMINATOR);
    StartChunked(10, 1, []);
    var whole := Started(DispatchChunked(10, 1, TERMINATOR).value, TERMINATOR);
    var cut := Started(DispatchChunked(10, 1, []).value, []);
    hide Inv, RunEvents;
    OneEvent(whole, Next, 10);
    OneEvent(cut, Next, 10);
    OneEvent(RunEvents(cut, [Next], 10), Arrive(Received([])), 10);
  }

  /** A Content-Length body cut off by the peer shows: less than the announced length was served. */
  lemma {:induction false} TruncationShows(total: nat, chunkSize: nat, early: seq<Byte>, events: seq<Event>)
    ensures var s := DispatchLength(total, chunkSize, early);
            && Inv(Started(s, s.buffer), 0)
            && var r := RunEvents(Started(s, s.buffer), events, 0);
               && (r.ending.WholeBody? ==> |Concat(r.served)| == total)
               && (r.ending.Truncated? ==> |Concat(r.served)| < total)
  {
    StartLength(total, chunkSize, early);
    TotalKept(Started(DispatchLength(total, chunkSize, early), DispatchLength(total, chunkSize, early).buffer), events);
  }

  lemma {:induction false} TotalKept(r: Run, events: seq<Event>)
    requires Inv(r, 0) && !r.s.chunked
    ensures RunEvents(r, events, 0).s.total == r.s.total
    decreases |events|
  {
    hide Inv;
    if events != [] {
      var last := |events| - 1;
      TotalKept(r, events[..last]);
      ValidRun(RunEvents(r, events[..last], 0), 0);
      if Enabled(RunEvents(r, events[..last], 0), events[last]) {
        StepKeepsInv(RunEvents(r, events[..last], 0), events[last], 0);
      }
    }
  }
}
