/**
  What a connection owes for its response body while the body is on its way: each body write is
  charged when it is queued, and every accepted byte gives one back.
 */
module ResponseCharge {
  import opened Bytes
  import opened ChunkSizeLine
  import opened ChunkedEncoding
  import opened ResponseWire

  /** What the outstanding write carries: nothing that is charged, body bytes, or a chunk in its frame. */
  datatype Load = Plain | BodyBytes | Frame(data: seq<Byte>)

  /** The response with `metrics_response_charge`. */
  datatype Charging = Charging(s: System, charge: nat, load: Load)

  function Charge(config: Config, n: nat): nat {
    if config.metered then n else 0
  }

  /** A whole write: a body that waited behind the head is charged as it is queued. */
  function Drained(config: Config, c: Charging, left: nat, s: System): Charging {
    if c.s.w.bufferedBody.Some? then Charging(s, left + Charge(config, |c.s.w.bufferedBody.value|), BodyBytes)
    else Charging(s, left, Plain)
  }

  /** A chunk from the source is charged for its data, not for its frame; the terminator is free. */
  function Replying(config: Config, c: Charging, reply: SourceReply, s: System): Charging {
    if !reply.Chunk? || reply.bytes == [] then c.(s := s, load := Plain)
    else if c.s.w.chunked then Charging(s, c.charge + Charge(config, |reply.bytes|), Frame(reply.bytes))
    else Charging(s, c.charge + Charge(config, Min(|reply.bytes|, c.s.w.remaining)), BodyBytes)
  }

  /** Closing and the reset for the next request give everything back. */
  function ChargeStep(config: Config, c: Charging, e: Event): Charging
    requires Enabled(c.s, e)
  {
    var s := Step(c.s, e);
    if !s.fate.Open? then Charging(s, 0, Plain)
    else
      match e
      case Wrote(written, _) =>
        var left := c.charge - Min(written, c.charge);
        if written < |c.s.out.bytes| then c.(s := s, charge := left) else Drained(config, c, left, s)
      case Replied(reply, _) => Replying(config, c, reply, s)
      case WriteFailed => Charging(s, 0, Plain)
  }

  // --- The invariant ----------------------------------------------------------------------

  /** How much of a chunk's frame the wire has accepted. */
  function Gone(c: Charging): nat
    requires c.load.Frame? && |InWrite(c.s.out)| <= |EncodeChunk(c.load.data)|
  {
    |EncodeChunk(c.load.data)| - |InWrite(c.s.out)|
  }

  ghost predicate LoadKept(config: Config, c: Charging) {
    match c.load
    case Plain =>
      && c.charge == 0
      && (!c.s.out.Pulling? && !c.s.body.ChunkedStream? ==>
            && |c.s.accepted| + |InWrite(c.s.out)| == |c.s.head|
            && (c.s.head != [] ==> InWrite(c.s.out) != []))
    case BodyBytes =>
      && c.s.out.Writing? && !c.s.body.ChunkedStream? && c.s.w.bufferedBody.None?
      && c.charge == Charge(config, |c.s.out.bytes|)
    case Frame(data) =>
      && c.s.out.Writing? && c.s.body.ChunkedStream? && data != [] && |c.s.out.bytes| <= |EncodeChunk(data)|
      && c.s.out.bytes == EncodeChunk(data)[Gone(c)..]
      && c.charge == Charge(config, SaturatingSub(|data|, Gone(c)))
  }

  /** Body bytes and pulls come after the head; a body that waits behind it is the whole body. */
  ghost predicate HeadGone(c: Charging) {
    && (c.load.BodyBytes? || c.s.out.Pulling? ==> |c.s.head| <= |c.s.accepted|)
    && (c.s.w.bufferedBody.Some? ==> c.s.body == Buffered(c.s.w.bufferedBody.value))
  }

  ghost predicate Kept(config: Config, c: Charging) {
    && Inv(c.s)
    && (c.s.fate.Open? ==> (config.metered ==> LoadKept(config, c)) && HeadGone(c))
    && (!c.s.fate.Open? || !config.metered ==> c.charge == 0)
  }

  lemma {:induction false} FrameLength(data: seq<Byte>)
    ensures |EncodeChunk(data)| == |Hex(|data|)| + 2 + |data| + 2 && |Hex(|data|)| > 0
  {
  }

  lemma {:induction false} StartKept(config: Config, head: seq<Byte>, body: Body, willClose: bool)
    ensures Kept(config, Charging(Start(config, head, body, willClose), 0, Plain))
  {
    StartInv(config, head, body, willClose);
    hide Inv;
  }

  // --- Steps of an open response ----------------------------------------------------------

  lemma {:induction false} PartStep(s: System, e: Event)
    requires Enabled(s, e) && e.Wrote? && 0 < e.written < |s.out.bytes|
    ensures var s' := Step(s, e);
            && s'.out == s.out.(bytes := s.out.bytes[e.written..]) && s'.fate == s.fate
            && s'.accepted == s.accepted + s.out.bytes[..e.written]
            && s'.head == s.head && s'.body == s.body && s'.w.bufferedBody == s.w.bufferedBody
  {
    hide Trouble;
  }

  lemma {:induction false} StalledStep(s: System, e: Event)
    requires Enabled(s, e) && (e.WriteFailed? || (e.Wrote? && e.written == 0))
    ensures Step(s, e).fate.Closed?
  {
    hide Trouble;
  }

  /** A whole write: the waiting body goes next, or the source is pulled, or the response ends. */
  lemma {:induction false} WholeStep(s: System, e: Event)
    requires Enabled(s, e) && e.Wrote? && 0 < e.written == |s.out.bytes|
    ensures var s' := Step(s, e);
            && s'.accepted == s.accepted + s.out.bytes && s'.head == s.head && s'.body == s.body
            && (s'.fate.Open? ==>
                  && s'.w.bufferedBody.None? && s.out.Writing?
                  && s'.out == if s.w.bufferedBody.Some? then Writing(s.w.bufferedBody.value) else Pulling)
  {
    hide Trouble;
    assert s.out.bytes[..e.written] == s.out.bytes;
  }

  lemma {:induction false} EndStep(s: System, e: Event)
    requires Enabled(s, e) && e.Replied? && (!e.reply.Chunk? || e.reply.bytes == [])
    ensures var s' := Step(s, e);
            && s'.accepted == s.accepted && s'.w.bufferedBody == s.w.bufferedBody
            && (s'.fate.Open? ==> s.w.chunked && s'.out == Writing(TERMINATOR))
  {
    hide Trouble;
  }

  lemma {:induction false} ChunkStep(s: System, e: Event)
    requires Enabled(s, e) && e.Replied? && e.reply.Chunk? && e.reply.bytes != []
    ensures var s' := Step(s, e);
            && s'.accepted == s.accepted && s'.w.bufferedBody == s.w.bufferedBody
            && (s'.fate.Open? ==>
                  s'.out == if s.w.chunked then Writing(EncodeChunk(e.reply.bytes))
                            else Writing(e.reply.bytes[..Min(|e.reply.bytes|, s.w.remaining)]))
  {
    hide Trouble, EncodeChunk;
  }

  /** A reply that leaves the response open queues the chunk, or a chunked body's terminator. */
  lemma {:induction false} ReplyStep(s: System, e: Event)
    requires Enabled(s, e) && e.Replied?
    ensures var s' := Step(s, e);
            && s'.accepted == s.accepted && s'.head == s.head && s'.body == s.body
            && s'.w.bufferedBody == s.w.bufferedBody
            && (s'.fate.Open? ==>
                  s'.out == if !e.reply.Chunk? || e.reply.bytes == [] then Writing(TERMINATOR)
                            else if s.w.chunked then Writing(EncodeChunk(e.reply.bytes))
                            else Writing(e.reply.bytes[..Min(|e.reply.bytes|, s.w.remaining)]))
            && (s'.fate.Open? && (!e.reply.Chunk? || e.reply.bytes == []) ==> s.w.chunked)
  {
    hide Step, EncodeChunk;
    StepKeepsGiven(s, e);
    if !e.reply.Chunk? || e.reply.bytes == [] {
      EndStep(s, e);
    } else {
      ChunkStep(s, e);
    }
  }

  lemma {:induction false} PartLoad(config: Config, c: Charging, e: Event)
    requires Kept(config, c) && Enabled(c.s, e) && e.Wrote? && 0 < e.written < |c.s.out.bytes| && config.metered
    ensures LoadKept(config, ChargeStep(config, c, e))
  {
    PartStep(c.s, e);
    hide Inv, EncodeChunk, Step;
    var c' := ChargeStep(config, c, e);
    if c.load.Frame? {
      assert EncodeChunk(c.load.data)[Gone(c)..][e.written..] == EncodeChunk(c.load.data)[Gone(c')..];
    }
  }

  lemma {:induction false} PartKeeps(config: Config, c: Charging, e: Event)
    requires Kept(config, c) && Enabled(c.s, e) && e.Wrote? && 0 < e.written < |c.s.out.bytes|
    ensures Kept(config, ChargeStep(config, c, e))
  {
    StepKeepsInv(c.s, e);
    PartStep(c.s, e);
    if config.metered {
      PartLoad(config, c, e);
    }
    hide Inv, LoadKept, Step;
  }

  lemma {:induction false} WholeLoad(config: Config, c: Charging, e: Event)
    requires Kept(config, c) && Enabled(c.s, e) && e.Wrote? && 0 < e.written == |c.s.out.bytes|
    requires Step(c.s, e).fate.Open? && config.metered
    ensures LoadKept(config, ChargeStep(config, c, e))
  {
    WholeStep(c.s, e);
    if c.load.Frame? {
      FrameLength(c.load.data);
    }
    assert WriterInv(c.s);
    hide Inv, EncodeChunk, Step;
  }

  /** When a write is whole everything queued before it is on the wire, the head first of all. */
  lemma {:induction false} WholeHead(c: Charging, e: Event)
    requires Inv(c.s) && HeadGone(c) && Enabled(c.s, e) && e.Wrote? && 0 < e.written == |c.s.out.bytes|
    ensures |c.s.head| <= |c.s.accepted| + |c.s.out.bytes|
  {
    hide Step, EncodeChunks, Concat;
    var body := if c.s.w.bufferedBody.Some? then c.s.w.bufferedBody.value else [];
    assert |c.s.accepted| + |c.s.out.bytes| + |body| == |c.s.head| + |FramedBody(c.s.body, c.s.chunks, c.s.ended)|;
  }

  lemma {:induction false} WholeKeeps(config: Config, c: Charging, e: Event)
    requires Kept(config, c) && Enabled(c.s, e) && e.Wrote? && 0 < e.written == |c.s.out.bytes|
    ensures Kept(config, ChargeStep(config, c, e))
  {
    StepKeepsInv(c.s, e);
    if Step(c.s, e).fate.Open? {
      WholeStep(c.s, e);
      WholeHead(c, e);
      if config.metered {
        WholeLoad(config, c, e);
      }
    }
    hide Inv, LoadKept, Step;
  }

  lemma {:induction false} ReplyLoad(config: Config, c: Charging, e: Event)
    requires Kept(config, c) && Enabled(c.s, e) && e.Replied? && Step(c.s, e).fate.Open? && config.metered
    ensures LoadKept(config, ChargeStep(config, c, e))
  {
    ReplyStep(c.s, e);
    assert WriterInv(c.s);
    hide Inv, EncodeChunk, Step;
  }

  lemma {:induction false} ReplyKeeps(config: Config, c: Charging, e: Event)
    requires Kept(config, c) && Enabled(c.s, e) && e.Replied?
    ensures Kept(config, ChargeStep(config, c, e))
  {
    StepKeepsInv(c.s, e);
    if Step(c.s, e).fate.Open? {
      ReplyStep(c.s, e);
      if config.metered {
        ReplyLoad(config, c, e);
      }
    }
    hide Inv, LoadKept, Step, EncodeChunk;
  }

  lemma {:induction false} ChargeKeeps(config: Config, c: Charging, e: Event)
    requires Kept(config, c) && Enabled(c.s, e)
    ensures Kept(config, ChargeStep(config, c, e))
  {
    if e.Replied? {
      ReplyKeeps(config, c, e);
    } else if e.WriteFailed? || e.written == 0 {
      StepKeepsInv(c.s, e);
      StalledStep(c.s, e);
      hide Inv, Step;
    } else if e.written < |c.s.out.bytes| {
      PartKeeps(config, c, e);
    } else {
      WholeKeeps(config, c, e);
    }
  }

  // --- Theorems ---------------------------------------------------------------------------

  function ChargeRun(config: Config, head: seq<Byte>, body: Body, willClose: bool, events: seq<Event>): (c: Charging)
    ensures Kept(config, c) && c.s == RunOf(config, head, body, willClose, events)
    decreases |events|
  {
    hide Kept, Inv, Step, Enabled;
    if events == [] then
      StartKept(config, head, body, willClose);
      Charging(Start(config, head, body, willClose), 0, Plain)
    else
      var last := |events| - 1;
      var c := ChargeRun(config, head, body, willClose, events[..last]);
      if !Enabled(c.s, events[last]) then c
      else
        ChargeKeeps(config, c, events[last]);
        ChargeStep(config, c, events[last])
  }

  /**
    A metered buffered or known-length response owes, at every moment until it ends, exactly the
    body bytes that were queued and that the wire has not accepted: nothing while the head goes
    out, then all that is missing.
   */
  lemma {:induction false} ChargeIsWhatIsMissing(
    config: Config, head: seq<Byte>, body: Body, willClose: bool, events: seq<Event>)
    requires config.metered && !body.ChunkedStream? && head != []
    ensures var c := ChargeRun(config, head, body, willClose, events);
            var framed := head + FramedBody(body, c.s.chunks, c.s.ended);
            && c.s == RunOf(config, head, body, willClose, events)
            && c.charge == if !c.s.fate.Open? || |c.s.accepted| < |head| then 0 else |framed| - |c.s.accepted|
  {
    hide ChargeRun, RunOf, FramedBody;
    var c := ChargeRun(config, head, body, willClose, events);
    if c.s.fate.Open? {
      assert |c.s.accepted| + |Queued(c.s)| == |head| + |FramedBody(body, c.s.chunks, c.s.ended)|;
    }
  }

  /** The data bytes of a chunk that the wire has not accepted, of a frame whose first `gone` bytes went. */
  function DataLeft(data: seq<Byte>, gone: nat): nat {
    Min(|data|, SaturatingSub(|Hex(|data|)| + 2 + |data|, gone))
  }

  /**
    A chunked response owes less than what is missing while a frame is part way: the size line
    gives charge back as if it were data.  The shortfall is exactly the least of the bytes gone,
    the size line, the data, and what is missing; it is nothing exactly when the frame has not
    begun or its data is all on the wire.
   */
  lemma {:induction false} FrameShortfall(config: Config, head: seq<Byte>, willClose: bool, events: seq<Event>)
    requires config.metered
    ensures var c := ChargeRun(config, head, ChunkedStream, willClose, events);
            if !c.s.fate.Open? || !c.load.Frame? then c.charge == 0
            else
              var n, line := |c.load.data|, |Hex(|c.load.data|)| + 2;
              && c.s.out.Writing? && |c.s.out.bytes| <= |EncodeChunk(c.load.data)|
              && var gone := Gone(c);
              var missing := DataLeft(c.load.data, gone);
              && c.s.out.bytes == EncodeChunk(c.load.data)[gone..]
              && missing - c.charge == Min(Min(gone, line), Min(n, missing)) >= 0
              && (c.charge == missing <==> gone == 0 || gone >= line + n)
  {
    hide ChargeRun, Inv;
    var c := ChargeRun(config, head, ChunkedStream, willClose, events);
    if c.s.fate.Open? && c.load.Frame? {
      FrameLength(c.load.data);
      hide EncodeChunk;
    }
  }

  const PARTWAY: seq<Event> := [Wrote(1, true), Replied(Chunk([7, 8, 9]), true), Wrote(3, true)]

  /** Three data bytes, of which the wire took the size line only: nothing is owed any more. */
  lemma {:induction false} SizeLineReleasesData()
    ensures var c := ChargeRun(Config(true, false), [72], ChunkedStream, false, PARTWAY);
            c.s.fate.Open? && c.s.out == Writing([7, 8, 9, CR, LF]) && c.charge == 0
  {
    hide Inv, Kept, Trouble;
    var config := Config(true, false);
    var e1, e2, e3 := PARTWAY[0], PARTWAY[1], PARTWAY[2];
    assert PARTWAY[..2] == [e1, e2] && [e1, e2][..1] == [e1] && [e1][..0] == [];
    var c0 := ChargeRun(config, [72], ChunkedStream, false, []);
    assert c0.s.out == Writing([72]);
    var c1 := ChargeStep(config, c0, e1);
    assert c1.s.out == Pulling && c1.charge == 0 && c1.s.fate.Open? && c1.s.w.chunked;
    assert ChargeRun(config, [72], ChunkedStream, false, [e1]) == c1;
    var c2 := ChargeStep(config, c1, e2);
    ThreeBytes();
    assert c2.s.out == Writing([51, CR, LF, 7, 8, 9, CR, LF]) && c2.charge == 3;
    assert ChargeRun(config, [72], ChunkedStream, false, [e1, e2]) == c2;
    assert c2.s.out.bytes[3..] == [7, 8, 9, CR, LF];
  }

  lemma {:induction false} ThreeBytes()
    ensures EncodeChunk([7, 8, 9]) == [51, CR, LF, 7, 8, 9, CR, LF]
  {
    assert Hex(3) == [51];
  }
}
