/**
  Writing one response: the head, then a buffered, known-length or chunked body, over a wire
  that accepts any part of what it is given.
 */
module ResponseWire {
  import opened Bytes
  import opened ChunkedEncoding
  import ChunkedSpec

  const COALESCE_LIMIT: nat := 4096

  datatype Body = Buffered(bytes: seq<Byte>) | Stream(contentLength: nat) | ChunkedStream

  /** `metered` is whether the connection charges bodies; `tcp` whether writes can also close. */
  datatype Config = Config(metered: bool, tcp: bool)

  datatype Writer = Writer(
    pending: seq<Byte>,
    bufferedBody: Option<seq<Byte>>,
    source: bool,
    remaining: nat,
    chunked: bool,
    willClose: bool)

  /** `Finish` hands over to `finish_response`, which closes or reuses the connection. */
  datatype Action = Write(bytes: seq<Byte>) | WriteClose(bytes: seq<Byte>) | Pull | Finish | Close

  datatype SourceReply = Chunk(bytes: seq<Byte>) | Eof | SourceFailed

  function WritePending(w: Writer): (Writer, Action) {
    (w.(pending := []), Write(w.pending))
  }

  /** `start_writing`. */
  function StartWriting(config: Config, head: seq<Byte>, body: Body, willClose: bool): (r: (Writer, Action)) {
    var w := Writer(head, None, false, 0, false, willClose);
    match body
    case Buffered(bytes) =>
      var coalesced := !config.metered && |bytes| <= COALESCE_LIMIT;
      var w1 := if coalesced then w.(pending := head + bytes)
                else if bytes != [] then w.(bufferedBody := Some(bytes))
                else w;
      if willClose && config.tcp && w1.bufferedBody.None? then (w1.(pending := []), WriteClose(w1.pending))
      else WritePending(w1)
    case Stream(n) => WritePending(w.(source := true, remaining := n))
    case ChunkedStream => WritePending(w.(source := true, chunked := true))
  }

  predicate ShouldPull(w: Writer) {
    w.source && (w.chunked || w.remaining > 0)
  }

  /** `handle_wrote`; `admitted` is the charge of a promoted body. */
  function HandleWrote(w: Writer, bytes: seq<Byte>, written: nat, admitted: bool): (r: (Writer, Action)) {
    if written == 0 then (w.(pending := bytes), Close)
    else if written < |bytes| then WritePending(w.(pending := bytes[written..]))
    else if w.bufferedBody.Some? then
      var w1 := w.(bufferedBody := None);
      if !admitted then (w1.(pending := []), Close) else WritePending(w1.(pending := w.bufferedBody.value))
    else if ShouldPull(w) then (w, Pull)
    else (w.(source := false, chunked := false), Finish)
  }

  /** `handle_wrote_close`: everything ends in a close, the rest of the bytes first. */
  function HandleWroteClose(w: Writer, bytes: seq<Byte>, written: nat): (r: (Writer, Action)) {
    if written == 0 then (w.(pending := bytes), Close)
    else if written >= |bytes| then (w, Close)
    else (w.(pending := []), WriteClose(bytes[written..]))
  }

  /** `finish_stream_eof`. */
  function FinishStreamEof(w: Writer): (r: (Writer, Action)) {
    var w1 := w.(source := false);
    if w.chunked then WritePending(w1.(chunked := false, pending := TERMINATOR))
    else (w1.(willClose := w.willClose || w.remaining > 0), Finish)
  }

  function Refused(w: Writer): (Writer, Action) {
    (w.(pending := [], source := false, chunked := false), Close)
  }

  /** `handle_stream_chunk`, with the writers for the two framings. */
  function HandleStreamChunk(w: Writer, reply: SourceReply, admitted: bool): (r: (Writer, Action)) {
    match reply
    case SourceFailed => (w.(source := false, chunked := false), Close)
    case Eof => FinishStreamEof(w)
    case Chunk(bytes) =>
      if bytes == [] then FinishStreamEof(w)
      else if w.chunked then
        if !admitted then Refused(w) else WritePending(w.(pending := EncodeChunk(bytes)))
      else
        var kept := bytes[..Min(|bytes|, w.remaining)];
        var w1 := w.(remaining := w.remaining - |kept|);
        if !admitted then Refused(w1) else WritePending(w1.(pending := kept))
  }

  // --- Runs -------------------------------------------------------------------------------

  datatype Outstanding = Nothing | Writing(bytes: seq<Byte>) | WritingClose(bytes: seq<Byte>) | Pulling

  /** Open while the response is on its way; then the connection is reused or closed. */
  datatype Fate = Open | Reused | Closed

  /**
    The writer, its one outstanding call, the bytes the wire accepted, the non-empty chunks the
    source gave, whether a chunked body was ended, and whether anything went wrong.
   */
  datatype System = System(
    head: seq<Byte>,
    body: Body,
    willClose: bool,
    w: Writer,
    out: Outstanding,
    accepted: seq<Byte>,
    chunks: seq<seq<Byte>>,
    ended: bool,
    trouble: bool,
    fate: Fate)

  function Apply(s: System, r: (Writer, Action)): System {
    var s1 := s.(w := r.0, out := Nothing);
    match r.1
    case Write(bytes) => s1.(out := Writing(bytes))
    case WriteClose(bytes) => s1.(out := WritingClose(bytes))
    case Pull => s1.(out := Pulling)
    case Finish => s1.(fate := if r.0.willClose then Closed else Reused)
    case Close => s1.(fate := Closed)
  }

  function Start(config: Config, head: seq<Byte>, body: Body, willClose: bool): System {
    var r := StartWriting(config, head, body, willClose);
    Apply(System(head, body, willClose, r.0, Nothing, [], [], false, false, Open), r)
  }

  datatype Event =
    | Wrote(written: nat, admitted: bool)
    | Replied(reply: SourceReply, admitted: bool)
    | WriteFailed

  predicate Enabled(s: System, e: Event) {
    && s.fate.Open?
    && match e {
         case Wrote(written, _) => (s.out.Writing? || s.out.WritingClose?) && written <= |s.out.bytes|
         case Replied(_, _) => s.out.Pulling?
         case WriteFailed => s.out.Writing? || s.out.WritingClose?
       }
  }

  /** A failed or stalled write, a refused charge, or a source that fails or ends short. */
  predicate Trouble(s: System, e: Event)
    requires Enabled(s, e)
  {
    match e
    case WriteFailed => true
    case Wrote(written, admitted) =>
      written == 0 || (written == |s.out.bytes| && s.w.bufferedBody.Some? && !admitted)
    case Replied(SourceFailed, _) => true
    case Replied(Chunk(bytes), admitted) =>
      if bytes != [] then !admitted else s.body.Stream? && |Concat(s.chunks)| < s.body.contentLength
    case Replied(Eof, _) => s.body.Stream? && |Concat(s.chunks)| < s.body.contentLength
  }

  function Step(s: System, e: Event): System
    requires Enabled(s, e)
  {
    StepFrom(s.(trouble := s.trouble || Trouble(s, e)), e)
  }

  function StepFrom(s: System, e: Event): System
    requires Enabled(s, e)
  {
    match e
    case Wrote(written, admitted) =>
      var bytes := s.out.bytes;
      var s1 := s.(accepted := s.accepted + bytes[..written]);
      if s.out.Writing? then Apply(s1, HandleWrote(s.w, bytes, written, admitted))
      else Apply(s1, HandleWroteClose(s.w, bytes, written))
    case Replied(reply, admitted) =>
      var s1 := if reply.Chunk? && reply.bytes != [] then s.(chunks := s.chunks + [reply.bytes])
                else s.(ended := s.w.chunked && !reply.SourceFailed?);
      Apply(s1, HandleStreamChunk(s.w, reply, admitted))
    case WriteFailed => s.(fate := Closed, out := Nothing)
  }

  // --- What the wire must carry -----------------------------------------------------------

  /** The framed body the source's chunks stand for so far. */
  function FramedBody(body: Body, chunks: seq<seq<Byte>>, ended: bool): seq<Byte> {
    match body
    case Buffered(bytes) => bytes
    case Stream(n) => Concat(chunks)[..Min(n, |Concat(chunks)|)]
    case ChunkedStream => EncodeChunks(chunks) + if ended then TERMINATOR else []
  }

  function Expected(s: System): seq<Byte> {
    s.head + FramedBody(s.body, s.chunks, s.ended)
  }

  /** The body is all there: its declared length, or its terminator. */
  predicate BodyWhole(s: System) {
    match s.body
    case Buffered(_) => true
    case Stream(n) => |Concat(s.chunks)| >= n
    case ChunkedStream => s.ended
  }

  function InWrite(out: Outstanding): seq<Byte> {
    if out.Writing? || out.WritingClose? then out.bytes else []
  }

  function Queued(s: System): seq<Byte> {
    InWrite(s.out) + if s.w.bufferedBody.Some? then s.w.bufferedBody.value else []
  }

  /** The writer's flags follow the body it was given. */
  ghost predicate WriterInv(s: System) {
    var w := s.w;
    && !s.out.Nothing? && NonEmpty(s.chunks)
    && (s.out.Pulling? ==> ShouldPull(w) && w.bufferedBody.None?)
    && (s.out.WritingClose? ==> w.willClose && w.bufferedBody.None? && s.body.Buffered?)
    && match s.body {
         case Buffered(_) => !w.source && !w.chunked
         case Stream(n) =>
           w.source && !w.chunked && w.bufferedBody.None? && w.remaining == n - Min(n, |Concat(s.chunks)|)
         case ChunkedStream => w.bufferedBody.None? && w.chunked == w.source == !s.ended
       }
  }

  ghost predicate Inv(s: System) {
    && s.accepted <= Expected(s) && NonEmpty(s.chunks)
    && (s.fate.Open? ==> WriterInv(s) && s.accepted + Queued(s) == Expected(s) && s.w.willClose == s.willClose)
    && (s.fate.Open? || s.fate.Reused? ==> !s.trouble)
    && (!s.fate.Open? && !s.trouble ==>
          s.accepted == Expected(s) && BodyWhole(s) && (s.fate.Reused? <==> !s.willClose))
  }

  lemma {:induction false} StartInv(config: Config, head: seq<Byte>, body: Body, willClose: bool)
    ensures Inv(Start(config, head, body, willClose))
  {
    var s := Start(config, head, body, willClose);
    assert EncodeChunks([]) + [] == [] && Concat<Byte>([]) == [];
    assert head + [] == head;
    assert s.accepted + Queued(s) == Expected(s);
  }

  /** The bytes accepted and the rest of the write, with what waits behind it. */
  lemma {:induction false} AcceptedMoves(accepted: seq<Byte>, bytes: seq<Byte>, body: seq<Byte>, n: nat)
    requires n <= |bytes|
    ensures accepted + (bytes + body) == accepted + bytes[..n] + (bytes[n..] + body)
    ensures n == |bytes| ==> bytes[n..] + body == body
    ensures accepted + bytes[..n] <= accepted + (bytes + body)
  {
    assert bytes == bytes[..n] + bytes[n..];
  }

  lemma {:induction false} PartWriteKeeps(s: System, e: Event)
    requires Inv(s) && Enabled(s, e) && e.Wrote? && e.written < |s.out.bytes|
    ensures Inv(Step(s, e))
  {
    hide Concat, EncodeChunks, FramedBody;
    var body := if s.w.bufferedBody.Some? then s.w.bufferedBody.value else [];
    AcceptedMoves(s.accepted, s.out.bytes, body, e.written);
  }

  lemma {:induction false} WholeWriteKeeps(s: System, e: Event)
    requires Inv(s) && Enabled(s, e) && e.Wrote? && e.written == |s.out.bytes|
    ensures Inv(Step(s, e))
  {
    hide Concat, EncodeChunks, FramedBody;
    var body := if s.w.bufferedBody.Some? then s.w.bufferedBody.value else [];
    AcceptedMoves(s.accepted, s.out.bytes, body, e.written);
    assert s.out.bytes[..e.written] == s.out.bytes;
    assert s.accepted + s.out.bytes + [] == s.accepted + s.out.bytes;
  }

  lemma {:induction false} WriteFailedKeeps(s: System)
    requires Inv(s) && Enabled(s, WriteFailed)
    ensures Inv(Step(s, WriteFailed))
  {
    hide Concat, EncodeChunks, FramedBody;
  }

  /** What a chunk from the source adds to the framed body. */
  lemma {:induction false} FramedGrows(s: System, bytes: seq<Byte>)
    requires Inv(s) && s.fate.Open? && s.out.Pulling? && bytes != []
    ensures FramedBody(s.body, s.chunks + [bytes], s.ended)
         == FramedBody(s.body, s.chunks, s.ended)
            + (if s.w.chunked then EncodeChunk(bytes) else bytes[..Min(|bytes|, s.w.remaining)])
    ensures |Concat(s.chunks + [bytes])| == |Concat(s.chunks)| + |bytes|
    ensures s.body.Stream? ==> |Concat(s.chunks)| < s.body.contentLength
  {
    hide Concat, EncodeChunks, EncodeChunk;
    ConcatSnoc(s.chunks, bytes);
    EncodeChunksSnoc(s.chunks, bytes);
    if s.body.Stream? {
      var n, was := s.body.contentLength, Concat(s.chunks);
      var kept := bytes[..Min(|bytes|, s.w.remaining)];
      assert was[..Min(n, |was|)] == was;
      assert (was + bytes)[..Min(n, |was + bytes|)] == was + kept;
    } else {
      assert EncodeChunks(s.chunks) + EncodeChunk(bytes) + [] == EncodeChunks(s.chunks) + [] + EncodeChunk(bytes);
    }
  }

  lemma {:induction false} ChunkRefusedKeeps(s: System, bytes: seq<Byte>)
    requires Inv(s) && Enabled(s, Replied(Chunk(bytes), false)) && bytes != []
    ensures Inv(Step(s, Replied(Chunk(bytes), false)))
  {
    hide Concat, EncodeChunks, EncodeChunk, FramedBody;
    FramedGrows(s, bytes);
    var more := if s.w.chunked then EncodeChunk(bytes) else bytes[..Min(|bytes|, s.w.remaining)];
    assert s.head + (FramedBody(s.body, s.chunks, s.ended) + more) == Expected(s) + more;
  }

  lemma {:induction false} ChunkQueued(s: System, bytes: seq<Byte>)
    requires Enabled(s, Replied(Chunk(bytes), true)) && bytes != [] && (s.w.chunked || 0 < s.w.remaining)
    ensures var kept := Min(|bytes|, s.w.remaining);
            Step(s, Replied(Chunk(bytes), true))
            == s.(chunks := s.chunks + [bytes],
                  out := Writing(if s.w.chunked then EncodeChunk(bytes) else bytes[..kept]),
                  w := s.w.(pending := [], remaining := if s.w.chunked then s.w.remaining else s.w.remaining - kept))
  {
    hide EncodeChunk, Concat;
  }

  lemma {:induction false} ChunkWriter(s: System, bytes: seq<Byte>)
    requires Inv(s) && Enabled(s, Replied(Chunk(bytes), true)) && bytes != []
    ensures WriterInv(Step(s, Replied(Chunk(bytes), true)))
  {
    ChunkQueued(s, bytes);
    ConcatSnoc(s.chunks, bytes);
    hide Concat, EncodeChunk, FramedBody, Step, Expected, Queued;
  }

  lemma {:induction false} MoreIsQueued(accepted: seq<Byte>, head: seq<Byte>, body: seq<Byte>, more: seq<Byte>)
    requires accepted + [] == head + body
    ensures accepted + more == head + (body + more) && accepted <= head + (body + more)
  {
    assert accepted == head + body;
    assert head + body + more == head + (body + more);
  }

  lemma {:induction false} QueuedIs(s: System)
    requires s.w.bufferedBody.None?
    ensures Queued(s) == InWrite(s.out)
  {
    assert InWrite(s.out) + [] == InWrite(s.out);
  }

  lemma {:induction false} ChunkAccounts(s: System, bytes: seq<Byte>)
    requires Inv(s) && Enabled(s, Replied(Chunk(bytes), true)) && bytes != []
    ensures var s' := Step(s, Replied(Chunk(bytes), true));
            s'.accepted + Queued(s') == Expected(s') && s'.accepted <= Expected(s')
  {
    FramedGrows(s, bytes);
    ChunkQueued(s, bytes);
    QueuedIs(s);
    QueuedIs(Step(s, Replied(Chunk(bytes), true)));
    hide Concat, EncodeChunk, FramedBody, Step, Queued, NonEmpty;
    var more := if s.w.chunked then EncodeChunk(bytes) else bytes[..Min(|bytes|, s.w.remaining)];
    MoreIsQueued(s.accepted, s.head, FramedBody(s.body, s.chunks, s.ended), more);
  }

  lemma {:induction false} ChunkKeeps(s: System, bytes: seq<Byte>)
    requires Inv(s) && Enabled(s, Replied(Chunk(bytes), true)) && bytes != []
    ensures Inv(Step(s, Replied(Chunk(bytes), true)))
  {
    ChunkWriter(s, bytes);
    ChunkAccounts(s, bytes);
    assert s.w.chunked || 0 < s.w.remaining;
    ChunkQueued(s, bytes);
    hide Concat, EncodeChunk, FramedBody, Step, Expected, Queued;
  }

  lemma {:induction false} SourceFailedKeeps(s: System, admitted: bool)
    requires Inv(s) && Enabled(s, Replied(SourceFailed, admitted))
    ensures Inv(Step(s, Replied(SourceFailed, admitted)))
  {
    hide Concat, EncodeChunks;
    assert s.body.ChunkedStream? ==> !s.ended;
  }

  lemma {:induction false} EndKeeps(s: System, reply: SourceReply, admitted: bool)
    requires Inv(s) && Enabled(s, Replied(reply, admitted)) && (reply.Eof? || reply == Chunk([]))
    ensures Inv(Step(s, Replied(reply, admitted)))
  {
    hide Concat, EncodeChunks;
    assert Queued(s) == [] && s.accepted + [] == s.accepted;
    if s.w.chunked {
      assert s.body.ChunkedStream? && !s.ended;
      assert s.head + (EncodeChunks(s.chunks) + []) + TERMINATOR == s.head + (EncodeChunks(s.chunks) + TERMINATOR);
    } else {
      assert s.body.Stream?;
    }
  }

  // --- Theorem ----------------------------------------------------------------------------

  function RunOf(config: Config, head: seq<Byte>, body: Body, willClose: bool, events: seq<Event>): (s: System)
    ensures Inv(s) && s.head == head && s.body == body && s.willClose == willClose
    decreases |events|
  {
    if events == [] then
      StartInv(config, head, body, willClose);
      Start(config, head, body, willClose)
    else
      var last := |events| - 1;
      var s := RunOf(config, head, body, willClose, events[..last]);
      var e := events[last];
      if !Enabled(s, e) then s
      else
        StepKeepsInv(s, e);
        StepKeepsGiven(s, e);
        Step(s, e)
  }

  lemma {:induction false} ApplyKeepsGiven(s: System, r: (Writer, Action))
    ensures var s' := Apply(s, r); s'.head == s.head && s'.body == s.body && s'.willClose == s.willClose
  {
  }

  lemma {:induction false} StepKeepsGiven(s: System, e: Event)
    requires Enabled(s, e)
    ensures var s' := Step(s, e); s'.head == s.head && s'.body == s.body && s'.willClose == s.willClose
  {
    hide Trouble, HandleWrote, HandleWroteClose, HandleStreamChunk, Apply;
    var s1 := s.(trouble := s.trouble || Trouble(s, e));
    match e
    case Wrote(written, admitted) =>
      var bytes := s.out.bytes;
      var s2 := s1.(accepted := s.accepted + bytes[..written]);
      ApplyKeepsGiven(s2, HandleWrote(s.w, bytes, written, admitted));
      ApplyKeepsGiven(s2, HandleWroteClose(s.w, bytes, written));
    case Replied(reply, admitted) =>
      ApplyKeepsGiven(s1.(chunks := s.chunks + if reply.Chunk? then [reply.bytes] else []), HandleStreamChunk(s.w, reply, admitted));
      ApplyKeepsGiven(s1.(ended := s.w.chunked && !reply.SourceFailed?), HandleStreamChunk(s.w, reply, admitted));
    case WriteFailed =>
  }

  lemma {:induction false} StepKeepsInv(s: System, e: Event)
    requires Inv(s) && Enabled(s, e)
    ensures Inv(Step(s, e))
  {
    hide Inv, Step;
    match e
    case WriteFailed => WriteFailedKeeps(s);
    case Wrote(written, _) =>
      if written < |s.out.bytes| {
        PartWriteKeeps(s, e);
      } else {
        WholeWriteKeeps(s, e);
      }
    case Replied(SourceFailed, admitted) => SourceFailedKeeps(s, admitted);
    case Replied(Chunk(bytes), admitted) =>
      if bytes != [] && admitted {
        ChunkKeeps(s, bytes);
      } else if bytes != [] {
        ChunkRefusedKeeps(s, bytes);
      } else {
        EndKeeps(s, e.reply, admitted);
      }
    case Replied(Eof, admitted) => EndKeeps(s, Eof, admitted);
  }

  /**
    Over every sequence of partial writes and source replies: what the wire accepted, then what
    is queued, are the head and the framed body, byte for byte; unless something goes wrong the
    response ends complete, and the connection is reused exactly when it was not to close.
    A known-length body then has its declared length, and a client decodes a chunked one back to
    the source's data, whatever follows it on the wire.
   */
  lemma {:induction false} WireCarriesTheResponse(
    config: Config, head: seq<Byte>, body: Body, willClose: bool, events: seq<Event>, maxBody: nat, after: seq<Byte>)
    requires maxBody <= USIZE_MAX
    ensures var s := RunOf(config, head, body, willClose, events);
            var framed := head + FramedBody(body, s.chunks, s.ended);
            && s.accepted <= framed
            && (s.fate.Open? ==> s.accepted + Queued(s) == framed && !s.trouble)
            && (s.fate.Reused? <==> !s.fate.Open? && !s.trouble && !willClose)
            && (!s.fate.Open? && !s.trouble ==>
                  && s.accepted == framed
                  && (body.Stream? ==> |s.accepted| == |head| + body.contentLength)
                  && (body.ChunkedStream? && |Concat(s.chunks)| <= maxBody ==>
                        var r := ChunkedSpec.FeedAll(ChunkedSpec.New(maxBody), s.accepted[|head|..] + after);
                        && r.result.Complete? && r.out == Concat(s.chunks)
                        && r.consumed == |s.accepted| - |head|))
  {
    hide RunOf, ChunkedSpec.FeedAll;
    var s := RunOf(config, head, body, willClose, events);
    if !s.fate.Open? && !s.trouble {
      assert s.accepted[|head|..] == FramedBody(body, s.chunks, s.ended);
      if body.ChunkedStream? && |Concat(s.chunks)| <= maxBody {
        RoundTrip(maxBody, s.chunks, after);
      }
    }
  }

  // --- How it is written ------------------------------------------------------------------

  /** A buffered body that goes with its head: nothing at all, or up to 4096 unmetered bytes. */
  predicate GoesWithHead(config: Config, body: Body) {
    body.Buffered? && (body.bytes == [] || (!config.metered && |body.bytes| <= 4096))
  }

  /** The first write is the head, with the body exactly when they go together. */
  lemma {:induction false} FirstWrite(config: Config, head: seq<Byte>, body: Body, willClose: bool)
    ensures var s := Start(config, head, body, willClose);
            var bytes := if GoesWithHead(config, body) then head + body.bytes else head;
            s.out == if GoesWithHead(config, body) && config.tcp && willClose then WritingClose(bytes) else Writing(bytes)
  {
    assert head + [] == head;
  }

  lemma {:induction false} StepCloses(s: System, e: Event)
    requires Inv(s) && Enabled(s, e) && Step(s, e).fate.Open?
    ensures Step(s, e).out.WritingClose? <==> s.out.WritingClose?
  {
    hide Trouble, EncodeChunk, Concat, FramedBody, EncodeChunks;
  }

  /** Over every run a write also closes the transport exactly when it carries the whole response. */
  lemma {:induction false} ClosesWithTheWrite(
    config: Config, head: seq<Byte>, body: Body, willClose: bool, events: seq<Event>)
    ensures var s := RunOf(config, head, body, willClose, events);
            s.fate.Open? ==> (s.out.WritingClose? <==> GoesWithHead(config, body) && config.tcp && willClose)
    decreases |events|
  {
    hide Inv, Step, Start;
    if events == [] {
      FirstWrite(config, head, body, willClose);
    } else {
      var last := |events| - 1;
      ClosesWithTheWrite(config, head, body, willClose, events[..last]);
      var s := RunOf(config, head, body, willClose, events[..last]);
      if Enabled(s, events[last]) && Step(s, events[last]).fate.Open? {
        StepCloses(s, events[last]);
      }
    }
  }

  // --- The connection's fields ------------------------------------------------------------

  class ResponseWriter {
    const config: Config
    var pendingResponse: seq<Byte>
    var pendingBufferedBody: Option<seq<Byte>>
    var streamSource: bool
    var streamBytesRemaining: nat
    var streamChunked: bool
    var willClose: bool

    function State(): Writer
      reads this
    {
      Writer(pendingResponse, pendingBufferedBody, streamSource, streamBytesRemaining, streamChunked, willClose)
    }

    /** The fields between two responses, with the close intent of the request. */
    constructor (config: Config, willClose: bool)
      ensures State() == Writer([], None, false, 0, false, willClose) && this.config == config
    {
      this.config, this.willClose := config, willClose;
      pendingResponse, pendingBufferedBody := [], None;
      streamSource, streamBytesRemaining, streamChunked := false, 0, false;
    }

    method WritePendingBytes() returns (action: Action)
      modifies this`pendingResponse
      ensures (State(), action) == WritePending(old(State()))
    {
      action := Write(pendingResponse);
      pendingResponse := [];
    }

    method Begin(head: seq<Byte>, body: Body) returns (action: Action)
      requires pendingBufferedBody.None? && !streamSource && streamBytesRemaining == 0 && !streamChunked
      modifies this
      ensures (State(), action) == StartWriting(config, head, body, old(willClose))
    {
      pendingResponse := head;
      match body
      case Buffered(bytes) =>
        if !config.metered && |bytes| <= COALESCE_LIMIT {
          pendingResponse := pendingResponse + bytes;
        } else if bytes != [] {
          pendingBufferedBody := Some(bytes);
        }
        if willClose && config.tcp && pendingBufferedBody.None? {
          action := WriteClose(pendingResponse);
          pendingResponse := [];
        } else {
          action := WritePendingBytes();
        }
      case Stream(n) =>
        streamSource, streamBytesRemaining := true, n;
        action := WritePendingBytes();
      case ChunkedStream =>
        streamSource, streamChunked := true, true;
        action := WritePendingBytes();
    }

    method Wrote(bytes: seq<Byte>, written: nat, admitted: bool) returns (action: Action)
      modifies this
      ensures (State(), action) == HandleWrote(old(State()), bytes, written, admitted)
    {
      if written == 0 {
        pendingResponse := bytes;
        return Close;
      }
      if written < |bytes| {
        pendingResponse := bytes[written..];
        action := WritePendingBytes();
        return;
      }
      if pendingBufferedBody.Some? {
        pendingResponse := pendingBufferedBody.value;
        pendingBufferedBody := None;
        if !admitted {
          pendingResponse := [];
          return Close;
        }
        action := WritePendingBytes();
        return;
      }
      if streamSource && (streamChunked || streamBytesRemaining > 0) {
        return Pull;
      }
      streamSource, streamChunked := false, false;
      return Finish;
    }

    method StreamEof() returns (action: Action)
      modifies this
      ensures (State(), action) == FinishStreamEof(old(State()))
    {
      streamSource := false;
      if streamChunked {
        streamChunked := false;
        pendingResponse := TERMINATOR;
        action := WritePendingBytes();
      } else {
        if streamBytesRemaining > 0 {
          willClose := true;
        }
        action := Finish;
      }
    }

    method StreamReply(reply: SourceReply, admitted: bool) returns (action: Action)
      modifies this
      ensures (State(), action) == HandleStreamChunk(old(State()), reply, admitted)
    {
      match reply
      case SourceFailed =>
        streamSource, streamChunked := false, false;
        action := Close;
      case Eof => action := StreamEof();
      case Chunk(bytes) =>
        if bytes == [] {
          action := StreamEof();
          return;
        }
        if streamChunked {
          pendingResponse := EncodeChunk(bytes);
        } else if |bytes| > streamBytesRemaining {
          pendingResponse := bytes[..streamBytesRemaining];
          streamBytesRemaining := 0;
        } else {
          assert bytes[..|bytes|] == bytes;
          streamBytesRemaining := streamBytesRemaining - |bytes|;
          pendingResponse := bytes;
        }
        if !admitted {
          pendingResponse, streamSource, streamChunked := [], false, false;
          return Close;
        }
        action := WritePendingBytes();
    }

    method WroteAndClosed(bytes: seq<Byte>, written: nat) returns (action: Action)
      modifies this
      ensures (State(), action) == HandleWroteClose(old(State()), bytes, written)
    {
      if written == 0 {
        pendingResponse := bytes;
        return Close;
      }
      if written >= |bytes| {
        return Close;
      }
      pendingResponse := bytes[written..];
      action := WriteClose(pendingResponse);
      pendingResponse := [];
    }

    /** One step of a run: the writer's turn, through its fields. */
    method Handle(s: System, e: Event) returns (s': System)
      requires State() == s.w && Enabled(s, e)
      modifies this
      ensures s' == Step(s, e) && State() == s'.w
    {
      hide Trouble, HandleWrote, HandleWroteClose, HandleStreamChunk, Apply;
      var s1 := s.(trouble := s.trouble || Trouble(s, e));
      var action;
      match e {
        case Wrote(written, admitted) =>
          s1 := s1.(accepted := s.accepted + s.out.bytes[..written]);
          if s.out.Writing? {
            action := Wrote(s.out.bytes, written, admitted);
          } else {
            action := WroteAndClosed(s.out.bytes, written);
          }
        case Replied(reply, admitted) =>
          s1 := if reply.Chunk? && reply.bytes != [] then s1.(chunks := s.chunks + [reply.bytes])
                else s1.(ended := s.w.chunked && !reply.SourceFailed?);
          action := StreamReply(reply, admitted);
        case WriteFailed => return s1.(fate := Closed, out := Nothing);
      }
      hide State;
      ApplyWriter(s1, (State(), action));
      s' := Apply(s1, (State(), action));
    }
  }

  lemma {:induction false} ApplyWriter(s: System, r: (Writer, Action))
    ensures Apply(s, r).w == r.0
  {
  }

  /** The writer driven through any list of events ends where the run ends. */
  method Drive(config: Config, head: seq<Byte>, body: Body, willClose: bool, events: seq<Event>)
    returns (c: ResponseWriter, s: System)
    ensures s == RunOf(config, head, body, willClose, events) && c.State() == s.w
  {
    hide Inv, Step, Enabled;
    c := new ResponseWriter(config, willClose);
    var action := c.Begin(head, body);
    s := Apply(System(head, body, willClose, c.State(), Nothing, [], [], false, false, Open), (c.State(), action));
    assert events[..0] == [];
    for i := 0 to |events|
      invariant fresh(c) && c.State() == s.w
      invariant s == RunOf(config, head, body, willClose, events[..i])
    {
      assert events[..i + 1][..i] == events[..i];
      if Enabled(s, events[i]) {
        s := c.Handle(s, events[i]);
      }
    }
    assert events[..|events|] == events;
  }
}
