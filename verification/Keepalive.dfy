/**
  The keepalive client connection, one handler turn at a time.  A turn is a function of the
  connection and one message; `None` means that an `expect` of the source fired.
 */
module Keepalive {
  import opened Bytes
  import opened ChunkedSpec
  import opened HttpHead

  const READ_CHUNK: nat := 4096

  type Stream = nat

  datatype InFlight = InFlight(
    generation: nat,
    request: nat,
    pendingWrite: seq<Byte>,
    readBuf: seq<Byte>,
    decodedBody: seq<Byte>,
    decoder: Option<Decoder>,
    rawConsumed: nat,
    head: Option<Head>,
    headLen: nat)

  datatype Connection = Connection(
    transport: Option<Stream>,
    inFlight: Option<InFlight>,
    connectBytes: Option<seq<Byte>>,
    generation: nat,
    idleSince: Option<nat>)

  /** Connect, write and read calls into the runtime; each completes once, in any order. */
  datatype Call =
    | Connect(generation: nat)
    | Write(stream: Stream, generation: nat, bytes: seq<Byte>)
    | Read(stream: Stream, generation: nat)

  datatype Error = Busy | Refused | ConnectFailed | WriteFailed | ReadFailed | PeerClosed | Timeout | Malformed

  datatype Answer = Response(body: seq<Byte>) | Failure(error: Error)

  datatype Reply = Reply(request: nat, answer: Answer, mustRetire: bool)

  /**
    The state a turn leaves and the effects it batches: at most one read, write or connect, the
    deadline timer of a new request, a fire-and-forget close, and one reply.
   */
  datatype Turn = Turn(
    conn: Connection,
    lane: Option<Call> := None,
    deadline: Option<nat> := None,
    close: Option<Stream> := None,
    reply: Option<Reply> := None)

  /** Head parser and body cap of the configuration. */
  datatype Config = Config(parse: Parser, maxBody: nat)

  predicate IsCurrent(c: Connection, generation: nat) {
    c.inFlight.Some? && c.inFlight.value.generation == generation
  }

  // --- Shared endings ---------------------------------------------------------------------

  /** `fail_request`, which every caller invokes with `must_retire`. */
  function FailRequest(c: Connection, error: Error): (t: Option<Turn>)
    requires c.inFlight.Some?
  {
    Some(Turn(c.(inFlight := None, connectBytes := None, transport := None),
              close := c.transport,
              reply := Some(Reply(c.inFlight.value.request, Failure(error), true))))
  }

  predicate BodyComplete(f: InFlight) {
    match f.head
    case None => false
    case Some(head) => !head.chunked && |f.readBuf| >= f.headLen + head.contentLength
  }

  function DeliverSuccess(c: Connection, mustRetire: bool): (t: Option<Turn>) {
    if c.inFlight.None? || c.inFlight.value.head.None? then None
    else
      var f := c.inFlight.value;
      var head := f.head.value;
      if !head.chunked && |f.readBuf| < f.headLen + head.contentLength then None
      else
        var body := if head.chunked then f.decodedBody
                    else f.readBuf[f.headLen..f.headLen + head.contentLength];
        var reply := Some(Reply(f.request, Response(body), mustRetire));
        if mustRetire then
          Some(Turn(c.(inFlight := None, transport := None), close := c.transport, reply := reply))
        else Some(Turn(c.(inFlight := None), reply := reply))
  }

  // --- Lanes ------------------------------------------------------------------------------

  function WriteMore(c: Connection): (t: Option<Turn>) {
    if c.inFlight.None? || c.transport.None? then None
    else
      var f := c.inFlight.value;
      Some(Turn(c.(inFlight := Some(f.(pendingWrite := []))),
                lane := Some(Write(c.transport.value, f.generation, f.pendingWrite))))
  }

  function ReadMore(c: Connection): (t: Option<Turn>) {
    if c.inFlight.None? || c.transport.None? then None
    else Some(Turn(c, lane := Some(Read(c.transport.value, c.inFlight.value.generation))))
  }

  // --- User messages ----------------------------------------------------------------------

  /** `handle_request`; `encoded` is `None` when the host policy refuses the request. */
  function HandleRequest(c: Connection, request: nat, encoded: Option<seq<Byte>>): (t: Option<Turn>) {
    if c.inFlight.Some? then Some(Turn(c, reply := Some(Reply(request, Failure(Busy), false))))
    else if encoded.None? then Some(Turn(c, reply := Some(Reply(request, Failure(Refused), false))))
    else if c.generation + 1 > USIZE_MAX then None
    else
      var generation := c.generation + 1;
      var f := InFlight(generation, request, [], [], [], None, 0, None, 0);
      var c1 := c.(idleSince := None, generation := generation);
      if c.transport.Some? then
        match WriteMore(c1.(inFlight := Some(f.(pendingWrite := encoded.value)))) {
          case None => None
          case Some(t) => Some(t.(deadline := Some(generation)))
        }
      else
        Some(Turn(c1.(inFlight := Some(f), connectBytes := encoded),
                  lane := Some(Connect(generation)), deadline := Some(generation)))
  }

  /** `handle_maintain`: closes a transport idle for `maxIdle`; the flag is its `closed_idle`. */
  function HandleMaintain(c: Connection, now: nat, maxIdle: nat): (Turn, bool) {
    if c.inFlight.Some? || c.transport.None? then (Turn(c.(idleSince := None)), false)
    else
      var since := if c.idleSince.Some? then c.idleSince.value else now;
      if SaturatingSub(now, since) < maxIdle then (Turn(c.(idleSince := Some(since))), false)
      else (Turn(c.(idleSince := None, transport := None), close := c.transport), true)
  }

  // --- Continuations ----------------------------------------------------------------------

  function HandleConnected(c: Connection, generation: nat, stream: Option<Stream>): (t: Option<Turn>) {
    if !IsCurrent(c, generation) then Some(Turn(c, close := stream))
    else if stream.None? then FailRequest(c, ConnectFailed)
    else if c.connectBytes.None? then None
    else
      var f := c.inFlight.value.(pendingWrite := c.connectBytes.value);
      WriteMore(c.(transport := stream, connectBytes := None, inFlight := Some(f)))
  }

  /** `written` is `None` for a failed write; the runtime hands the bytes back. */
  function HandleWrote(c: Connection, generation: nat, bytes: seq<Byte>, written: Option<nat>): (t: Option<Turn>) {
    if !IsCurrent(c, generation) then Some(Turn(c))
    else if written.None? || written.value == 0 then FailRequest(c, WriteFailed)
    else if written.value >= |bytes| then ReadMore(c)
    else WriteMore(c.(inFlight := Some(c.inFlight.value.(pendingWrite := bytes[written.value..]))))
  }

  function HandleDeadline(c: Connection, generation: nat): (t: Option<Turn>) {
    if !IsCurrent(c, generation) then Some(Turn(c)) else FailRequest(c, Timeout)
  }

  /** Any decoder the connection holds is a state the decoder can be in. */
  ghost predicate DecoderValid(c: Connection) {
    c.inFlight.Some? && c.inFlight.value.decoder.Some? ==> c.inFlight.value.decoder.value.Valid()
  }

  /** `data` is `None` for a failed read and empty at the peer's end of stream. */
  function HandleRead(config: Config, c: Connection, generation: nat, data: Option<seq<Byte>>): (t: Option<Turn>)
    requires config.maxBody <= USIZE_MAX && DecoderValid(c)
  {
    if !IsCurrent(c, generation) then Some(Turn(c))
    else if data.None? then FailRequest(c, ReadFailed)
    else HandleBytesRead(config, c, data.value)
  }

  function HandleBytesRead(config: Config, c: Connection, data: seq<Byte>): (t: Option<Turn>)
    requires config.maxBody <= USIZE_MAX && c.inFlight.Some? && DecoderValid(c)
  {
    var f := c.inFlight.value;
    if data == [] then
      if BodyComplete(f) then DeliverSuccess(c, true) else FailRequest(c, PeerClosed)
    else
      var f1 := f.(readBuf := f.readBuf + data);
      if f1.head.Some? then HandleBody(c.(inFlight := Some(f1)))
      else
        match config.parse(f1.readBuf)
        case HeadNeedsMore => ReadMore(c.(inFlight := Some(f1)))
        case HeadFailed => FailRequest(c.(inFlight := Some(f1)), Malformed)
        case HeadComplete(head, headLen) =>
          var decoder := if head.chunked then Some(New(config.maxBody)) else f1.decoder;
          HandleBody(c.(inFlight := Some(f1.(head := Some(head), headLen := headLen, decoder := decoder))))
  }

  function HandleBody(c: Connection): (t: Option<Turn>)
    requires c.inFlight.Some? && DecoderValid(c)
  {
    var f := c.inFlight.value;
    if f.head.None? then None
    else if f.head.value.chunked then
      if f.decoder.None? then None else HandleChunked(c)
    else if BodyComplete(f) then
      var bodyEnd := f.headLen + f.head.value.contentLength;
      DeliverSuccess(c, f.head.value.close || |f.readBuf| > bodyEnd)
    else ReadMore(c)
  }

  /** The decoder resumes at an offset into the growing read buffer. */
  function HandleChunked(c: Connection): (t: Option<Turn>)
    requires c.inFlight.Some? && c.inFlight.value.decoder.Some? && DecoderValid(c)
  {
    var f := c.inFlight.value;
    var start := SaturatingAdd(f.headLen, f.rawConsumed);
    var raw := if start <= |f.readBuf| then f.readBuf[start..] else [];
    var r := FeedAll(f.decoder.value, raw);
    var f1 := f.(decoder := Some(r.dec), decodedBody := f.decodedBody + r.out,
                 rawConsumed := SaturatingAdd(f.rawConsumed, r.consumed));
    var c1 := c.(inFlight := Some(f1));
    match r.result
    case Complete => DeliverSuccess(c1, true)
    case Failed(_) => FailRequest(c1, Malformed)
    case NeedMore => ReadMore(c1)
  }
}
