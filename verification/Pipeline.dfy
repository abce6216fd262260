/**
  Requests on one server connection: reads, dispatch, the one-byte peer monitor that runs while
  the service works, and the read-ahead that becomes the next request.
 */
module Pipeline {
  import opened Bytes
  import opened HttpHead
  import I = InboundConnection

  /** How request bodies are streamed to the service, when they are. */
  datatype Streaming = Streaming(chunkSize: nat, maxBody: Word, metered: bool)

  /** `monitored` holds for a TCP connection with the peer monitor and a call-lane service. */
  datatype Config = Config(parse: Parser, keepalive: bool, monitored: bool, stream: Option<Streaming>)

  /** Whether the bytes read were charged, and those a streamed dispatch moves. */
  datatype Verdicts = Verdicts(read: bool, moved: bool)

  /** `pending` is the request that waits for its monitor; a request is its head and body bytes. */
  datatype Pipe = Pipe(
    readBuf: seq<Byte>,
    head: Option<Head>,
    headLen: nat,
    readAhead: seq<Byte>,
    pending: Option<seq<Byte>>,
    monitor: bool,
    terminalSeen: bool,
    waiting: bool,
    willClose: bool)

  const FRESH: Pipe := Pipe([], None, 0, [], None, false, false, false, false)

  datatype Action =
    | ReadMore
    | CallService(request: seq<Byte>)
    | CallStreaming(held: I.Held)
    | SpawnMonitor
    | Respond
    | AwaitMonitor
    | Nothing
    | Shut

  function SendError(p: Pipe): (Pipe, Action) {
    (p.(willClose := true), Respond)
  }

  /** `handle_bytes_read`; the bytes behind a chunked head are not charged. */
  function HandleBytesRead(config: Config, p: Pipe, data: seq<Byte>, admitted: Verdicts): (r: (Pipe, Action)) {
    if data == [] then (p, Shut)
    else
      var p1 := p.(readBuf := p.readBuf + data);
      if p1.head.Some? then
        if !admitted.read then SendError(p1) else MaybeDispatch(config, p1, admitted.moved)
      else
        match config.parse(p1.readBuf)
        case HeadNeedsMore => (p1, ReadMore)
        case HeadFailed => SendError(p1)
        case HeadComplete(head, headLen) =>
          var p2 := p1.(head := Some(head), headLen := headLen);
          if !head.chunked && !admitted.read then SendError(p2) else MaybeDispatch(config, p2, admitted.moved)
  }

  predicate Streams(config: Config, head: Head) {
    config.stream.Some? && (head.contentLength > 0 || head.chunked)
  }

  /** A streamed request is dispatched at its head, a buffered one when its body is all there. */
  function MaybeDispatch(config: Config, p: Pipe, moved: bool): (r: (Pipe, Action))
    requires p.head.Some?
  {
    if Streams(config, p.head.value) then DispatchStreamed(config, p, moved)
    else if |p.readBuf| < p.headLen + p.head.value.contentLength then (p, ReadMore)
    else Dispatch(config, p)
  }

  /** `dispatch_to_service`, streamed branch: what lies past the body is cut off. */
  function DispatchStreamed(config: Config, p: Pipe, moved: bool): (r: (Pipe, Action))
    requires p.head.Some? && Streams(config, p.head.value)
  {
    var head, stream := p.head.value, config.stream.value;
    var early := p.readBuf[Min(p.headLen, |p.readBuf|)..];
    var p1 := p.(willClose := !config.keepalive || head.close, head := None, readBuf := []);
    var dispatched :=
      if head.chunked then I.HoldChunked(stream.maxBody, stream.chunkSize, early, stream.metered, moved)
      else I.HoldLength(head.contentLength, stream.chunkSize, early, stream.metered, moved);
    match dispatched
    case Serving(held) => (p1, CallStreaming(held))
    case _ => SendError(p1)
  }

  /** `dispatch_to_service`, buffered branch. */
  function Dispatch(config: Config, p: Pipe): (r: (Pipe, Action))
    requires p.head.Some? && |p.readBuf| >= p.headLen + p.head.value.contentLength
  {
    var bodyEnd := p.headLen + p.head.value.contentLength;
    var request := p.readBuf[..bodyEnd];
    var p1 := p.(willClose := !config.keepalive || p.head.value.close, head := None,
                 readAhead := p.readAhead + p.readBuf[bodyEnd..], readBuf := []);
    if !config.monitored || p1.willClose || p1.readAhead != [] then (p1, CallService(request))
    else (p1.(pending := Some(request), terminalSeen := false), SpawnMonitor)
  }

  /** `handle_service_monitor_spawned`. */
  function MonitorSpawned(p: Pipe, ok: bool): (Pipe, Action) {
    if p.pending.None? then (p, Shut)
    else
      var p1 := p.(pending := None);
      if !ok then (p1.(willClose := true), Respond)
      else (p1.(monitor := p1.monitor || !p1.terminalSeen), CallService(p.pending.value))
  }

  /** `handle_service_peer_monitor_ended`; `None` is a disconnect. */
  function MonitorEnded(config: Config, p: Pipe, bytes: Option<seq<Byte>>, admitted: Verdicts): (Pipe, Action) {
    var p1 := p.(monitor := false, terminalSeen := true);
    if bytes.None? then (p1, Shut)
    else
      var ahead := p1.readAhead + bytes.value;
      if p1.waiting then HandleBytesRead(config, p1.(waiting := false, readAhead := []), ahead, admitted)
      else (p1.(readAhead := ahead), Nothing)
  }

  function ServiceReturned(p: Pipe, ok: bool): (Pipe, Action) {
    (p.(willClose := p.willClose || !ok), Respond)
  }

  /** `finish_response`: the response is on the wire. */
  function FinishResponse(config: Config, p: Pipe, admitted: Verdicts): (Pipe, Action) {
    if p.willClose then (p, Shut)
    else
      var reset := p.(readBuf := [], head := None, headLen := 0, readAhead := [], pending := None,
                      waiting := false, terminalSeen := false, willClose := false);
      if p.readAhead == [] && !p.monitor then (reset, ReadMore)
      else if p.readAhead == [] then (reset.(waiting := true), AwaitMonitor)
      else HandleBytesRead(config, reset, p.readAhead, admitted)
  }

  // --- Runs -------------------------------------------------------------------------------

  /** The monitor child: asked for, reading its byte, holding its terminal result, or gone. */
  datatype Child = NoChild | Asked | Reading | Ended(result: Option<seq<Byte>>)

  /** Whether the connection still owes itself the answer to its spawn request. */
  datatype SpawnReply = NoReply | Owed | Arrived(ok: bool)

  /**
    The connection, its outstanding calls, every byte taken from the socket so far, the requests
    handed to the service, and whether one of them was streamed.
   */
  datatype System = System(
    pipe: Pipe,
    reading: bool,
    child: Child,
    spawn: SpawnReply,
    serving: bool,
    writing: bool,
    closed: bool,
    inbound: seq<Byte>,
    called: seq<seq<Byte>>,
    streamed: bool)

  const START: System := System(FRESH, true, NoChild, NoReply, false, false, false, [], [], false)

  datatype Event =
    | ReadDone(data: seq<Byte>, admitted: Verdicts)
    | ChildStarts
    | SpawnFails
    | ChildReads(data: seq<Byte>)
    | ChildLosesPeer
    | SpawnReplyHandled
    | ChildEndHandled(admitted: Verdicts)
    | ServiceDone(ok: bool)
    | ResponseDone(admitted: Verdicts)
    | GiveUp

  /** Calls complete in any order; the monitor reads one byte at a time. */
  predicate Enabled(s: System, e: Event) {
    !s.closed &&
    match e
    case ReadDone(_, _) => s.reading
    case ChildStarts => s.child.Asked? && s.spawn.Owed?
    case SpawnFails => s.child.Asked? && s.spawn.Owed?
    case ChildReads(data) => s.child.Reading? && |data| == 1
    case ChildLosesPeer => s.child.Reading?
    case SpawnReplyHandled => s.spawn.Arrived?
    case ChildEndHandled(_) => s.child.Ended?
    case ServiceDone(_) => s.serving
    case ResponseDone(_) => s.writing
    case GiveUp => true
  }

  function Apply(s: System, r: (Pipe, Action)): System {
    var s1 := s.(pipe := r.0);
    match r.1
    case ReadMore => s1.(reading := true)
    case CallService(request) => s1.(serving := true, called := s.called + [request])
    case CallStreaming(_) => s1.(serving := true, streamed := true)
    case SpawnMonitor => s1.(child := Asked, spawn := Owed)
    case Respond => s1.(writing := true)
    case AwaitMonitor => s1
    case Nothing => s1
    case Shut => s1.(closed := true)
  }

  function Step(config: Config, s: System, e: Event): System {
    match e
    case ReadDone(data, admitted) =>
      Apply(s.(reading := false, inbound := s.inbound + data), HandleBytesRead(config, s.pipe, data, admitted))
    case ChildStarts => s.(child := Reading, spawn := Arrived(true))
    case SpawnFails => s.(child := NoChild, spawn := Arrived(false))
    case ChildReads(data) => s.(child := Ended(Some(data)), inbound := s.inbound + data)
    case ChildLosesPeer => s.(child := Ended(None))
    case SpawnReplyHandled => Apply(s.(spawn := NoReply), MonitorSpawned(s.pipe, s.spawn.Arrived? && s.spawn.ok))
    case ChildEndHandled(admitted) =>
      Apply(s.(child := NoChild),
            MonitorEnded(config, s.pipe, if s.child.Ended? then s.child.result else None, admitted))
    case ServiceDone(ok) => Apply(s.(serving := false), ServiceReturned(s.pipe, ok))
    case ResponseDone(admitted) => Apply(s.(writing := false), FinishResponse(config, s.pipe, admitted))
    case GiveUp => s.(closed := true)
  }

  // --- The invariant ----------------------------------------------------------------------

  function InTransit(s: System): seq<Byte> {
    if s.child.Ended? && s.child.result.Some? then s.child.result.value else []
  }

  function Pending(p: Pipe): seq<Byte> {
    if p.pending.Some? then p.pending.value else []
  }

  /** Every byte taken from the socket: handed out, or held in stream order. */
  function Held(s: System): seq<Byte> {
    Pending(s.pipe) + s.pipe.readBuf + s.pipe.readAhead + InTransit(s)
  }

  predicate Alive(c: Child) {
    c.Reading? || c.Ended?
  }

  function Bit(b: bool): nat {
    if b then 1 else 0
  }

  /** Which of the steps of one request the connection is in. */
  ghost predicate Phase(s: System) {
    var p := s.pipe;
    && Bit(s.reading) + Bit(!s.spawn.NoReply?) + Bit(s.serving) + Bit(s.writing) + Bit(p.waiting) == 1
    && (p.pending.Some? <==> !s.spawn.NoReply?)
    && (s.child.Asked? <==> s.spawn.Owed?)
    && (s.reading ==> p.readAhead == [] && s.child.NoChild? && !p.monitor)
    && (!s.spawn.NoReply? ==> p.readBuf == [] && p.head.None? && !p.willClose && !p.monitor)
    && (s.serving ==> p.readBuf == [] && p.head.None?)
    && (s.writing && !p.willClose ==> p.readBuf == [] && p.head.None?)
    && (p.waiting ==> p.readBuf == [] && p.head.None? && p.readAhead == [] && p.monitor && !p.willClose)
    && (Alive(s.child) ==> p.readAhead == [])
    && (p.monitor ==> Alive(s.child))
    && (Alive(s.child) && s.spawn.NoReply? ==> p.monitor)
    && (s.spawn == Arrived(true) ==> (p.terminalSeen <==> !Alive(s.child)))
    && (s.spawn == Arrived(false) ==> s.child.NoChild?)
    && (s.spawn.Owed? ==> p.readAhead == [] && !p.terminalSeen)
    && (s.reading ==> !p.willClose && p.pending.None?)
  }

  /** The head being read belongs to the read buffer. */
  ghost predicate HeadKept(config: Config, p: Pipe) {
    p.head.Some? ==>
      && config.parse(p.readBuf) == HeadComplete(p.head.value, p.headLen)
      && !p.head.value.chunked && !Streams(config, p.head.value)
  }

  /** Every byte is accounted for, and what was handed out are the stream's own messages. */
  ghost predicate Framed(config: Config, s: System) {
    && s.inbound == Concat(s.called) + Held(s)
    && CutsOff(config.parse, s.called, Held(s))
    && (s.pipe.pending.Some? ==> FirstMessage(config.parse, Held(s)) == Some(|s.pipe.pending.value|))
    && (s.reading ==> HeadKept(config, s.pipe) && FirstMessage(config.parse, s.pipe.readBuf).None?)
  }

  /** The stream is accounted for, as long as every request was buffered. */
  ghost predicate Accounted(config: Config, s: System) {
    && s.called <= Messages(config.parse, s.inbound)
    && (!s.closed ==> Phase(s))
    && (!s.closed && !s.pipe.willClose ==> Framed(config, s))
  }

  ghost predicate Inv(config: Config, s: System) {
    && ParserFits(config)
    && (s.streamed ==> config.stream.Some?)
    && (!s.streamed ==> Accounted(config, s))
  }

  /** Heads are prefix-stable, and without streaming the parser refuses chunked framing. */
  ghost predicate ParserFits(config: Config) {
    PrefixStable(config.parse) && (config.stream.None? ==> NoChunked(config.parse))
  }

  ghost predicate NoChunked(parse: Parser) {
    forall b: seq<Byte> :: parse(b).HeadComplete? ==> !parse(b).head.chunked
  }

  lemma {:induction false} StartInv(config: Config)
    requires ParserFits(config)
    ensures Inv(config, START)
  {
    NothingIsNoMessage(config.parse);
  }

  // --- Every step keeps the invariant -----------------------------------------------------

  /** Between two calls: nothing outstanding, `data` just arrived behind the read buffer. */
  ghost predicate Arriving(config: Config, s: System, p: Pipe, data: seq<Byte>) {
    && ParserFits(config) && !s.streamed
    && !s.closed && !s.reading && s.child.NoChild? && s.spawn.NoReply? && !s.serving && !s.writing
    && p.readAhead == [] && p.pending.None? && !p.waiting && !p.willClose && !p.monitor
    && HeadKept(config, p)
    && s.inbound == Concat(s.called) + (p.readBuf + data)
    && CutsOff(config.parse, s.called, p.readBuf + data)
  }

  /** The reference reading covers what was handed out, in every framed state. */
  lemma {:induction false} FramedAreMessages(config: Config, s: System)
    requires Framed(config, s)
    ensures s.called <= Messages(config.parse, s.inbound)
  {
    hide FirstMessage, Messages;
    CutsOffAreMessages(config.parse, s.called, Held(s));
  }

  /** Handing out the first message of what is held keeps every byte accounted for. */
  lemma {:induction false} HandedOut(
    parse: Parser, called: seq<seq<Byte>>, inbound: seq<Byte>, request: seq<Byte>, after: seq<Byte>)
    requires PrefixStable(parse)
    requires inbound == Concat(called) + (request + after) && CutsOff(parse, called, request + after)
    requires FirstMessage(parse, request + after) == Some(|request|)
    ensures inbound == Concat(called + [request]) + after && CutsOff(parse, called + [request], after)
  {
    hide PrefixStable, Concat, CutsOff, FirstMessage;
    ConcatSnoc(called, request);
    CutsOffSnoc(parse, called, request, after);
    assert Concat(called) + (request + after) == Concat(called) + request + after;
  }

  /** The request dispatched is the first message of what is buffered. */
  lemma {:induction false} DispatchedFirst(config: Config, s: System, p: Pipe)
    requires Arriving(config, s, p, []) && p.head.Some?
    requires |p.readBuf| >= p.headLen + p.head.value.contentLength
    ensures p.readBuf + [] == p.readBuf
    ensures FirstMessage(config.parse, p.readBuf) == Some(p.headLen + p.head.value.contentLength)
  {
    hide PrefixStable, Concat, CutsOff;
    assert p.readBuf + [] == p.readBuf;
    Stable(config.parse, p.readBuf, []);
  }

  lemma {:induction false} DispatchPhase(config: Config, s: System, p: Pipe)
    requires Arriving(config, s, p, []) && p.head.Some?
    requires |p.readBuf| >= p.headLen + p.head.value.contentLength
    ensures var s' := Apply(s, Dispatch(config, p)); Phase(s') && !s'.closed && !s'.reading
  {
    hide PrefixStable, NoChunked, HeadKept, Concat, CutsOff;
  }

  lemma {:induction false} DispatchHolds(config: Config, s: System, p: Pipe)
    requires Arriving(config, s, p, []) && p.head.Some?
    requires |p.readBuf| >= p.headLen + p.head.value.contentLength
    ensures var s' := Apply(s, Dispatch(config, p));
            var bodyEnd := p.headLen + p.head.value.contentLength;
            && s'.inbound == s.inbound && !s'.reading
            && if s'.pipe.pending.None? then s'.called == s.called + [p.readBuf[..bodyEnd]] && Held(s') == p.readBuf[bodyEnd..]
               else s'.called == s.called && Held(s') == p.readBuf && |s'.pipe.pending.value| == bodyEnd
  {
    hide PrefixStable, NoChunked, HeadKept, Concat, CutsOff;
    var bodyEnd := p.headLen + p.head.value.contentLength;
    assert p.readBuf == p.readBuf[..bodyEnd] + p.readBuf[bodyEnd..];
  }

  /** A request cut off the read buffer is the next message of the stream. */
  lemma {:induction false} DispatchFramed(config: Config, s: System, p: Pipe)
    requires Arriving(config, s, p, []) && p.head.Some?
    requires |p.readBuf| >= p.headLen + p.head.value.contentLength
    ensures Framed(config, Apply(s, Dispatch(config, p)))
  {
    DispatchedFirst(config, s, p);
    hide PrefixStable, NoChunked, HeadKept, Messages, Concat, CutsOff, FirstMessage, Held, Dispatch;
    var bodyEnd := p.headLen + p.head.value.contentLength;
    var request, after := p.readBuf[..bodyEnd], p.readBuf[bodyEnd..];
    assert p.readBuf == request + after;
    HandedOut(config.parse, s.called, s.inbound, request, after);
    DispatchHolds(config, s, p);
  }

  lemma {:induction false} DispatchKeeps(config: Config, s: System, p: Pipe)
    requires Arriving(config, s, p, []) && p.head.Some?
    requires |p.readBuf| >= p.headLen + p.head.value.contentLength
    ensures Inv(config, Apply(s, Dispatch(config, p)))
  {
    hide Messages, Phase, Framed;
    DispatchPhase(config, s, p);
    DispatchFramed(config, s, p);
    FramedAreMessages(config, Apply(s, Dispatch(config, p)));
  }

  /** A streamed dispatch calls the service or answers an error; it is not accounted for here. */
  lemma {:induction false} StreamedKeeps(config: Config, s: System, p: Pipe, moved: bool)
    requires ParserFits(config) && !s.streamed && s.called <= Messages(config.parse, s.inbound)
    requires !s.closed && !s.reading && s.child.NoChild? && s.spawn.NoReply? && !s.serving && !s.writing
    requires p.readAhead == [] && p.pending.None? && !p.waiting && !p.monitor
    requires p.head.Some? && Streams(config, p.head.value)
    ensures Inv(config, Apply(s, DispatchStreamed(config, p, moved)))
  {
    hide ParserFits, Messages, I.HoldChunked, I.HoldLength;
  }

  /** What arrives is charged, and its head, if new, is known. */
  lemma {:induction false} HeadedArrives(config: Config, s: System, p: Pipe, p2: Pipe, data: seq<Byte>, moved: bool)
    requires Arriving(config, s, p, data) && data != []
    requires p2.head.Some? && config.parse(p2.readBuf) == HeadComplete(p2.head.value, p2.headLen)
    requires p2 == p.(readBuf := p.readBuf + data, head := p2.head, headLen := p2.headLen)
    ensures Inv(config, Apply(s, MaybeDispatch(config, p2, moved)))
  {
    hide Messages, Concat, CutsOff, Dispatch, DispatchStreamed, FirstMessage, PrefixStable;
    var s' := Apply(s, MaybeDispatch(config, p2, moved));
    assert p2.readBuf + [] == p2.readBuf;
    CutsOffAreMessages(config.parse, s.called, p.readBuf + data);
    if Streams(config, p2.head.value) {
      StreamedKeeps(config, s, p2, moved);
    } else {
      assert !p2.head.value.chunked;
      if |p2.readBuf| >= p2.headLen + p2.head.value.contentLength {
        DispatchKeeps(config, s, p2);
      } else {
        NoMessageYet(config.parse, p2);
        assert Held(s') == p2.readBuf;
      }
    }
  }

  lemma {:induction false} BytesArrive(config: Config, s: System, p: Pipe, data: seq<Byte>, admitted: Verdicts)
    requires Arriving(config, s, p, data)
    ensures Inv(config, Apply(s, HandleBytesRead(config, p, data, admitted)))
  {
    hide Messages, Concat, CutsOff, MaybeDispatch, FirstMessage, PrefixStable, NoChunked;
    var s' := Apply(s, HandleBytesRead(config, p, data, admitted));
    var p1 := p.(readBuf := p.readBuf + data);
    CutsOffAreMessages(config.parse, s.called, p.readBuf + data);
    if data != [] {
      var parsed := config.parse(p1.readBuf);
      if p.head.Some? {
        Stable(config.parse, p.readBuf, data);
        HeadedArrives(config, s, p, p1, data, admitted.moved);
      } else if parsed.HeadComplete? {
        HeadedArrives(config, s, p, p1.(head := Some(parsed.head), headLen := parsed.headLen), data, admitted.moved);
      } else {
        NoMessageYet(config.parse, p1);
        assert p1.readBuf + [] == p1.readBuf;
        assert Held(s') == p1.readBuf;
      }
    }
  }

  lemma {:induction false} NoMessageYet(parse: Parser, p: Pipe)
    ensures !parse(p.readBuf).HeadComplete? ==> FirstMessage(parse, p.readBuf).None?
    ensures (&& p.head.Some? && parse(p.readBuf) == HeadComplete(p.head.value, p.headLen)
             && |p.readBuf| < p.headLen + p.head.value.contentLength)
            ==> FirstMessage(parse, p.readBuf).None?
  {
  }

  lemma {:induction false} NothingIsNoMessage(parse: Parser)
    requires PrefixStable(parse)
    ensures FirstMessage(parse, []).None?
  {
    assert !parse([]).HeadComplete?;
  }

  lemma {:induction false} SpawnReplyPhase(config: Config, s: System)
    requires Phase(s) && Enabled(s, SpawnReplyHandled)
    ensures Phase(Step(config, s, SpawnReplyHandled))
    ensures Step(config, s, SpawnReplyHandled).pipe.willClose || s.spawn.ok
  {
  }

  /** The spawn reply hands the pending request over and nothing else moves. */
  lemma {:induction false} SpawnReplyFramed(config: Config, s: System)
    requires PrefixStable(config.parse) && Phase(s) && Framed(config, s) && Enabled(s, SpawnReplyHandled) && s.spawn.ok
    ensures Framed(config, Step(config, s, SpawnReplyHandled))
  {
    hide PrefixStable, HeadKept, Messages, Concat, CutsOff, FirstMessage;
    var s' := Step(config, s, SpawnReplyHandled);
    var request := s.pipe.pending.value;
    var after := s.pipe.readAhead + InTransit(s);
    assert Held(s) == request + after && Held(s') == after;
    HandedOut(config.parse, s.called, s.inbound, request, after);
  }

  lemma {:induction false} SpawnReplyKeeps(config: Config, s: System)
    requires Inv(config, s) && !s.streamed && Enabled(s, SpawnReplyHandled)
    ensures Inv(config, Step(config, s, SpawnReplyHandled))
  {
    assert s.pipe.pending.Some? && !s.pipe.willClose && (s.child.Asked? <==> s.spawn.Owed?);
    hide ParserFits, Messages, Phase, Framed;
    SpawnReplyPhase(config, s);
    if s.spawn.ok {
      SpawnReplyFramed(config, s);
      FramedAreMessages(config, Step(config, s, SpawnReplyHandled));
    }
  }

  lemma {:induction false} ChildEndKeeps(config: Config, s: System, admitted: Verdicts)
    requires Inv(config, s) && !s.streamed && Enabled(s, ChildEndHandled(admitted))
    ensures Inv(config, Step(config, s, ChildEndHandled(admitted)))
  {
    hide PrefixStable, Messages, Concat, CutsOff, FirstMessage, HandleBytesRead;
    var s' := Step(config, s, ChildEndHandled(admitted));
    if s.child.result.Some? {
      var data := s.child.result.value;
      var p1 := s.pipe.(monitor := false, terminalSeen := true);
      if s.pipe.waiting {
        assert Held(s) == [] + data && [] + data == data;
        BytesArrive(config, s.(child := NoChild), p1.(waiting := false, readAhead := []), data, admitted);
      } else {
        assert !s.pipe.willClose ==> Held(s') == Held(s);
      }
    }
  }

  lemma {:induction false} ResponseDoneKeeps(config: Config, s: System, admitted: Verdicts)
    requires Inv(config, s) && !s.streamed && Enabled(s, ResponseDone(admitted))
    ensures Inv(config, Step(config, s, ResponseDone(admitted)))
  {
    hide PrefixStable, Messages, Concat, CutsOff, FirstMessage, HandleBytesRead;
    var p := s.pipe;
    if !p.willClose {
      var reset := p.(readBuf := [], head := None, headLen := 0, readAhead := [], pending := None,
                      waiting := false, terminalSeen := false, willClose := false);
      if p.readAhead != [] {
        assert Held(s) == [] + p.readAhead && [] + p.readAhead == p.readAhead;
        BytesArrive(config, s.(writing := false), reset, p.readAhead, admitted);
      } else {
        NothingIsNoMessage(config.parse);
        assert Held(Step(config, s, ResponseDone(admitted))) == Held(s);
      }
    }
  }

  /** Bytes that come in behind what is held. */
  lemma {:induction false} InboundGrows(config: Config, s: System, data: seq<Byte>)
    requires Inv(config, s) && !s.closed && !s.streamed
    ensures s.called <= Messages(config.parse, s.inbound + data)
    ensures !s.pipe.willClose ==>
              && s.inbound + data == Concat(s.called) + (Held(s) + data)
              && CutsOff(config.parse, s.called, Held(s) + data)
              && (s.pipe.pending.Some? ==>
                    FirstMessage(config.parse, Held(s) + data) == Some(|s.pipe.pending.value|))
  {
    hide PrefixStable, Messages, Concat, CutsOff, FirstMessage;
    MessagesGrow(config.parse, s.inbound, data);
    if !s.pipe.willClose {
      CutsOffGrows(config.parse, s.called, Held(s), data);
      assert Concat(s.called) + Held(s) + data == Concat(s.called) + (Held(s) + data);
      if s.pipe.pending.Some? {
        FirstMessageStable(config.parse, Held(s), data);
      }
    }
  }

  lemma {:induction false} ReadDoneKeeps(config: Config, s: System, data: seq<Byte>, admitted: Verdicts)
    requires Inv(config, s) && !s.streamed && Enabled(s, ReadDone(data, admitted))
    ensures Inv(config, Step(config, s, ReadDone(data, admitted)))
  {
    hide PrefixStable, Messages, Concat, CutsOff, FirstMessage, HandleBytesRead;
    InboundGrows(config, s, data);
    assert Held(s) == s.pipe.readBuf;
    BytesArrive(config, s.(reading := false, inbound := s.inbound + data), s.pipe, data, admitted);
  }

  lemma {:induction false} ChildReadsKeeps(config: Config, s: System, data: seq<Byte>)
    requires Inv(config, s) && !s.streamed && Enabled(s, ChildReads(data))
    ensures Inv(config, Step(config, s, ChildReads(data)))
  {
    hide PrefixStable, Messages, Concat, CutsOff, FirstMessage;
    InboundGrows(config, s, data);
    assert Held(Step(config, s, ChildReads(data))) == Held(s) + data;
  }

  lemma {:induction false} OtherKeeps(config: Config, s: System, e: Event)
    requires Inv(config, s) && !s.streamed && Enabled(s, e)
    requires e.ChildStarts? || e.SpawnFails? || e.ChildLosesPeer? || e.ServiceDone? || e.GiveUp?
    ensures Inv(config, Step(config, s, e))
  {
    hide PrefixStable, Messages, Concat, CutsOff, FirstMessage;
    assert Held(Step(config, s, e)) == Held(s);
  }

  lemma {:induction false} ApplyStays(s: System, r: (Pipe, Action))
    requires s.streamed
    ensures Apply(s, r).streamed
  {
  }

  lemma {:induction false} StreamedStays(config: Config, s: System, e: Event)
    requires s.streamed
    ensures Step(config, s, e).streamed
  {
    hide HandleBytesRead, MonitorSpawned, MonitorEnded, ServiceReturned, FinishResponse, Apply;
    match e
    case ReadDone(data, admitted) =>
      ApplyStays(s.(reading := false, inbound := s.inbound + data), HandleBytesRead(config, s.pipe, data, admitted));
    case SpawnReplyHandled =>
      ApplyStays(s.(spawn := NoReply), MonitorSpawned(s.pipe, s.spawn.Arrived? && s.spawn.ok));
    case ChildEndHandled(admitted) =>
      ApplyStays(s.(child := NoChild),
                 MonitorEnded(config, s.pipe, if s.child.Ended? then s.child.result else None, admitted));
    case ServiceDone(ok) => ApplyStays(s.(serving := false), ServiceReturned(s.pipe, ok));
    case ResponseDone(admitted) => ApplyStays(s.(writing := false), FinishResponse(config, s.pipe, admitted));
    case _ =>
  }

  lemma {:induction false} StepKeepsInv(config: Config, s: System, e: Event)
    requires Inv(config, s) && Enabled(s, e)
    ensures Inv(config, Step(config, s, e))
  {
    if s.streamed {
      StreamedStays(config, s, e);
      return;
    }
    hide Inv, Step;
    match e
    case ReadDone(data, admitted) => ReadDoneKeeps(config, s, data, admitted);
    case ChildReads(data) => ChildReadsKeeps(config, s, data);
    case SpawnReplyHandled => SpawnReplyKeeps(config, s);
    case ChildEndHandled(admitted) => ChildEndKeeps(config, s, admitted);
    case ResponseDone(admitted) => ResponseDoneKeeps(config, s, admitted);
    case _ => OtherKeeps(config, s, e);
  }

  // --- Theorem ----------------------------------------------------------------------------

  /** The state after the enabled events of a list. */
  function RunOf(config: Config, events: seq<Event>): (s: System)
    requires ParserFits(config)
    ensures Inv(config, s)
    decreases |events|
  {
    if events == [] then
      StartInv(config);
      START
    else
      var last := |events| - 1;
      var s := RunOf(config, events[..last]);
      if Enabled(s, events[last]) then
        StepKeepsInv(config, s, events[last]);
        Step(config, s, events[last])
      else s
  }

  /**
    Pipelining of buffered requests over every run, for every cut of the stream into reads and every timing of the
    peer monitor: the requests handed to the service are the first messages of the inbound
    stream, in order, and all of them whenever the connection waits for a read; until it decides
    to close, no byte is lost, duplicated or reordered; and two reads are never outstanding.
   */
  lemma {:induction false} PipeliningLosesNothing(config: Config, events: seq<Event>)
    requires ParserFits(config)
    ensures var s := RunOf(config, events);
            && (s.streamed ==> config.stream.Some?)
            && (!s.streamed ==>
                  && s.called <= Messages(config.parse, s.inbound)
                  && (!s.closed && !s.pipe.willClose ==> s.inbound == Concat(s.called) + Held(s))
                  && (!s.closed && s.reading ==> s.called == Messages(config.parse, s.inbound))
                  && (!s.closed ==> !(s.reading && Alive(s.child))))
  {
    hide PrefixStable, Concat, CutsOff, FirstMessage, RunOf;
    var s := RunOf(config, events);
    assert Inv(config, s);
    if !s.streamed && !s.closed && s.reading {
      CutsOffAreMessages(config.parse, s.called, Held(s));
      assert Held(s) == s.pipe.readBuf;
    }
  }

  // --- The connection's fields ------------------------------------------------------------

  class ConnectionPipe {
    const config: Config
    var readBuf: seq<Byte>
    var parsedHead: Option<Head>
    var headLen: nat
    var serviceReadAhead: seq<Byte>
    var pendingServiceMessage: Option<seq<Byte>>
    var serviceMonitor: bool
    var serviceMonitorTerminalSeen: bool
    var waitingForMonitorAfterResponse: bool
    var willClose: bool

    function State(): Pipe
      reads this
    {
      Pipe(readBuf, parsedHead, headLen, serviceReadAhead, pendingServiceMessage, serviceMonitor,
           serviceMonitorTerminalSeen, waitingForMonitorAfterResponse, willClose)
    }

    constructor (config: Config)
      ensures State() == FRESH && this.config == config
    {
      this.config := config;
      readBuf, parsedHead, headLen, serviceReadAhead, pendingServiceMessage := [], None, 0, [], None;
      serviceMonitor, serviceMonitorTerminalSeen := false, false;
      waitingForMonitorAfterResponse, willClose := false, false;
    }

    method HandleRead(data: seq<Byte>, admitted: Verdicts) returns (action: Action)
      modifies this
      ensures (State(), action) == HandleBytesRead(config, old(State()), data, admitted)
    {
      hide Dispatch, DispatchStreamed;
      if data == [] {
        return Shut;
      }
      readBuf := readBuf + data;
      var charged := true;
      if parsedHead.None? {
        match config.parse(readBuf) {
          case HeadNeedsMore => return ReadMore;
          case HeadFailed =>
            willClose := true;
            return Respond;
          case HeadComplete(head, n) =>
            parsedHead, headLen, charged := Some(head), n, !head.chunked;
        }
      }
      if charged && !admitted.read {
        willClose := true;
        return Respond;
      }
      action := MaybeDispatchOrReadMore(admitted.moved);
    }

    method MaybeDispatchOrReadMore(moved: bool) returns (action: Action)
      requires parsedHead.Some?
      modifies this
      ensures (State(), action) == MaybeDispatch(config, old(State()), moved)
    {
      hide Dispatch, DispatchStreamed;
      if config.stream.Some? && (parsedHead.value.contentLength > 0 || parsedHead.value.chunked) {
        action := DispatchStreaming(moved);
      } else if |readBuf| < headLen + parsedHead.value.contentLength {
        action := ReadMore;
      } else {
        action := DispatchToService();
      }
    }

    method DispatchStreaming(moved: bool) returns (action: Action)
      requires parsedHead.Some? && Streams(config, parsedHead.value)
      modifies this
      ensures (State(), action) == DispatchStreamed(config, old(State()), moved)
    {
      hide I.HoldChunked, I.HoldLength;
      var head, stream := parsedHead.value, config.stream.value;
      parsedHead := None;
      willClose := !config.keepalive || head.close;
      var early := readBuf[Min(headLen, |readBuf|)..];
      readBuf := [];
      var dispatched;
      if head.chunked {
        dispatched := I.HoldChunked(stream.maxBody, stream.chunkSize, early, stream.metered, moved);
      } else {
        dispatched := I.HoldLength(head.contentLength, stream.chunkSize, early, stream.metered, moved);
      }
      if dispatched.Serving? {
        return CallStreaming(dispatched.held);
      }
      willClose := true;
      return Respond;
    }

    method DispatchToService() returns (action: Action)
      requires parsedHead.Some? && |readBuf| >= headLen + parsedHead.value.contentLength
      modifies this
      ensures (State(), action) == Dispatch(config, old(State()))
    {
      var head := parsedHead.value;
      parsedHead := None;
      willClose := !config.keepalive || head.close;
      var bodyEnd := headLen + head.contentLength;
      var request := readBuf[..bodyEnd];
      assert |readBuf| == bodyEnd ==> serviceReadAhead + readBuf[bodyEnd..] == serviceReadAhead;
      if |readBuf| > bodyEnd {
        serviceReadAhead := serviceReadAhead + readBuf[bodyEnd..];
      }
      readBuf := [];
      if !config.monitored || willClose || serviceReadAhead != [] {
        return CallService(request);
      }
      pendingServiceMessage, serviceMonitorTerminalSeen := Some(request), false;
      return SpawnMonitor;
    }

    method HandleServiceMonitorSpawned(ok: bool) returns (action: Action)
      modifies this
      ensures (State(), action) == MonitorSpawned(old(State()), ok)
    {
      if pendingServiceMessage.None? {
        return Shut;
      }
      var message := pendingServiceMessage.value;
      pendingServiceMessage := None;
      if !ok {
        willClose := true;
        return Respond;
      }
      if !serviceMonitorTerminalSeen {
        serviceMonitor := true;
      }
      return CallService(message);
    }

    method HandleServicePeerMonitorEnded(bytes: Option<seq<Byte>>, admitted: Verdicts) returns (action: Action)
      modifies this
      ensures (State(), action) == MonitorEnded(config, old(State()), bytes, admitted)
    {
      serviceMonitor, serviceMonitorTerminalSeen := false, true;
      if bytes.None? {
        return Shut;
      }
      serviceReadAhead := serviceReadAhead + bytes.value;
      if !waitingForMonitorAfterResponse {
        return Nothing;
      }
      waitingForMonitorAfterResponse := false;
      var readAhead := serviceReadAhead;
      serviceReadAhead := [];
      action := HandleRead(readAhead, admitted);
    }

    method HandleFinishResponse(admitted: Verdicts) returns (action: Action)
      modifies this
      ensures (State(), action) == FinishResponse(config, old(State()), admitted)
    {
      if willClose {
        return Shut;
      }
      var readAhead := serviceReadAhead;
      serviceReadAhead := [];
      readBuf, parsedHead, headLen, pendingServiceMessage := [], None, 0, None;
      waitingForMonitorAfterResponse, serviceMonitorTerminalSeen, willClose := false, false, false;
      if readAhead == [] && !serviceMonitor {
        return ReadMore;
      }
      if readAhead == [] {
        waitingForMonitorAfterResponse := true;
        return AwaitMonitor;
      }
      action := HandleRead(readAhead, admitted);
    }

    method HandleServiceReturned(ok: bool) returns (action: Action)
      modifies this`willClose
      ensures (State(), action) == ServiceReturned(old(State()), ok)
    {
      if !ok {
        willClose := true;
      }
      return Respond;
    }

    /** One step of a run: the connection's own turns go through its fields. */
    method Handle(s: System, e: Event) returns (s': System)
      requires State() == s.pipe
      modifies this
      ensures s' == Step(config, s, e) && State() == s'.pipe
    {
      hide HandleBytesRead, MonitorSpawned, MonitorEnded, ServiceReturned, FinishResponse, Apply;
      var now, action;
      match e {
        case ReadDone(data, admitted) =>
          action := HandleRead(data, admitted);
          now := s.(reading := false, inbound := s.inbound + data);
        case SpawnReplyHandled =>
          action := HandleServiceMonitorSpawned(s.spawn.Arrived? && s.spawn.ok);
          now := s.(spawn := NoReply);
        case ChildEndHandled(admitted) =>
          action := HandleServicePeerMonitorEnded(if s.child.Ended? then s.child.result else None, admitted);
          now := s.(child := NoChild);
        case ServiceDone(ok) =>
          action := HandleServiceReturned(ok);
          now := s.(serving := false);
        case ResponseDone(admitted) =>
          action := HandleFinishResponse(admitted);
          now := s.(writing := false);
        case _ => return Step(config, s, e);
      }
      hide State;
      ApplyPipe(now, (State(), action));
      s' := Apply(now, (State(), action));
    }
  }

  lemma {:induction false} ApplyPipe(s: System, r: (Pipe, Action))
    ensures Apply(s, r).pipe == r.0
  {
  }

  /** The object driven through any list of events ends where the run ends. */
  method Drive(config: Config, events: seq<Event>) returns (c: ConnectionPipe, s: System)
    requires ParserFits(config)
    ensures s == RunOf(config, events) && c.State() == s.pipe
  {
    hide Inv, Step, Enabled, ParserFits;
    c := new ConnectionPipe(config);
    s := START;
    assert events[..0] == [];
    for i := 0 to |events|
      invariant fresh(c) && c.config == config && c.State() == s.pipe
      invariant s == RunOf(config, events[..i])
    {
      assert events[..i + 1][..i] == events[..i];
      if Enabled(s, events[i]) {
        s := c.Handle(s, events[i]);
      }
    }
    assert events[..|events|] == events;
  }
}
