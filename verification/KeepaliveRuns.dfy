/**
  Every run of the keepalive connection: user messages interleaved with runtime completions in
  any order.  What each run keeps, and that no `expect` fires.
 */
module KeepaliveRuns {
  import opened Bytes
  import opened ChunkedSpec
  import opened ChunkedPartition
  import opened HttpHead
  import opened Keepalive
  import ClientBody

  /**
    The connection and its environment.  `lanes` are the outstanding calls; `closed` counts the
    closes issued per stream and `replied` the answers per request.  For the live transport,
    `got` is every byte read from it, `frames` the responses that left it alive and `bodies`
    their delivered bodies; `fed` are the reads the chunked decoder of the current response saw.
    `asked` is the encoded request last started and `sent` what was written of it.
   */
  datatype System = System(
    conn: Connection,
    lanes: multiset<Call>,
    deadlines: set<nat>,
    nextStream: Stream,
    closed: multiset<Stream>,
    nextRequest: nat,
    replied: multiset<nat>,
    got: seq<Byte>,
    frames: seq<seq<Byte>>,
    bodies: seq<seq<Byte>>,
    fed: seq<seq<Byte>>,
    asked: seq<Byte>,
    sent: seq<Byte>)

  datatype Event =
    | Ask(encoded: Option<seq<Byte>>)
    | Maintain(now: nat, maxIdle: nat)
    | Connected(generation: nat, ok: bool)
    | Wrote(call: Call, written: Option<nat>)
    | ReadDone(call: Call, data: Option<seq<Byte>>)
    | Deadline(generation: nat)

  const START: System :=
    System(Connection(None, None, None, 0, None), multiset{}, {}, 0, multiset{}, 0, multiset{}, [], [], [], [], [], [])

  /** What may happen next: a user message, or the completion of an outstanding call. */
  predicate Enabled(s: System, e: Event) {
    match e
    case Ask(_) => true
    case Maintain(_, _) => true
    case Connected(g, _) => Connect(g) in s.lanes
    case Wrote(call, written) =>
      call in s.lanes && call.Write? && (written.Some? ==> written.value <= |call.bytes|)
    case ReadDone(call, data) =>
      && call in s.lanes && call.Read?
      && (data.Some? ==> |data.value| <= READ_CHUNK)
      && (data.Some? && s.conn.inFlight.Some? ==> |s.conn.inFlight.value.readBuf| + |data.value| <= USIZE_MAX)
    case Deadline(g) => g in s.deadlines
  }

  function Finished(e: Event): multiset<Call> {
    match e
    case Connected(g, _) => multiset{Connect(g)}
    case Wrote(call, _) => multiset{call}
    case ReadDone(call, _) => multiset{call}
    case _ => multiset{}
  }

  ghost predicate StepReady(config: Config, s: System, e: Event) {
    config.maxBody <= USIZE_MAX && DecoderValid(s.conn) && Enabled(s, e)
  }

  /** The handler turn for an event; `None` when an `expect` fires. */
  function TurnOf(config: Config, s: System, e: Event): Option<Turn>
    requires StepReady(config, s, e)
  {
    match e
    case Ask(encoded) => HandleRequest(s.conn, s.nextRequest, encoded)
    case Maintain(now, maxIdle) => Some(HandleMaintain(s.conn, now, maxIdle).0)
    case Connected(g, ok) => HandleConnected(s.conn, g, if ok then Some(s.nextStream) else None)
    case Wrote(call, written) => HandleWrote(s.conn, call.generation, call.bytes, written)
    case ReadDone(call, data) => HandleRead(config, s.conn, call.generation, data)
    case Deadline(g) => HandleDeadline(s.conn, g)
  }

  /** The bytes an event brings in on the live transport. */
  function Incoming(s: System, e: Event): seq<Byte> {
    if e.ReadDone? && e.call.Read? && IsCurrent(s.conn, e.call.generation) && e.data.Some? then e.data.value
    else []
  }

  /** The bytes of the request in flight that an event reports as written. */
  function Outgoing(s: System, e: Event): seq<Byte> {
    if e.Wrote? && e.call.Write? && IsCurrent(s.conn, e.call.generation) && e.written.Some? then
      e.call.bytes[..Min(e.written.value, |e.call.bytes|)]
    else []
  }

  /** Whether this turn starts a request. */
  predicate Began(e: Event, t: Turn) {
    e.Ask? && e.encoded.Some? && t.lane.Some?
  }

  function Count<T>(o: Option<T>): multiset<T> {
    match o
    case None => multiset{}
    case Some(x) => multiset{x}
  }

  function Answered(reply: Option<Reply>): multiset<nat> {
    match reply
    case None => multiset{}
    case Some(r) => multiset{r.request}
  }

  /** The reads seen by the decoder of the current response after this event. */
  function FedAfter(s: System, c: Connection, incoming: seq<Byte>): seq<seq<Byte>> {
    match c.inFlight
    case None => []
    case Some(f) =>
      if f.decoder.None? then []
      else if incoming == [] then s.fed
      else if s.conn.inFlight.Some? && s.conn.inFlight.value.decoder.Some? then s.fed + [incoming]
      else [f.readBuf[Min(f.headLen, |f.readBuf|)..]]
  }

  function Apply(s: System, e: Event, t: Turn): System {
    var incoming := Incoming(s, e);
    var alive := t.conn.transport.Some? && t.conn.transport == s.conn.transport;
    var delivered := t.reply.Some? && t.reply.value.answer.Response? && s.conn.inFlight.Some?;
    s.(conn := t.conn,
       lanes := s.lanes - Finished(e) + Count(t.lane),
       deadlines := s.deadlines - (if e.Deadline? then {e.generation} else {})
                    + (if t.deadline.Some? then {t.deadline.value} else {}),
       nextStream := s.nextStream + (if e.Connected? && e.ok then 1 else 0),
       closed := s.closed + Count(t.close),
       nextRequest := s.nextRequest + (if e.Ask? then 1 else 0),
       replied := s.replied + Answered(t.reply),
       got := if alive then s.got + incoming else [],
       frames := if !alive then [] else if delivered then s.frames + [s.conn.inFlight.value.readBuf + incoming]
                 else s.frames,
       bodies := if !alive then [] else if delivered then s.bodies + [t.reply.value.answer.body] else s.bodies,
       fed := FedAfter(s, t.conn, incoming),
       asked := if Began(e, t) then e.encoded.value else s.asked,
       sent := if Began(e, t) then [] else s.sent + Outgoing(s, e))
  }

  lemma {:induction false} ApplyConn(s: System, e: Event, t: Turn)
    ensures Apply(s, e, t).conn == t.conn
  {
    hide FedAfter, Finished, Count, Answered, Outgoing, Incoming, Began;
  }

  // --- The invariant ----------------------------------------------------------------------

  /** `call` is the only outstanding call of the request in flight, and of the right kind. */
  ghost predicate LiveLane(c: Connection, lanes: multiset<Call>, call: Call) {
    && c.inFlight.Some?
    && lanes[call] == 1 && call.generation == c.inFlight.value.generation
    && (forall o :: o in lanes && o.generation == call.generation ==> o == call)
    && (c.connectBytes.Some? <==> call.Connect?)
    && (call.Connect? <==> c.transport.None?)
    && (!call.Connect? ==> c.transport == Some(call.stream))
  }

  /** One lane call per request, none on an idle transport, none from the future. */
  ghost predicate LanesKept(c: Connection, lanes: multiset<Call>, deadlines: set<nat>, nextStream: Stream) {
    && c.generation <= USIZE_MAX
    && (forall o :: o in lanes ==> o.generation <= c.generation)
    && (forall o :: o in lanes && !o.Connect? ==>
          o.stream < nextStream && (c.transport == Some(o.stream) ==> IsCurrent(c, o.generation)))
    && (c.inFlight.None? ==> c.connectBytes.None?)
    && (c.inFlight.Some? ==>
          c.inFlight.value.generation == c.generation && exists call :: LiveLane(c, lanes, call))
    && (forall g :: g in deadlines ==> g <= c.generation)
  }

  ghost predicate LanesInv(s: System) {
    LanesKept(s.conn, s.lanes, s.deadlines, s.nextStream)
  }

  function Holds<T(==)>(o: Option<T>, x: T): nat {
    if o == Some(x) then 1 else 0
  }

  /** Every stream ever connected is the current transport or was closed exactly once. */
  ghost predicate StreamsKept(transport: Option<Stream>, closed: multiset<Stream>, nextStream: Stream) {
    && (transport.Some? ==> transport.value < nextStream)
    && (forall x: Stream :: closed[x] + Holds(transport, x) == if x < nextStream then 1 else 0)
  }

  ghost predicate StreamsInv(s: System) {
    StreamsKept(s.conn.transport, s.closed, s.nextStream)
  }

  function RequestOf(c: Connection): Option<nat> {
    match c.inFlight
    case None => None
    case Some(f) => Some(f.request)
  }

  /** Every request is answered exactly once, or is the one in flight and not answered yet. */
  ghost predicate RepliesKept(inFlight: Option<nat>, replied: multiset<nat>, nextRequest: nat) {
    && (inFlight.Some? ==> inFlight.value < nextRequest)
    && (forall x: nat :: replied[x] + Holds(inFlight, x) == if x < nextRequest then 1 else 0)
  }

  ghost predicate RepliesInv(s: System) {
    RepliesKept(RequestOf(s.conn), s.replied, s.nextRequest)
  }

  /** Written and still to write make up the request, in order; reading starts when it is out. */
  ghost predicate WritesKept(c: Connection, lanes: multiset<Call>, asked: seq<Byte>, sent: seq<Byte>) {
    forall call :: call in lanes && IsCurrent(c, call.generation) ==>
      match call
      case Connect(_) => c.connectBytes == Some(asked) && sent == []
      case Write(_, _, bytes) => sent + bytes == asked
      case Read(_, _) => sent == asked
  }

  ghost predicate WritesInv(s: System) {
    WritesKept(s.conn, s.lanes, s.asked, s.sent)
  }

  function Unframed(c: Connection): seq<Byte> {
    match c.inFlight
    case None => []
    case Some(f) => f.readBuf
  }

  /** The bytes of the live transport are whole responses, then the one being read. */
  ghost predicate FramingInv(config: Config, s: System) {
    && |s.bodies| == |s.frames|
    && (forall i :: 0 <= i < |s.frames| ==>
          && IsMessage(config.parse, s.frames[i])
          && s.bodies[i] == s.frames[i][config.parse(s.frames[i]).headLen..])
    && (s.conn.transport.None? ==> Unframed(s.conn) == [] && s.frames == [])
    && s.got == Concat(s.frames) + Unframed(s.conn)
  }

  /** The response being read: its head, and the chunked decoder at its offset. */
  ghost predicate ResponseKept(config: Config, f: InFlight, fed: seq<seq<Byte>>)
    requires config.maxBody <= USIZE_MAX
  {
    && |f.readBuf| <= USIZE_MAX
    && match f.head {
         case None =>
           && !config.parse(f.readBuf).HeadComplete?
           && f.decoder.None? && f.headLen == 0 && f.rawConsumed == 0 && f.decodedBody == [] && fed == []
         case Some(h) =>
           && config.parse(f.readBuf) == HeadComplete(h, f.headLen)
           && (h.chunked <==> f.decoder.Some?)
           && (h.chunked ==> DecodingKept(config, f, fed))
           && (!h.chunked ==> f.rawConsumed == 0 && fed == [] && |f.readBuf| < f.headLen + h.contentLength)
       }
  }

  ghost predicate DecodingKept(config: Config, f: InFlight, fed: seq<seq<Byte>>)
    requires config.maxBody <= USIZE_MAX && f.decoder.Some?
  {
    var r := FeedParts(New(config.maxBody), [], fed);
    && r.result.NeedMore? && r.dec == f.decoder.value && r.out == f.decodedBody
    && r.consumed == f.rawConsumed && r.consumed <= |Concat(fed)|
    && f.headLen <= |f.readBuf| && Concat(fed) == f.readBuf[f.headLen..]
  }

  ghost predicate ResponseInv(config: Config, s: System)
    requires config.maxBody <= USIZE_MAX
  {
    s.conn.inFlight.Some? ==> ResponseKept(config, s.conn.inFlight.value, s.fed)
  }

  ghost predicate Inv(config: Config, s: System) {
    && config.maxBody <= USIZE_MAX && PrefixStable(config.parse)
    && DecoderValid(s.conn)
    && LanesInv(s) && StreamsInv(s) && RepliesInv(s) && WritesInv(s)
    && FramingInv(config, s) && ResponseInv(config, s)
  }

  lemma {:induction false} StartInv(config: Config)
    requires config.maxBody <= USIZE_MAX && PrefixStable(config.parse)
    ensures Inv(config, START)
  {
  }

  // --- The shape of a turn ----------------------------------------------------------------

  /** The request in flight goes on: one new lane call on the transport it now has. */
  ghost predicate Proceeds(s: System, e: Event, t: Turn) {
    && s.conn.inFlight.Some? && t.conn.inFlight.Some? && t.reply.None? && t.close.None? && t.deadline.None?
    && t.conn.inFlight.value.generation == s.conn.inFlight.value.generation
    && t.conn.inFlight.value.request == s.conn.inFlight.value.request
    && t.conn.generation == s.conn.generation && t.conn.connectBytes.None?
    && t.conn.transport.Some?
    && t.conn.transport == (if e.Connected? then Some(s.nextStream) else s.conn.transport)
    && (e.Connected? ==> e.ok && s.conn.transport.None?)
    && t.lane.Some? && !t.lane.value.Connect?
    && t.lane.value.stream == t.conn.transport.value
    && t.lane.value.generation == s.conn.inFlight.value.generation
  }

  /** The request in flight is answered; the transport is closed unless it is kept. */
  ghost predicate Ends(s: System, e: Event, t: Turn) {
    && s.conn.inFlight.Some? && t.lane.None? && t.deadline.None?
    && t.conn.generation == s.conn.generation && t.conn.connectBytes.None? && t.conn.inFlight.None?
    && t.reply.Some? && t.reply.value.request == s.conn.inFlight.value.request
    && (if t.conn.transport.None? then t.close == s.conn.transport
        else t.close.None? && t.conn.transport == s.conn.transport && e.ReadDone?)
    && (e.Connected? ==> !e.ok)
  }

  /** A new request starts: a write on the idle transport, or a connect. */
  ghost predicate Starts(s: System, e: Event, t: Turn) {
    && e.Ask? && s.conn.inFlight.None? && t.conn.inFlight.Some? && t.reply.None? && t.close.None?
    && t.conn.generation == s.conn.generation + 1
    && t.conn.inFlight.value
       == InFlight(t.conn.generation, s.nextRequest, [], [], [], None, 0, None, 0)
    && t.conn.transport == s.conn.transport
    && (t.conn.connectBytes.Some? <==> s.conn.transport.None?)
    && t.deadline == Some(t.conn.generation)
    && t.lane.Some? && t.lane.value.generation == t.conn.generation
    && (t.lane.value.Connect? <==> s.conn.transport.None?)
    && (s.conn.transport.Some? ==> t.lane.value.stream == s.conn.transport.value)
  }

  /** Nothing changes but the idle clock, except that an idle transport may be closed. */
  ghost predicate Rests(s: System, e: Event, t: Turn) {
    && t.lane.None? && t.deadline.None?
    && t.conn.inFlight == s.conn.inFlight && t.conn.connectBytes == s.conn.connectBytes
    && t.conn.generation == s.conn.generation
    && (if e.Ask? then t.reply.Some? && t.reply.value.request == s.nextRequest && t.reply.value.answer.Failure?
        else t.reply.None?)
    && (if e.Connected? then t.close == if e.ok then Some(s.nextStream) else None
        else if t.conn.transport == s.conn.transport then t.close.None?
        else s.conn.inFlight.None? && t.conn.transport.None? && t.close == s.conn.transport)
    && (t.conn.transport == s.conn.transport || e.Maintain?)
  }

  /** An event that completes a call of another generation than the one in flight. */
  predicate Stale(s: System, e: Event) {
    match e
    case Connected(g, _) => !IsCurrent(s.conn, g)
    case Wrote(call, _) => !IsCurrent(s.conn, call.generation)
    case ReadDone(call, _) => !IsCurrent(s.conn, call.generation)
    case Deadline(g) => !IsCurrent(s.conn, g)
    case _ => false
  }

  ghost predicate Shape(s: System, e: Event, t: Turn) {
    var user := e.Ask? || e.Maintain?;
    || (Rests(s, e, t) && (user || Stale(s, e)))
    || (Starts(s, e, t) && user)
    || (Proceeds(s, e, t) && !Stale(s, e) && !user && !e.Deadline?)
    || (Ends(s, e, t) && !Stale(s, e) && !user)
  }

  /** `call`, being of the current generation, is the live lane. */
  lemma {:induction false} LiveIs(s: System, call: Call)
    requires LanesInv(s) && call in s.lanes && IsCurrent(s.conn, call.generation)
    ensures LiveLane(s.conn, s.lanes, call)
  {
  }

  lemma {:induction false} UserShape(s: System, e: Event, t: Option<Turn>)
    requires LanesInv(s) && (e.Ask? || e.Maintain?)
    requires t == if e.Ask? then HandleRequest(s.conn, s.nextRequest, e.encoded)
                  else Some(HandleMaintain(s.conn, e.now, e.maxIdle).0)
    ensures t.None? ==> e.Ask? && s.conn.generation == USIZE_MAX
    ensures t.Some? ==> Rests(s, e, t.value) || Starts(s, e, t.value)
  {
  }

  lemma {:induction false} ConnectedShape(s: System, e: Event, t: Option<Turn>)
    requires LanesInv(s) && e.Connected? && Enabled(s, e)
    requires t == HandleConnected(s.conn, e.generation, if e.ok then Some(s.nextStream) else None)
    ensures t.Some? && Shape(s, e, t.value)
  {
    if IsCurrent(s.conn, e.generation) {
      LiveIs(s, Connect(e.generation));
    }
  }

  lemma {:induction false} WroteShape(s: System, e: Event, t: Option<Turn>)
    requires LanesInv(s) && (e.Wrote? || e.Deadline?) && Enabled(s, e)
    requires t == if e.Wrote? then HandleWrote(s.conn, e.call.generation, e.call.bytes, e.written)
                  else HandleDeadline(s.conn, e.generation)
    ensures t.Some? && Shape(s, e, t.value)
  {
    if e.Wrote? && IsCurrent(s.conn, e.call.generation) {
      LiveIs(s, e.call);
    }
  }

  lemma {:induction false} ReadShape(config: Config, s: System, e: Event, t: Option<Turn>)
    requires config.maxBody <= USIZE_MAX && DecoderValid(s.conn) && LanesInv(s) && ResponseInv(config, s)
    requires e.ReadDone? && Enabled(s, e) && t == HandleRead(config, s.conn, e.call.generation, e.data)
    ensures t.Some? && Shape(s, e, t.value)
  {
    hide FeedAll, FeedParts, Concat;
    if IsCurrent(s.conn, e.call.generation) {
      LiveIs(s, e.call);
    }
  }

  /** In every reachable state the handler runs through, except at the generation limit. */
  lemma {:induction false} TurnShape(config: Config, s: System, e: Event)
    requires Inv(config, s) && Enabled(s, e)
    ensures TurnOf(config, s, e).None? ==> e.Ask? && s.conn.generation == USIZE_MAX
    ensures TurnOf(config, s, e).Some? ==> Shape(s, e, TurnOf(config, s, e).value)
  {
    hide HandleRequest, HandleMaintain, HandleConnected, HandleWrote, HandleRead, HandleDeadline;
    hide LanesInv, StreamsInv, RepliesInv, WritesInv, FramingInv, ResponseInv, Rests, Starts, Proceeds, Ends;
    var t := TurnOf(config, s, e);
    match e
    case Ask(_) => UserShape(s, e, t);
    case Maintain(_, _) => UserShape(s, e, t);
    case Connected(_, _) => ConnectedShape(s, e, t);
    case Wrote(_, _) => WroteShape(s, e, t);
    case Deadline(_) => WroteShape(s, e, t);
    case ReadDone(_, _) => ReadShape(config, s, e, t);
  }

  // --- Lanes, streams and replies ---------------------------------------------------------

  lemma {:induction false} StreamsAfter(s: System, e: Event, t: Turn)
    requires StreamsInv(s) && Shape(s, e, t)
    ensures StreamsKept(t.conn.transport, s.closed + Count(t.close),
                        s.nextStream + (if e.Connected? && e.ok then 1 else 0))
  {
    if Rests(s, e, t) {
    } else if Starts(s, e, t) {
    } else if Proceeds(s, e, t) {
    } else {
    }
  }

  lemma {:induction false} RepliesAfter(s: System, e: Event, t: Turn)
    requires RepliesInv(s) && Shape(s, e, t)
    ensures RepliesKept(RequestOf(t.conn), s.replied + Answered(t.reply),
                        s.nextRequest + (if e.Ask? then 1 else 0))
  {
    if Rests(s, e, t) {
    } else if Starts(s, e, t) {
    } else if Proceeds(s, e, t) {
    } else {
    }
  }

  lemma {:induction false} LiveAfter(s: System, e: Event, t: Turn) returns (call: Call)
    requires LanesInv(s) && StreamsInv(s) && Shape(s, e, t) && Enabled(s, e) && t.conn.inFlight.Some?
    ensures LiveLane(t.conn, s.lanes - Finished(e) + Count(t.lane), call)
  {
    var lanes := s.lanes - Finished(e) + Count(t.lane);
    if Starts(s, e, t) {
      call := t.lane.value;
    } else {
      call :| LiveLane(s.conn, s.lanes, call);
      if Proceeds(s, e, t) {
        assert Finished(e) == multiset{call};
        call := t.lane.value;
      } else {
        assert call !in Finished(e);
      }
    }
  }

  ghost predicate LanesHold(s: System, e: Event, t: Turn) {
    LanesKept(t.conn, s.lanes - Finished(e) + Count(t.lane),
              s.deadlines - (if e.Deadline? then {e.generation} else {})
              + (if t.deadline.Some? then {t.deadline.value} else {}),
              s.nextStream + (if e.Connected? && e.ok then 1 else 0))
  }

  lemma {:induction false} LanesAfterRest(s: System, e: Event, t: Turn)
    requires LanesInv(s) && StreamsInv(s) && Shape(s, e, t) && Enabled(s, e) && Rests(s, e, t)
    requires t.conn.generation <= USIZE_MAX
    ensures LanesHold(s, e, t)
  {
    if t.conn.inFlight.Some? {
      var call := LiveAfter(s, e, t);
    }
  }

  lemma {:induction false} LanesAfterStart(s: System, e: Event, t: Turn)
    requires LanesInv(s) && StreamsInv(s) && Shape(s, e, t) && Enabled(s, e) && Starts(s, e, t)
    requires t.conn.generation <= USIZE_MAX
    ensures LanesHold(s, e, t)
  {
    if t.conn.inFlight.Some? {
      var call := LiveAfter(s, e, t);
    }
  }

  lemma {:induction false} LanesAfterProgress(s: System, e: Event, t: Turn)
    requires LanesInv(s) && StreamsInv(s) && Shape(s, e, t) && Enabled(s, e) && Proceeds(s, e, t)
    requires t.conn.generation <= USIZE_MAX
    ensures LanesHold(s, e, t)
  {
    if t.conn.inFlight.Some? {
      var call := LiveAfter(s, e, t);
    }
  }

  lemma {:induction false} LanesAfterEnd(s: System, e: Event, t: Turn)
    requires LanesInv(s) && StreamsInv(s) && Shape(s, e, t) && Enabled(s, e) && Ends(s, e, t)
    requires t.conn.generation <= USIZE_MAX
    ensures LanesHold(s, e, t)
  {
    if e.ReadDone? {
      LiveIs(s, e.call);
    }
  }

  lemma {:induction false} LanesAfter(s: System, e: Event, t: Turn)
    requires LanesInv(s) && StreamsInv(s) && Shape(s, e, t) && Enabled(s, e)
    requires t.conn.generation <= USIZE_MAX
    ensures LanesHold(s, e, t)
  {
    hide LanesInv, StreamsInv, Enabled, Rests, Starts, Proceeds, Ends, LanesHold;
    if Rests(s, e, t) {
      LanesAfterRest(s, e, t);
    } else if Starts(s, e, t) {
      LanesAfterStart(s, e, t);
    } else if Proceeds(s, e, t) {
      LanesAfterProgress(s, e, t);
    } else {
      LanesAfterEnd(s, e, t);
    }
  }

  /** One turn keeps the lanes, the streams and the replies. */
  lemma {:induction false} ProtocolStep(s: System, e: Event, t: Turn)
    requires LanesInv(s) && StreamsInv(s) && RepliesInv(s) && Shape(s, e, t) && Enabled(s, e)
    requires t.conn.generation <= USIZE_MAX
    ensures var s' := Apply(s, e, t); LanesInv(s') && StreamsInv(s') && RepliesInv(s')
  {
    hide LanesKept, StreamsKept, RepliesKept, Shape, Enabled;
    hide FedAfter, Incoming, Finished, Count, Answered, RequestOf;
    LanesAfter(s, e, t);
    StreamsAfter(s, e, t);
    RepliesAfter(s, e, t);
  }

  // --- Writing the request ----------------------------------------------------------------

  lemma {:induction false} ReadLanes(config: Config, c: Connection, generation: nat, data: Option<seq<Byte>>)
    requires config.maxBody <= USIZE_MAX && DecoderValid(c)
    ensures var t := HandleRead(config, c, generation, data);
            t.Some? && t.value.lane.Some? ==> t.value.lane.value.Read?
  {
    hide FeedAll;
  }

  /** What the call of a turn that starts or goes on carries. */
  ghost predicate Carries(s: System, e: Event, t: Turn) {
    match e
    case Ask(encoded) =>
      t.lane.Some? ==>
        && encoded.Some?
        && match t.lane.value {
             case Connect(_) => t.conn.connectBytes == encoded
             case Write(_, _, bytes) => bytes == encoded.value
             case Read(_, _) => false
           }
    case Connected(_, _) => t.lane.Some? ==> t.lane.value.Write? && s.conn.connectBytes == Some(t.lane.value.bytes)
    case Wrote(call, written) =>
      call.Write? && t.lane.Some? ==>
        && written.Some?
        && if written.value >= |call.bytes| then t.lane.value.Read?
           else t.lane.value.Write? && t.lane.value.bytes == call.bytes[written.value..]
    case _ => t.lane.Some? ==> t.lane.value.Read?
  }

  lemma {:induction false} TurnCarries(config: Config, s: System, e: Event, t: Turn)
    requires Inv(config, s) && Enabled(s, e) && TurnOf(config, s, e) == Some(t)
    ensures Carries(s, e, t)
  {
    hide LanesKept, StreamsKept, RepliesKept, WritesKept, FramingInv, ResponseInv, PrefixStable, HandleRead;
    if e.ReadDone? {
      ReadLanes(config, s.conn, e.call.generation, e.data);
    }
  }

  /** After a turn that goes on, its own call is the only one of the current generation. */
  lemma {:induction false} OnlyNewLane(s: System, e: Event, t: Turn, live: Call)
    requires Proceeds(s, e, t) && LiveLane(s.conn, s.lanes, live) && Finished(e) == multiset{live}
    ensures forall call :: call in s.lanes - Finished(e) + Count(t.lane) && IsCurrent(t.conn, call.generation) ==>
              call == t.lane.value
  {
    forall call | call in s.lanes - Finished(e) + Count(t.lane) && IsCurrent(t.conn, call.generation)
      ensures call == t.lane.value
    {
      assert call == live ==> s.lanes[call] == 1;
    }
  }

  lemma {:induction false} WrittenAndLeft(sent: seq<Byte>, bytes: seq<Byte>, k: nat)
    requires k <= |bytes|
    ensures sent + bytes[..k] + bytes[k..] == sent + bytes
    ensures k == |bytes| ==> sent + bytes[..k] == sent + bytes
  {
    assert bytes[..k] + bytes[k..] == bytes;
    assert k == |bytes| ==> bytes[..k] == bytes;
  }

  lemma {:induction false} WritesAfterProgress(s: System, e: Event, t: Turn, live: Call)
    requires WritesInv(s) && Enabled(s, e) && Carries(s, e, t) && !Stale(s, e)
    requires Proceeds(s, e, t) && !e.Ask? && !e.Maintain? && !e.Deadline?
    requires LiveLane(s.conn, s.lanes, live) && Finished(e) == multiset{live}
    ensures WritesKept(t.conn, s.lanes - Finished(e) + Count(t.lane), s.asked, s.sent + Outgoing(s, e))
  {
    OnlyNewLane(s, e, t, live);
    assert IsCurrent(s.conn, live.generation) && live in s.lanes;
    hide LiveLane, Finished, Count;
    assert s.sent + [] == s.sent;
    if e.Wrote? && e.written.Some? {
      WrittenAndLeft(s.sent, live.bytes, e.written.value);
    }
  }

  lemma {:induction false} WritesAfterRest(s: System, e: Event, t: Turn)
    requires WritesInv(s) && Rests(s, e, t) && (e.Ask? || e.Maintain? || Stale(s, e))
    ensures WritesKept(t.conn, s.lanes - Finished(e) + Count(t.lane), s.asked, s.sent + Outgoing(s, e))
  {
    assert s.sent + Outgoing(s, e) == s.sent;
    assert forall call :: call in s.lanes - Finished(e) + Count(t.lane) ==> call in s.lanes;
  }

  lemma {:induction false} WritesAfterStart(s: System, e: Event, t: Turn)
    requires LanesInv(s) && Starts(s, e, t) && Carries(s, e, t)
    ensures Began(e, t) && WritesKept(t.conn, s.lanes - Finished(e) + Count(t.lane), e.encoded.value, [])
  {
    var lanes := s.lanes - Finished(e) + Count(t.lane);
    assert forall call :: call in lanes && IsCurrent(t.conn, call.generation) ==> call == t.lane.value;
  }

  lemma {:induction false} WritesAfter(s: System, e: Event, t: Turn)
    requires LanesInv(s) && WritesInv(s) && Enabled(s, e) && Shape(s, e, t) && Carries(s, e, t)
    ensures WritesInv(Apply(s, e, t))
  {
    if Rests(s, e, t) && (e.Ask? || e.Maintain? || Stale(s, e)) {
      WritesAfterRest(s, e, t);
    } else if Starts(s, e, t) {
      WritesAfterStart(s, e, t);
    } else if Proceeds(s, e, t) {
      hide WritesKept, LanesKept, Carries, Count;
      var live := if e.Connected? then Connect(e.generation) else e.call;
      LiveIs(s, live);
      WritesAfterProgress(s, e, t, live);
    }
  }

  // --- Framing ----------------------------------------------------------------------------

  /** What a turn does to the response being read. */
  ghost predicate ReadsOn(config: Config, s: System, e: Event, t: Turn) {
    var incoming := Incoming(s, e);
    && (s.conn.inFlight.Some? && t.conn.inFlight.Some? ==>
          t.conn.inFlight.value.readBuf == s.conn.inFlight.value.readBuf + incoming)
    && (Ends(s, e, t) && t.conn.transport.Some? ==>
          var m := s.conn.inFlight.value.readBuf + incoming;
          && IsMessage(config.parse, m)
          && t.reply.value.answer == Response(m[config.parse(m).headLen..]))
  }

  /** A delivery on the live transport adds its message and its body. */
  lemma {:induction false} DeliveryAppends(config: Config, s: System, e: Event, t: Turn)
    requires Ends(s, e, t) && t.conn.transport.Some? && ReadsOn(config, s, e, t)
    ensures var s', m := Apply(s, e, t), s.conn.inFlight.value.readBuf + Incoming(s, e);
            && s'.conn == t.conn && Unframed(t.conn) == []
            && s'.frames == s.frames + [m] && s'.got == s.got + Incoming(s, e)
            && s'.bodies == s.bodies + [m[config.parse(m).headLen..]]
  {
    hide FedAfter, Finished, Count, Answered, Outgoing, Incoming, IsMessage;
  }

  lemma {:induction false} FramingAfterDelivery(config: Config, s: System, e: Event, t: Turn)
    requires FramingInv(config, s) && Ends(s, e, t) && t.conn.transport.Some? && ReadsOn(config, s, e, t)
    ensures FramingInv(config, Apply(s, e, t))
  {
    DeliveryAppends(config, s, e, t);
    hide Apply, Incoming, IsMessage, Concat, Unframed;
    var incoming := Incoming(s, e);
    var m := s.conn.inFlight.value.readBuf + incoming;
    ConcatSnoc(s.frames, m);
    UnframedIs(s.conn);
    assert Concat(s.frames) + s.conn.inFlight.value.readBuf + incoming == Concat(s.frames) + m;
    assert Concat(s.frames + [m]) + [] == Concat(s.frames + [m]);
  }

  lemma {:induction false} UnframedIs(c: Connection)
    ensures c.inFlight.Some? ==> Unframed(c) == c.inFlight.value.readBuf
  {
  }

  /** Without a delivery on the live transport the unfinished response grows by what came in. */
  lemma {:induction false} UnframedAfter(config: Config, s: System, e: Event, t: Turn)
    requires Shape(s, e, t) && ReadsOn(config, s, e, t) && !(Ends(s, e, t) && t.conn.transport.Some?)
    requires Stale(s, e) || e.Ask? || e.Maintain? ==> Incoming(s, e) == []
    ensures t.conn.inFlight.Some? || t.conn.transport.Some? ==>
              Unframed(t.conn) == Unframed(s.conn) + Incoming(s, e)
    ensures s.conn.transport.None? ==> Incoming(s, e) == [] || !e.ReadDone? || s.conn.inFlight.Some?
  {
    hide IsMessage;
    assert Unframed(s.conn) + [] == Unframed(s.conn);
  }

  /** ... and no frame is added. */
  lemma {:induction false} NoFrameAdded(s: System, e: Event, t: Turn)
    requires Shape(s, e, t) && !(Ends(s, e, t) && t.conn.transport.Some?)
    ensures var s' := Apply(s, e, t);
            s'.conn == t.conn &&
            if t.conn.transport.Some? && t.conn.transport == s.conn.transport
            then s'.frames == s.frames && s'.bodies == s.bodies && s'.got == s.got + Incoming(s, e)
            else s'.frames == [] && s'.bodies == [] && s'.got == []
  {
    hide FedAfter, Finished, Count, Answered, Outgoing, Incoming;
  }

  lemma {:induction false} NoneLeft(config: Config, s: System, e: Event, t: Turn)
    requires LanesInv(s) && FramingInv(config, s) && Shape(s, e, t) && ReadsOn(config, s, e, t)
    requires Stale(s, e) || e.Ask? || e.Maintain? ==> Incoming(s, e) == []
    requires !(t.conn.transport.Some? && t.conn.transport == s.conn.transport)
    ensures Unframed(t.conn) == []
  {
    hide LanesKept, IsMessage, Concat;
  }

  lemma {:induction false} FramingAfter(config: Config, s: System, e: Event, t: Turn)
    requires LanesInv(s) && FramingInv(config, s) && Shape(s, e, t) && ReadsOn(config, s, e, t)
    requires Stale(s, e) || e.Ask? || e.Maintain? ==> Incoming(s, e) == []
    ensures FramingInv(config, Apply(s, e, t))
  {
    hide Shape, Ends, ReadsOn, Apply, LanesInv, Incoming, Stale, IsMessage;
    if Ends(s, e, t) && t.conn.transport.Some? {
      FramingAfterDelivery(config, s, e, t);
    } else {
      NoFrameAdded(s, e, t);
      UnframedAfter(config, s, e, t);
      if t.conn.transport.Some? && t.conn.transport == s.conn.transport {
        assert Concat(s.frames) + (Unframed(s.conn) + Incoming(s, e)) == s.got + Incoming(s, e);
      } else {
        NoneLeft(config, s, e, t);
        assert Concat<Byte>([]) == [];
      }
    }
  }

  /** The head that was parsed stays the head of the longer read buffer. */
  lemma {:induction false} HeadAfterRead(config: Config, f: InFlight, fed: seq<seq<Byte>>, data: seq<Byte>)
    requires config.maxBody <= USIZE_MAX && PrefixStable(config.parse)
    requires ResponseKept(config, f, fed) && f.head.Some?
    ensures config.parse(f.readBuf + data) == HeadComplete(f.head.value, f.headLen)
    ensures 0 < f.headLen <= |f.readBuf|
  {
    Stable(config.parse, f.readBuf, data);
  }

  /** A body turn keeps the buffer; one that keeps the transport answers with a whole message. */
  lemma {:induction false} BodyAnswers(config: Config, c: Connection, t: Turn)
    requires c.inFlight.Some? && DecoderValid(c) && HandleBody(c) == Some(t)
    requires var f := c.inFlight.value;
             && f.head.Some? && config.parse(f.readBuf) == HeadComplete(f.head.value, f.headLen)
             && 0 < f.headLen <= |f.readBuf|
    ensures var f := c.inFlight.value;
            && (t.conn.inFlight.Some? ==> t.conn.inFlight.value.readBuf == f.readBuf)
            && (t.conn.inFlight.None? && t.conn.transport.Some? ==>
                  && IsMessage(config.parse, f.readBuf)
                  && t.reply.Some? && t.reply.value.answer == Response(f.readBuf[f.headLen..]))
  {
    hide FeedAll;
  }

  lemma {:induction false} BytesAnswer(config: Config, c: Connection, fed: seq<seq<Byte>>, data: seq<Byte>, t: Turn)
    requires config.maxBody <= USIZE_MAX && PrefixStable(config.parse) && c.inFlight.Some? && DecoderValid(c)
    requires ResponseKept(config, c.inFlight.value, fed) && HandleBytesRead(config, c, data) == Some(t)
    ensures var m := c.inFlight.value.readBuf + data;
            && (t.conn.inFlight.Some? ==> t.conn.inFlight.value.readBuf == m)
            && (t.conn.inFlight.None? && t.conn.transport.Some? ==>
                  && IsMessage(config.parse, m)
                  && t.reply.Some? && t.reply.value.answer == Response(m[config.parse(m).headLen..]))
  {
    hide FeedAll, FeedParts, Concat, PrefixStable, HandleBody, DecodingKept, IsMessage;
    var f := c.inFlight.value;
    var f1 := f.(readBuf := f.readBuf + data);
    if data != [] {
      if f.head.Some? {
        HeadAfterRead(config, f, fed, data);
        BodyAnswers(config, c.(inFlight := Some(f1)), t);
      } else if config.parse(f1.readBuf).HeadComplete? {
        Stable(config.parse, f1.readBuf, []);
        var h, n := config.parse(f1.readBuf).head, config.parse(f1.readBuf).headLen;
        var decoder := if h.chunked then Some(New(config.maxBody)) else None;
        BodyAnswers(config, c.(inFlight := Some(f1.(head := Some(h), headLen := n, decoder := decoder))), t);
      }
    }
  }

  lemma {:induction false} ReadTurnReadsOn(config: Config, s: System, e: Event, t: Turn)
    requires Inv(config, s) && Enabled(s, e) && e.ReadDone? && !Stale(s, e) && e.data.Some?
    requires HandleBytesRead(config, s.conn, e.data.value) == Some(t)
    ensures ReadsOn(config, s, e, t)
  {
    hide FeedAll, FeedParts, Concat, LanesKept, StreamsKept, RepliesKept, WritesKept, FramingInv, PrefixStable;
    hide HandleBytesRead, ResponseKept, IsMessage;
    BytesAnswer(config, s.conn, s.fed, e.data.value, t);
  }

  lemma {:induction false} TurnReadsOn(config: Config, s: System, e: Event, t: Turn)
    requires Inv(config, s) && Enabled(s, e) && TurnOf(config, s, e) == Some(t)
    ensures ReadsOn(config, s, e, t)
    ensures Stale(s, e) || e.Ask? || e.Maintain? ==> Incoming(s, e) == []
  {
    hide LanesKept, StreamsKept, RepliesKept, WritesKept, FramingInv, ResponseInv, PrefixStable, HandleBytesRead, FirstMessage;
    if e.ReadDone? && !Stale(s, e) && e.data.Some? {
      ReadTurnReadsOn(config, s, e, t);
    }
  }

  // --- The response being read ------------------------------------------------------------

  lemma {:induction false} FirstChunkedRead(config: Config, raw: seq<Byte>)
    requires config.maxBody <= USIZE_MAX
    ensures FeedParts(New(config.maxBody), [], [raw]) == FeedAll(New(config.maxBody), raw)
    ensures Concat([raw]) == raw
  {
    FeedOnePart(New(config.maxBody), [], raw);
    assert [] + raw == raw;
    assert Concat([raw]) == raw + Concat<Byte>([]);
  }

  /** The offset caller feeds exactly the tail the decoder left, then the new bytes. */
  lemma {:induction false} ResumedRead(config: Config, f: InFlight, fed: seq<seq<Byte>>, data: seq<Byte>)
    requires config.maxBody <= USIZE_MAX && f.decoder.Some? && DecodingKept(config, f, fed)
    ensures var raw := (f.readBuf + data)[f.headLen + f.rawConsumed..];
            var after := FeedParts(New(config.maxBody), [], fed + [data]);
            && f.headLen + f.rawConsumed <= |f.readBuf|
            && f.decoder.value.Valid()
            && after == After(f.decodedBody, f.rawConsumed, FeedAll(f.decoder.value, raw))
            && Concat(fed + [data]) == (f.readBuf + data)[f.headLen..]
            && after.consumed <= |Concat(fed + [data])|
  {
    hide FeedAll, FeedParts;
    var r := ClientBody.OneMoreRead(config.maxBody, fed, data);
    assert (f.readBuf + data)[f.headLen..] == f.readBuf[f.headLen..] + data;
    assert (f.readBuf + data)[f.headLen + f.rawConsumed..] == f.readBuf[f.headLen..][f.rawConsumed..] + data;
  }

  /** A chunked turn that asks for more leaves the decoder where feeding the reads leaves it. */
  lemma {:induction false} ChunkedTurn(config: Config, c: Connection, fed: seq<seq<Byte>>, t: Turn)
    requires config.maxBody <= USIZE_MAX && DecoderValid(c) && c.inFlight.Some? && c.inFlight.value.decoder.Some?
    requires HandleChunked(c) == Some(t) && t.conn.inFlight.Some?
    requires var f := c.inFlight.value;
             && f.headLen + f.rawConsumed <= |f.readBuf| <= USIZE_MAX
             && Concat(fed) == f.readBuf[f.headLen..]
             && var r := FeedAll(f.decoder.value, f.readBuf[f.headLen + f.rawConsumed..]);
                && FeedParts(New(config.maxBody), [], fed) == After(f.decodedBody, f.rawConsumed, r)
    ensures var g := t.conn.inFlight.value;
            && g.decoder.Some? && DecodingKept(config, g, fed) && g.decoder.value.Valid()
            && g.readBuf == c.inFlight.value.readBuf && g.head == c.inFlight.value.head
            && g.headLen == c.inFlight.value.headLen
  {
    hide FeedAll, FeedParts, Concat;
  }

  /** The part of a turn after the bytes are in the buffer and the head, if any, is known. */
  lemma {:induction false} BodyTurn(config: Config, c: Connection, fed: seq<seq<Byte>>, t: Turn)
    requires config.maxBody <= USIZE_MAX && DecoderValid(c) && c.inFlight.Some?
    requires HandleBody(c) == Some(t) && t.conn.inFlight.Some?
    requires var f := c.inFlight.value;
             && f.head.Some? && config.parse(f.readBuf) == HeadComplete(f.head.value, f.headLen)
             && f.headLen + f.rawConsumed <= |f.readBuf| <= USIZE_MAX
             && (f.head.value.chunked <==> f.decoder.Some?)
             && (if f.head.value.chunked then
                   && Concat(fed) == f.readBuf[f.headLen..]
                   && var r := FeedAll(f.decoder.value, f.readBuf[f.headLen + f.rawConsumed..]);
                      FeedParts(New(config.maxBody), [], fed) == After(f.decodedBody, f.rawConsumed, r)
                 else fed == [] && f.rawConsumed == 0)
    ensures ResponseKept(config, t.conn.inFlight.value, fed) && DecoderValid(t.conn)
  {
    hide FeedAll, FeedParts, Concat, DecodingKept;
    if c.inFlight.value.head.value.chunked {
      ChunkedTurn(config, c, fed, t);
    }
  }

  lemma {:induction false} ReadStep(config: Config, c: Connection, fed: seq<seq<Byte>>, data: seq<Byte>, t: Turn, fed': seq<seq<Byte>>)
    requires config.maxBody <= USIZE_MAX && PrefixStable(config.parse) && DecoderValid(c) && c.inFlight.Some?
    requires ResponseKept(config, c.inFlight.value, fed)
    requires |c.inFlight.value.readBuf| + |data| <= USIZE_MAX
    requires HandleBytesRead(config, c, data) == Some(t) && t.conn.inFlight.Some?
    requires var g := t.conn.inFlight.value;
             fed' == if g.decoder.None? then []
                     else if c.inFlight.value.decoder.Some? then fed + [data]
                     else [g.readBuf[Min(g.headLen, |g.readBuf|)..]]
    ensures ResponseKept(config, t.conn.inFlight.value, fed') && DecoderValid(t.conn)
  {
    hide FeedAll, FeedParts, Concat, PrefixStable, DecodingKept, HandleBody;
    var f := c.inFlight.value;
    var f1 := f.(readBuf := f.readBuf + data);
    if f.head.Some? {
      HeadAfterRead(config, f, fed, data);
      HandleBodyKeeps(c.(inFlight := Some(f1)));
      if f.decoder.Some? {
        ResumedRead(config, f, fed, data);
      }
      BodyTurn(config, c.(inFlight := Some(f1)), fed', t);
    } else if config.parse(f1.readBuf).HeadComplete? {
      var h, n := config.parse(f1.readBuf).head, config.parse(f1.readBuf).headLen;
      Stable(config.parse, f1.readBuf, []);
      var decoder := if h.chunked then Some(New(config.maxBody)) else None;
      var c2 := c.(inFlight := Some(f1.(head := Some(h), headLen := n, decoder := decoder)));
      HandleBodyKeeps(c2);
      if h.chunked {
        FirstChunkedRead(config, f1.readBuf[n..]);
        AfterNothing(FeedAll(New(config.maxBody), f1.readBuf[n..]));
      }
      BodyTurn(config, c2, fed', t);
    }
  }

  /** The body part of a turn does not touch the buffer, the head, or whether there is a decoder. */
  lemma {:induction false} HandleBodyKeeps(c: Connection)
    requires c.inFlight.Some? && DecoderValid(c)
    ensures HandleBody(c).Some? && HandleBody(c).value.conn.inFlight.Some? ==>
              var f, g := c.inFlight.value, HandleBody(c).value.conn.inFlight.value;
              g.readBuf == f.readBuf && g.headLen == f.headLen && (g.decoder.Some? <==> f.decoder.Some?)
  {
    hide FeedAll;
  }

  lemma {:induction false} ResponseStep(config: Config, s: System, e: Event, t: Turn)
    requires Inv(config, s) && Enabled(s, e) && TurnOf(config, s, e) == Some(t)
    ensures ResponseInv(config, Apply(s, e, t)) && DecoderValid(t.conn)
  {
    hide LanesKept, StreamsKept, RepliesKept, WritesKept, FramingInv, PrefixStable, HandleBytesRead, DecodingKept;
    var fed := FedAfter(s, t.conn, Incoming(s, e));
    assert t.conn.inFlight.Some? ==> ResponseKept(config, t.conn.inFlight.value, fed) && DecoderValid(t.conn) by {
      hide Apply;
      if e.ReadDone? && !Stale(s, e) && e.data.Some? && t.conn.inFlight.Some? {
        assert e.data.value != [] by { hide *; EofEnds(config, s.conn); }
        ReadStep(config, s.conn, s.fed, e.data.value, t, fed);
      } else if e.Ask? {
        NothingParsed(config.parse);
        if s.conn.inFlight.Some? {
          WritesDoNotMatter(config, s.conn.inFlight.value, s.fed, s.conn.inFlight.value.pendingWrite);
        }
      } else if s.conn.inFlight.Some? && t.conn.inFlight.Some? {
        WritesDoNotMatter(config, s.conn.inFlight.value, s.fed, t.conn.inFlight.value.pendingWrite);
      }
    }
  }

  lemma {:induction false} NothingParsed(parse: Parser)
    requires PrefixStable(parse)
    ensures !parse([]).HeadComplete?
  {
  }

  lemma {:induction false} WritesDoNotMatter(config: Config, f: InFlight, fed: seq<seq<Byte>>, bytes: seq<Byte>)
    requires config.maxBody <= USIZE_MAX && ResponseKept(config, f, fed)
    ensures ResponseKept(config, f.(pendingWrite := bytes), fed)
  {
  }

  lemma {:induction false} EofEnds(config: Config, c: Connection)
    requires config.maxBody <= USIZE_MAX && c.inFlight.Some? && DecoderValid(c)
    ensures HandleBytesRead(config, c, []).Some? ==> HandleBytesRead(config, c, []).value.conn.inFlight.None?
  {
  }

  // --- Theorems ---------------------------------------------------------------------------

  /**
    One event in any state of a run: the only `expect` that can fire is the request counter's,
    and every other turn keeps the invariant.
   */
  lemma {:induction false} StepKeepsInv(config: Config, s: System, e: Event)
    requires Inv(config, s) && Enabled(s, e)
    ensures TurnOf(config, s, e).None? ==> e.Ask? && s.conn.generation == USIZE_MAX
    ensures TurnOf(config, s, e).Some? ==>
              var s' := Apply(s, e, TurnOf(config, s, e).value);
              Inv(config, s') && s'.conn.generation <= s.conn.generation + 1
  {
    hide FeedAll, FeedParts, LanesKept, StreamsKept, RepliesKept, WritesKept, FramingInv, ResponseInv, PrefixStable;
    hide Carries, Shape;
    TurnShape(config, s, e);
    var o := TurnOf(config, s, e);
    if o.Some? {
      var t := o.value;
      GenerationStep(config, s, e);
      ProtocolStep(s, e, t);
      TurnCarries(config, s, e, t);
      WritesAfter(s, e, t);
      TurnReadsOn(config, s, e, t);
      FramingAfter(config, s, e, t);
      ResponseStep(config, s, e, t);
    }
  }

  lemma {:induction false} GenerationStep(config: Config, s: System, e: Event)
    requires Inv(config, s) && Enabled(s, e)
    ensures TurnOf(config, s, e).Some? ==>
              var t := TurnOf(config, s, e).value;
              s.conn.generation <= t.conn.generation <= Min(s.conn.generation + 1, USIZE_MAX)
  {
    TurnShape(config, s, e);
    hide FeedAll, FeedParts, HandleRead, HandleConnected, HandleWrote, HandleDeadline, StreamsKept, RepliesKept, WritesKept;
    hide FramingInv, ResponseInv, PrefixStable;
  }

  lemma {:induction false} StaleTurn(config: Config, s: System, e: Event)
    requires StepReady(config, s, e) && Stale(s, e)
    ensures TurnOf(config, s, e)
         == Some(Turn(s.conn, close := if e.Connected? && e.ok then Some(s.nextStream) else None))
  {
    hide HandleBytesRead;
  }

  /** The state after the enabled events of a list; `None` when an `expect` fired. */
  function RunOf(config: Config, events: seq<Event>): (r: Option<System>)
    requires config.maxBody <= USIZE_MAX && PrefixStable(config.parse)
    ensures r.Some? ==> Inv(config, r.value) && r.value.conn.generation <= |events|
    ensures |events| <= USIZE_MAX ==> r.Some?
    decreases |events|
  {
    if events == [] then
      StartInv(config);
      Some(START)
    else
      var last := |events| - 1;
      match RunOf(config, events[..last])
      case None => None
      case Some(s) =>
        if !Enabled(s, events[last]) then Some(s)
        else
          StepKeepsInv(config, s, events[last]);
          match TurnOf(config, s, events[last])
          case None => None
          case Some(t) => Some(Apply(s, events[last], t))
  }

  lemma {:induction false} RunSnoc(config: Config, events: seq<Event>, e: Event)
    requires config.maxBody <= USIZE_MAX && PrefixStable(config.parse) && RunOf(config, events).Some?
    requires Enabled(RunOf(config, events).value, e)
    ensures var s := RunOf(config, events).value;
            && Inv(config, s) && StepReady(config, s, e)
            && RunOf(config, events + [e])
            == match TurnOf(config, s, e) {
                 case None => None
                 case Some(t) => Some(Apply(s, e, t))
               }
  {
    assert Inv(config, RunOf(config, events).value);
    hide Inv, TurnOf, Apply, Enabled, PrefixStable;
    assert (events + [e])[..|events|] == events;
  }

  /** What a stale completion leaves in place: everything but its own call and its own stream. */
  lemma {:induction false} StaleEffect(config: Config, s: System, e: Event, t: Turn)
    requires Inv(config, s) && Stale(s, e)
    requires t == Turn(s.conn, close := if e.Connected? && e.ok then Some(s.nextStream) else None)
    ensures var s' := Apply(s, e, t);
            && s'.conn == s.conn && s'.replied == s.replied && s'.lanes == s.lanes - Finished(e)
            && s'.closed == s.closed + Count(t.close)
            && s'.got == s.got && s'.frames == s.frames && s'.bodies == s.bodies
            && s'.asked == s.asked && s'.sent == s.sent
  {
    hide LanesKept, StreamsKept, RepliesKept, WritesKept, ResponseInv, PrefixStable, FedAfter, Finished, DecoderValid;
    assert s.got + [] == s.got && s.sent + [] == s.sent && Concat<Byte>([]) + [] == [];
  }

  /**
    In every reachable state a completion that belongs to another request changes nothing: not
    the connection, not what was answered, read, delivered or written; a stream it brings is
    closed at once.
   */
  lemma {:induction false} StaleIsInert(config: Config, events: seq<Event>, e: Event)
    requires config.maxBody <= USIZE_MAX && PrefixStable(config.parse) && RunOf(config, events).Some?
    requires Enabled(RunOf(config, events).value, e) && Stale(RunOf(config, events).value, e)
    ensures RunOf(config, events + [e]).Some?
    ensures var s, s' := RunOf(config, events).value, RunOf(config, events + [e]).value;
            && s'.conn == s.conn && s'.replied == s.replied && s'.lanes == s.lanes - Finished(e)
            && s'.closed == s.closed + (if e.Connected? && e.ok then multiset{s.nextStream} else multiset{})
            && s'.got == s.got && s'.frames == s.frames && s'.bodies == s.bodies
            && s'.asked == s.asked && s'.sent == s.sent
  {
    hide RunOf, TurnOf, Inv, Apply, Stale, Enabled, PrefixStable, Finished;
    RunSnoc(config, events, e);
    var s := RunOf(config, events).value;
    StaleTurn(config, s, e);
    StaleEffect(config, s, e, TurnOf(config, s, e).value);
  }

  /** An outstanding read or write on the live transport. */
  predicate OnTransport(s: System, call: Call) {
    call in s.lanes && !call.Connect? && s.conn.transport == Some(call.stream)
  }

  /**
    Safety of every run of at most `u64::MAX` events, in whatever order the calls complete: no
    `expect` fires; the live transport carries at most one outstanding call, and that of the
    request in flight; each stream is the transport or was closed once; each request was
    answered once or is in flight.
   */
  lemma {:induction false} EveryRunIsSafe(config: Config, events: seq<Event>)
    requires config.maxBody <= USIZE_MAX && PrefixStable(config.parse) && |events| <= USIZE_MAX
    ensures RunOf(config, events).Some?
    ensures var s := RunOf(config, events).value;
            && (forall a, b :: OnTransport(s, a) && OnTransport(s, b) ==>
                  a == b && s.lanes[a] == 1 && IsCurrent(s.conn, a.generation))
            && (forall x: Stream :: x < s.nextStream ==> s.closed[x] + Holds(s.conn.transport, x) == 1)
            && (forall x: nat :: x < s.nextRequest ==> s.replied[x] + Holds(RequestOf(s.conn), x) == 1)
  {
    hide RunOf, WritesKept, FramingInv, ResponseInv, PrefixStable;
    var s := RunOf(config, events).value;
    assert Inv(config, s);
    forall a, b | OnTransport(s, a) && OnTransport(s, b)
      ensures a == b && s.lanes[a] == 1 && IsCurrent(s.conn, a.generation)
    {
      LiveIs(s, a);
    }
  }

  /**
    Over every run, of the request in flight: what was written and what the outstanding write
    carries are together the encoded request, and nothing is read before all of it is written.
   */
  lemma {:induction false} RequestGoesOutWhole(config: Config, events: seq<Event>)
    requires config.maxBody <= USIZE_MAX && PrefixStable(config.parse) && RunOf(config, events).Some?
    ensures var s := RunOf(config, events).value;
            forall call :: call in s.lanes && IsCurrent(s.conn, call.generation) ==>
              match call
              case Connect(_) => s.conn.connectBytes == Some(s.asked) && s.sent == []
              case Write(_, _, bytes) => s.sent + bytes == s.asked
              case Read(_, _) => s.sent == s.asked
  {
    hide RunOf;
    var s := RunOf(config, events).value;
    assert Inv(config, s);
  }

  /**
    Framing over every run: the bytes read from the live transport are its delivered responses
    followed by the unfinished one, the delivered responses are the messages the reference
    reading finds there, and each delivered body is its message without the head.
   */
  lemma {:induction false} FramingStaysInSync(config: Config, events: seq<Event>)
    requires config.maxBody <= USIZE_MAX && PrefixStable(config.parse) && RunOf(config, events).Some?
    ensures var s := RunOf(config, events).value;
            && s.got == Concat(s.frames) + Unframed(s.conn)
            && Messages(config.parse, s.got) == s.frames + Messages(config.parse, Unframed(s.conn))
            && (s.conn.inFlight.None? ==> s.got == Concat(s.frames) && Messages(config.parse, s.got) == s.frames)
            && (forall i :: 0 <= i < |s.frames| ==>
                  s.bodies[i] == s.frames[i][config.parse(s.frames[i]).headLen..])
  {
    var s := RunOf(config, events).value;
    MessagesOfConcat(config.parse, s.frames, Unframed(s.conn));
    assert !config.parse([]).HeadComplete?;
  }

  // --- Reads and the one-shot verdict -----------------------------------------------------

  /** A delivered response that gives the transport up: chunked, `close`, or bytes beyond it. */
  predicate Retires(parse: Parser, wire: seq<Byte>) {
    parse(wire).HeadComplete? && (parse(wire).head.chunked || parse(wire).head.close || !IsMessage(parse, wire))
  }

  /** The turn does what the one-shot reading of the response's bytes so far says. */
  ghost predicate Follows(config: Config, wire: seq<Byte>, ended: bool, c: Connection, t: Option<Turn>)
    requires config.maxBody <= USIZE_MAX
  {
    && c.inFlight.Some? && c.transport.Some? && t.Some?
    && var f, turn := c.inFlight.value, t.value;
       match ClientBody.Verdict(config.parse, config.maxBody, wire, ended)
       case Deliver(body) =>
         var retire := ended || Retires(config.parse, wire);
         && turn.reply == Some(Reply(f.request, Response(body), retire)) && turn.conn.inFlight.None?
         && turn.conn.transport == if retire then None else c.transport
       case Fail =>
         && turn.reply.Some? && turn.reply.value.request == f.request && turn.reply.value.answer.Failure?
         && turn.reply.value.mustRetire && turn.conn.inFlight.None? && turn.conn.transport.None?
       case ReadMore =>
         && turn.reply.None? && turn.conn.transport == c.transport
         && turn.lane == Some(Read(c.transport.value, f.generation))
  }

  lemma {:induction false} LengthFollows(config: Config, c: Connection)
    requires config.maxBody <= USIZE_MAX && DecoderValid(c) && c.inFlight.Some? && c.transport.Some?
    requires var f := c.inFlight.value;
             && f.head.Some? && config.parse(f.readBuf) == HeadComplete(f.head.value, f.headLen)
             && 0 < f.headLen <= |f.readBuf| && !f.head.value.chunked
    ensures Follows(config, c.inFlight.value.readBuf, false, c, HandleBody(c))
  {
    hide FeedAll;
  }

  lemma {:induction false} ChunkedFollows(config: Config, c: Connection, fed: seq<seq<Byte>>)
    requires config.maxBody <= USIZE_MAX && DecoderValid(c) && c.inFlight.Some? && c.transport.Some?
    requires var f := c.inFlight.value;
             && f.head.Some? && config.parse(f.readBuf) == HeadComplete(f.head.value, f.headLen)
             && f.headLen + f.rawConsumed <= |f.readBuf| <= USIZE_MAX
             && f.head.value.chunked && f.decoder.Some? && Concat(fed) == f.readBuf[f.headLen..]
             && var r := FeedAll(f.decoder.value, f.readBuf[f.headLen + f.rawConsumed..]);
                FeedParts(New(config.maxBody), [], fed) == After(f.decodedBody, f.rawConsumed, r)
    ensures ClientBody.CutSafe(config.parse, config.maxBody, c.inFlight.value.readBuf) ==>
              Follows(config, c.inFlight.value.readBuf, false, c, HandleBody(c))
  {
    hide FeedAll, FeedParts, Concat, ClientBody.Verdict, ClientBody.CutSafe;
    ClientBody.OneShot(config.parse, config.maxBody, c.inFlight.value.readBuf, c.inFlight.value.headLen, fed);
  }

  lemma {:induction false} EofFollows(config: Config, c: Connection, fed: seq<seq<Byte>>)
    requires config.maxBody <= USIZE_MAX && DecoderValid(c) && c.inFlight.Some? && c.transport.Some?
    requires ResponseKept(config, c.inFlight.value, fed)
    ensures ClientBody.CutSafe(config.parse, config.maxBody, c.inFlight.value.readBuf) ==>
              Follows(config, c.inFlight.value.readBuf, true, c, HandleBytesRead(config, c, []))
  {
    hide FeedAll, FeedParts, Concat, ClientBody.CutSafe, HandleBody;
    var f := c.inFlight.value;
    if f.head.Some? && f.head.value.chunked {
      ClientBody.OneShot(config.parse, config.maxBody, f.readBuf, f.headLen, fed);
    }
  }

  lemma {:induction false} DataFollows(config: Config, c: Connection, fed: seq<seq<Byte>>, data: seq<Byte>)
    requires config.maxBody <= USIZE_MAX && PrefixStable(config.parse) && DecoderValid(c)
    requires c.inFlight.Some? && c.transport.Some? && ResponseKept(config, c.inFlight.value, fed)
    requires data != [] && |c.inFlight.value.readBuf| + |data| <= USIZE_MAX
    ensures var wire := c.inFlight.value.readBuf + data;
            ClientBody.CutSafe(config.parse, config.maxBody, wire) ==>
              Follows(config, wire, false, c, HandleBytesRead(config, c, data))
  {
    hide FeedAll, FeedParts, Concat, PrefixStable, DecodingKept, HandleBody, ClientBody.CutSafe, Retires;
    var f := c.inFlight.value;
    var f1 := f.(readBuf := f.readBuf + data);
    if f.head.Some? {
      HeadAfterRead(config, f, fed, data);
      var c1 := c.(inFlight := Some(f1));
      if f.head.value.chunked {
        ResumedRead(config, f, fed, data);
        ChunkedFollows(config, c1, fed + [data]);
      } else {
        LengthFollows(config, c1);
      }
    } else if config.parse(f1.readBuf).HeadComplete? {
      var h, n := config.parse(f1.readBuf).head, config.parse(f1.readBuf).headLen;
      Stable(config.parse, f1.readBuf, []);
      var decoder := if h.chunked then Some(New(config.maxBody)) else None;
      var c2 := c.(inFlight := Some(f1.(head := Some(h), headLen := n, decoder := decoder)));
      if h.chunked {
        FirstChunkedRead(config, f1.readBuf[n..]);
        AfterNothing(FeedAll(New(config.maxBody), f1.readBuf[n..]));
        ChunkedFollows(config, c2, [f1.readBuf[n..]]);
      } else {
        LengthFollows(config, c2);
      }
    }
  }

  /**
    Every read of the request in flight, in every reachable state: when the framing is cut-safe,
    the turn delivers, fails or reads on exactly as the one-shot reading of the response's bytes
    says, and gives the transport up exactly when the response says so or framing is out of step.
   */
  lemma {:induction false} ReadsDecideLikeOneShot(config: Config, s: System, call: Call, data: seq<Byte>)
    requires Inv(config, s) && Enabled(s, ReadDone(call, Some(data))) && IsCurrent(s.conn, call.generation)
    ensures var wire := s.conn.inFlight.value.readBuf + data;
            ClientBody.CutSafe(config.parse, config.maxBody, wire) ==>
              Follows(config, wire, data == [], s.conn, TurnOf(config, s, ReadDone(call, Some(data))))
  {
    LiveIs(s, call);
    hide LanesKept, StreamsKept, RepliesKept, WritesKept, FramingInv, PrefixStable, ClientBody.CutSafe, Follows;
    hide HandleBytesRead, ResponseKept;
    var f := s.conn.inFlight.value;
    if data == [] {
      assert f.readBuf + data == f.readBuf;
      EofFollows(config, s.conn, s.fed);
    } else {
      DataFollows(config, s.conn, s.fed, data);
    }
  }
}
