/** The keepalive isolate's fields, updated in place by its message handlers. */
module KeepaliveConnection {
  import opened Bytes
  import opened ChunkedSpec
  import opened HttpHead
  import opened Keepalive
  import opened KeepaliveRuns

  /**
    Each handler does what its function says; the precondition that the function yields a turn
    is that no `expect` fires, which every run keeps.
   */
  class KeepaliveConnection {
    const config: Config
    var transport: Option<Stream>
    var inFlight: Option<InFlight>
    var pendingConnectBytes: Option<seq<Byte>>
    var requestGeneration: nat
    var idleSince: Option<nat>

    function State(): Connection
      reads this
    {
      Connection(transport, inFlight, pendingConnectBytes, requestGeneration, idleSince)
    }

    constructor (config: Config)
      ensures State() == Connection(None, None, None, 0, None) && this.config == config
    {
      this.config := config;
      transport, inFlight, pendingConnectBytes := None, None, None;
      requestGeneration, idleSince := 0, None;
    }

    method CloseTransport() returns (close: Option<Stream>)
      modifies this`transport
      ensures transport.None? && close == old(transport)
    {
      close := transport;
      transport := None;
    }

    method FailRequest(error: Error) returns (close: Option<Stream>, reply: Option<Reply>)
      requires inFlight.Some?
      modifies this
      ensures Some(Turn(State(), close := close, reply := reply)) == Keepalive.FailRequest(old(State()), error)
    {
      var request := inFlight.value.request;
      inFlight, pendingConnectBytes := None, None;
      close := CloseTransport();
      reply := Some(Reply(request, Failure(error), true));
    }

    method DeliverSuccess(mustRetire: bool) returns (close: Option<Stream>, reply: Option<Reply>)
      requires Keepalive.DeliverSuccess(State(), mustRetire).Some?
      modifies this
      ensures Some(Turn(State(), close := close, reply := reply))
           == Keepalive.DeliverSuccess(old(State()), mustRetire)
    {
      var f := inFlight.value;
      inFlight := None;
      var head := f.head.value;
      var body := f.decodedBody;
      if !head.chunked {
        body := f.readBuf[f.headLen..f.headLen + head.contentLength];
      }
      close := None;
      if mustRetire {
        close := CloseTransport();
      }
      reply := Some(Reply(f.request, Response(body), mustRetire));
    }

    method WriteMore() returns (lane: Option<Call>)
      requires Keepalive.WriteMore(State()).Some?
      modifies this`inFlight
      ensures Some(Turn(State(), lane := lane)) == Keepalive.WriteMore(old(State()))
    {
      var f := inFlight.value;
      inFlight := Some(f.(pendingWrite := []));
      lane := Some(Write(transport.value, f.generation, f.pendingWrite));
    }

    method HandleRequest(request: nat, encoded: Option<seq<Byte>>)
      returns (lane: Option<Call>, deadline: Option<nat>, reply: Option<Reply>)
      requires Keepalive.HandleRequest(State(), request, encoded).Some?
      modifies this
      ensures Some(Turn(State(), lane := lane, deadline := deadline, reply := reply))
           == Keepalive.HandleRequest(old(State()), request, encoded)
    {
      lane, deadline, reply := None, None, None;
      if inFlight.Some? {
        reply := Some(Reply(request, Failure(Busy), false));
        return;
      }
      if encoded.None? {
        reply := Some(Reply(request, Failure(Refused), false));
        return;
      }
      idleSince := None;
      requestGeneration := requestGeneration + 1;
      var f := InFlight(requestGeneration, request, [], [], [], None, 0, None, 0);
      deadline := Some(requestGeneration);
      if transport.Some? {
        inFlight := Some(f.(pendingWrite := encoded.value));
        lane := WriteMore();
      } else {
        inFlight, pendingConnectBytes := Some(f), encoded;
        lane := Some(Connect(requestGeneration));
      }
    }

    method HandleMaintain(now: nat, maxIdle: nat) returns (close: Option<Stream>, closedIdle: bool)
      modifies this
      ensures (Turn(State(), close := close), closedIdle) == Keepalive.HandleMaintain(old(State()), now, maxIdle)
    {
      close, closedIdle := None, false;
      if inFlight.Some? || transport.None? {
        idleSince := None;
        return;
      }
      if idleSince.None? {
        idleSince := Some(now);
      }
      if SaturatingSub(now, idleSince.value) < maxIdle {
        return;
      }
      idleSince := None;
      close := CloseTransport();
      closedIdle := true;
    }

    method HandleConnected(generation: nat, stream: Option<Stream>)
      returns (lane: Option<Call>, close: Option<Stream>, reply: Option<Reply>)
      requires Keepalive.HandleConnected(State(), generation, stream).Some?
      modifies this
      ensures Some(Turn(State(), lane := lane, close := close, reply := reply))
           == Keepalive.HandleConnected(old(State()), generation, stream)
    {
      lane, close, reply := None, None, None;
      if !IsCurrent(State(), generation) {
        close := stream;
        return;
      }
      if stream.None? {
        close, reply := FailRequest(ConnectFailed);
        return;
      }
      transport := stream;
      inFlight := Some(inFlight.value.(pendingWrite := pendingConnectBytes.value));
      pendingConnectBytes := None;
      lane := WriteMore();
    }

    method HandleWrote(generation: nat, bytes: seq<Byte>, written: Option<nat>)
      returns (lane: Option<Call>, close: Option<Stream>, reply: Option<Reply>)
      requires Keepalive.HandleWrote(State(), generation, bytes, written).Some?
      modifies this
      ensures Some(Turn(State(), lane := lane, close := close, reply := reply))
           == Keepalive.HandleWrote(old(State()), generation, bytes, written)
    {
      lane, close, reply := None, None, None;
      if !IsCurrent(State(), generation) {
        return;
      }
      if written.None? || written.value == 0 {
        close, reply := FailRequest(WriteFailed);
      } else if written.value >= |bytes| {
        lane := Some(Read(transport.value, inFlight.value.generation));
      } else {
        inFlight := Some(inFlight.value.(pendingWrite := bytes[written.value..]));
        lane := WriteMore();
      }
    }

    method HandleDeadline(generation: nat) returns (close: Option<Stream>, reply: Option<Reply>)
      modifies this
      ensures Some(Turn(State(), close := close, reply := reply)) == Keepalive.HandleDeadline(old(State()), generation)
    {
      close, reply := None, None;
      if IsCurrent(State(), generation) {
        close, reply := FailRequest(Timeout);
      }
    }

    method HandleRead(generation: nat, data: Option<seq<Byte>>)
      returns (lane: Option<Call>, close: Option<Stream>, reply: Option<Reply>)
      requires config.maxBody <= USIZE_MAX && DecoderValid(State())
      requires Keepalive.HandleRead(config, State(), generation, data).Some?
      modifies this
      ensures Some(Turn(State(), lane := lane, close := close, reply := reply))
           == Keepalive.HandleRead(config, old(State()), generation, data)
    {
      lane, close, reply := None, None, None;
      if !IsCurrent(State(), generation) {
        return;
      }
      if data.None? {
        close, reply := FailRequest(ReadFailed);
        return;
      }
      if data.value == [] {
        if BodyComplete(inFlight.value) {
          close, reply := DeliverSuccess(true);
        } else {
          close, reply := FailRequest(PeerClosed);
        }
        return;
      }
      var f := inFlight.value.(readBuf := inFlight.value.readBuf + data.value);
      inFlight := Some(f);
      if f.head.None? {
        match config.parse(f.readBuf) {
          case HeadNeedsMore =>
            lane := Some(Read(transport.value, f.generation));
            return;
          case HeadFailed =>
            close, reply := FailRequest(Malformed);
            return;
          case HeadComplete(head, headLen) =>
            if head.chunked {
              f := f.(decoder := Some(New(config.maxBody)));
            }
            inFlight := Some(f.(head := Some(head), headLen := headLen));
        }
      }
      lane, close, reply := HandleBody();
    }

    method HandleBody() returns (lane: Option<Call>, close: Option<Stream>, reply: Option<Reply>)
      requires inFlight.Some? && DecoderValid(State()) && Keepalive.HandleBody(State()).Some?
      modifies this
      ensures Some(Turn(State(), lane := lane, close := close, reply := reply)) == Keepalive.HandleBody(old(State()))
    {
      lane, close, reply := None, None, None;
      var f := inFlight.value;
      if f.head.value.chunked {
        var start := SaturatingAdd(f.headLen, f.rawConsumed);
        var raw := if start <= |f.readBuf| then f.readBuf[start..] else [];
        var r := FeedAll(f.decoder.value, raw);
        inFlight := Some(f.(decoder := Some(r.dec), decodedBody := f.decodedBody + r.out,
                            rawConsumed := SaturatingAdd(f.rawConsumed, r.consumed)));
        match r.result
        case Complete => close, reply := DeliverSuccess(true);
        case Failed(_) => close, reply := FailRequest(Malformed);
        case NeedMore => lane := Some(Read(transport.value, f.generation));
      } else if BodyComplete(f) {
        var bodyEnd := f.headLen + f.head.value.contentLength;
        close, reply := DeliverSuccess(f.head.value.close || |f.readBuf| > bodyEnd);
      } else {
        lane := Some(Read(transport.value, f.generation));
      }
    }

    /** `handle`: one message, the turn it makes. */
    method Handle(s: System, e: Event) returns (t: Turn)
      requires State() == s.conn && StepReady(config, s, e) && TurnOf(config, s, e).Some?
      modifies this
      ensures Some(t) == TurnOf(config, s, e) && State() == t.conn
    {
      hide Keepalive.HandleRequest, Keepalive.HandleMaintain, Keepalive.HandleConnected;
      hide Keepalive.HandleWrote, Keepalive.HandleRead, Keepalive.HandleDeadline;
      var lane, deadline, close, reply := None, None, None, None;
      match e {
        case Ask(encoded) => lane, deadline, reply := HandleRequest(s.nextRequest, encoded);
        case Maintain(now, maxIdle) =>
          var closedIdle;
          close, closedIdle := HandleMaintain(now, maxIdle);
        case Connected(g, ok) =>
          lane, close, reply := HandleConnected(g, if ok then Some(s.nextStream) else None);
        case Wrote(call, written) => lane, close, reply := HandleWrote(call.generation, call.bytes, written);
        case ReadDone(call, data) => lane, close, reply := HandleRead(call.generation, data);
        case Deadline(g) => close, reply := HandleDeadline(g);
      }
      t := Turn(State(), lane, deadline, close, reply);
    }
  }

  /**
    The object driven through any list of events ends where the run ends: each of its turns is
    made, so no `expect` fires.
   */
  method Drive(config: Config, events: seq<Event>) returns (c: KeepaliveConnection, s: System)
    requires config.maxBody <= USIZE_MAX && PrefixStable(config.parse) && |events| <= USIZE_MAX
    ensures RunOf(config, events) == Some(s) && c.State() == s.conn
  {
    hide TurnOf, Inv, Apply, Enabled, PrefixStable;
    c := new KeepaliveConnection(config);
    s := START;
    assert events[..0] == [];
    for i := 0 to |events|
      invariant fresh(c) && c.config == config && c.State() == s.conn
      invariant RunOf(config, events[..i]) == Some(s)
    {
      assert events[..i + 1][..i] == events[..i];
      var e := events[i];
      if Enabled(s, e) {
        TurnIsReady(config, s, e);
        RunStep(config, events[..i + 1]);
        var t := c.Handle(s, e);
        ApplyConn(s, e, t);
        s := Apply(s, e, t);
      }
    }
    assert events[..|events|] == events;
  }

  lemma {:induction false} TurnIsReady(config: Config, s: System, e: Event)
    requires Inv(config, s) && Enabled(s, e)
    ensures StepReady(config, s, e)
  {
  }

  lemma {:induction false} RunStep(config: Config, events: seq<Event>)
    requires config.maxBody <= USIZE_MAX && PrefixStable(config.parse) && 0 < |events| <= USIZE_MAX
    ensures var last := |events| - 1;
            && RunOf(config, events[..last]).Some? && RunOf(config, events).Some?
            && var s := RunOf(config, events[..last]).value;
               Enabled(s, events[last]) ==> StepReady(config, s, events[last]) && TurnOf(config, s, events[last]).Some?
  {
    hide TurnOf, Inv, Apply, Enabled, PrefixStable;
    var last := |events| - 1;
    var s := RunOf(config, events[..last]).value;
    if Enabled(s, events[last]) {
      TurnIsReady(config, s, events[last]);
    }
  }
}
