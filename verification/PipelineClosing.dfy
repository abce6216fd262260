/**
  When a server connection closes and when it goes on: over every run in which nothing goes
  wrong, the close decision is that of the configuration and the last request's own head.
 */
module PipelineClosing {
  import opened Bytes
  import opened HttpHead
  import opened Pipeline
  import I = InboundConnection

  // --- Runs in which nothing goes wrong ---------------------------------------------------

  /** No end of stream, refusal, failed spawn or service, lost peer, or giving up. */
  predicate Fair(e: Event) {
    match e
    case ReadDone(data, admitted) => data != [] && admitted.read
    case ChildEndHandled(admitted) => admitted.read
    case ResponseDone(admitted) => admitted.read
    case ServiceDone(ok) => ok
    case SpawnFails => false
    case ChildLosesPeer => false
    case GiveUp => false
    case _ => true
  }

  /** Every request handed to the service, and the one that waits for its monitor. */
  function Requests(s: System): seq<seq<Byte>> {
    s.called + if s.pipe.pending.Some? then [s.pipe.pending.value] else []
  }

  /** The head behind the requests taken on so far is malformed, or its body is to be streamed. */
  predicate Unfit(config: Config, inbound: seq<Byte>, requests: seq<seq<Byte>>) {
    match config.parse(inbound[Min(|Concat(requests)|, |inbound|)..])
    case HeadFailed => true
    case HeadComplete(head, _) => Streams(config, head)
    case HeadNeedsMore => false
  }

  /** Fair events only, and only buffered requests with heads that parse. */
  ghost predicate Smooth(config: Config, events: seq<Event>)
    requires ParserFits(config)
    decreases |events|
  {
    events == [] ||
    (&& Smooth(config, events[..|events| - 1]) && Fair(events[|events| - 1])
     && var s := RunOf(config, events); !Unfit(config, s.inbound, Requests(s)))
  }

  // --- The close decision -----------------------------------------------------------------

  /** The head at the start of the last request, read from the stream. */
  function LastHead(parse: Parser, inbound: seq<Byte>, requests: seq<seq<Byte>>): Parse
    requires requests != []
  {
    parse(inbound[Min(|Concat(requests[..|requests| - 1])|, |inbound|)..])
  }

  predicate CloseWanted(config: Config, s: System) {
    && Requests(s) != []
    && (!config.keepalive ||
        var head := LastHead(config.parse, s.inbound, Requests(s)); head.HeadComplete? && head.head.close)
  }

  predicate Busy(s: System) {
    s.serving || s.writing || !s.spawn.NoReply?
  }

  /** The head of the last request is in the stream. */
  predicate Known(parse: Parser, inbound: seq<Byte>, requests: seq<seq<Byte>>) {
    requests != [] ==>
      && |Concat(requests[..|requests| - 1])| <= |inbound|
      && LastHead(parse, inbound, requests).HeadComplete?
  }

  /** The last request's head decides. */
  ghost predicate Decided(config: Config, s: System) {
    && !s.streamed && Known(config.parse, s.inbound, Requests(s))
    && (s.closed ==> CloseWanted(config, s))
    && (!s.closed ==> s.pipe.willClose == (Busy(s) && CloseWanted(config, s)))
    && (!s.closed && Busy(s) ==> Requests(s) != [])
    && s.spawn != Arrived(false) && (s.child.Ended? ==> s.child.result.Some? && s.child.result.value != [])
  }

  /** More bytes behind the stream do not change the decision. */
  lemma {:induction false} HeadStays(parse: Parser, inbound: seq<Byte>, data: seq<Byte>, requests: seq<seq<Byte>>)
    requires PrefixStable(parse) && requests != [] && Known(parse, inbound, requests)
    ensures LastHead(parse, inbound + data, requests) == LastHead(parse, inbound, requests)
    ensures Known(parse, inbound + data, requests)
  {
    hide PrefixStable, Concat;
    var n := |Concat(requests[..|requests| - 1])|;
    assert (inbound + data)[n..] == inbound[n..] + data;
    Stable(parse, inbound[n..], data);
  }

  /** The next message of the stream was taken on, through the monitor exactly when there is cause. */
  ghost predicate TakenOn(config: Config, called: seq<seq<Byte>>, next: seq<Byte>, s: System) {
    && Requests(s) == called + [next] && Busy(s)
    && (s.pipe.pending.Some? <==>
          config.monitored && !CloseWanted(config, s) && s.inbound == Concat(Requests(s)))
  }

  /** What a dispatch leaves, field by field. */
  lemma {:induction false} DispatchIs(config: Config, s: System, p: Pipe)
    requires Arriving(config, s, p, []) && p.head.Some?
    requires |p.readBuf| >= p.headLen + p.head.value.contentLength
    ensures var s' := Apply(s, Dispatch(config, p));
            var bodyEnd := p.headLen + p.head.value.contentLength;
            && Requests(s') == s.called + [p.readBuf[..bodyEnd]] && s'.inbound == s.inbound && !s'.closed
            && s'.pipe.willClose == (!config.keepalive || p.head.value.close)
            && (s'.pipe.pending.Some? <==> config.monitored && !s'.pipe.willClose && |p.readBuf| == bodyEnd)
            && (s'.pipe.pending.Some? ==> s'.spawn.Owed? && s'.child.Asked?) && s'.streamed == s.streamed
            && (s'.pipe.pending.None? ==> s'.serving && s'.spawn == s.spawn && s'.child == s.child)
  {
    hide ParserFits, HeadKept, Concat, CutsOff;
  }

  /** The head of the message at the end of what was handed out, read in the stream. */
  lemma {:induction false} HeadOfNext(
    parse: Parser, called: seq<seq<Byte>>, inbound: seq<Byte>, request: seq<Byte>, after: seq<Byte>)
    requires inbound == Concat(called) + (request + after)
    ensures LastHead(parse, inbound, called + [request]) == parse(request + after)
    ensures |Concat((called + [request])[..|called|])| <= |inbound|
    ensures inbound == Concat(called + [request]) <==> after == []
  {
    hide Concat;
    assert (called + [request])[..|called|] == called;
    assert inbound[|Concat(called)|..] == request + after;
    ConcatSnoc(called, request);
    assert inbound == Concat(called) + request + after;
    assert |inbound| == |Concat(called) + request| + |after|;
    assert after == [] ==> Concat(called) + request + after == Concat(called) + request;
  }

  /** The request just cut off: its head was read at the start of what was buffered. */
  lemma {:induction false} DispatchDecides(config: Config, s: System, p: Pipe)
    requires Arriving(config, s, p, []) && p.head.Some?
    requires |p.readBuf| >= p.headLen + p.head.value.contentLength
    ensures var s' := Apply(s, Dispatch(config, p));
            && Decided(config, s') && !s'.closed
            && TakenOn(config, s.called, p.readBuf[..p.headLen + p.head.value.contentLength], s')
  {
    DispatchIs(config, s, p);
    var bodyEnd := p.headLen + p.head.value.contentLength;
    var request, after := p.readBuf[..bodyEnd], p.readBuf[bodyEnd..];
    assert p.readBuf + [] == p.readBuf && p.readBuf == request + after;
    hide ParserFits, Concat, CutsOff, Dispatch, Apply, LastHead, Requests;
    HeadOfNext(config.parse, s.called, s.inbound, request, after);
  }

  /** Bytes arrive at an idle connection: the first message is taken on once it is whole. */
  lemma {:induction false} HeadedDecides(config: Config, s: System, p2: Pipe, moved: bool)
    requires Arriving(config, s, p2, []) && p2.head.Some? && Known(config.parse, s.inbound, s.called)
    requires !Streams(config, p2.head.value)
    ensures var s' := Apply(s, MaybeDispatch(config, p2, moved));
            && Decided(config, s') && !s'.closed
            && match FirstMessage(config.parse, p2.readBuf) {
                 case Some(n) => TakenOn(config, s.called, p2.readBuf[..n], s')
                 case None => Requests(s') == s.called && !Busy(s')
               }
  {
    hide PrefixStable, NoChunked, Concat, CutsOff, Dispatch;
    var s' := Apply(s, MaybeDispatch(config, p2, moved));
    assert p2.readBuf + [] == p2.readBuf;
    if |p2.readBuf| >= p2.headLen + p2.head.value.contentLength {
      DispatchedFirst(config, s, p2);
      DispatchDecides(config, s, p2);
    } else {
      NoMessageYet(config.parse, p2);
      assert Requests(s') == s.called;
    }
  }

  /** The head of what arrives is the head behind the requests taken on. */
  lemma {:induction false} ArrivingHead(config: Config, s: System, p: Pipe, data: seq<Byte>)
    requires Arriving(config, s, p, data)
    ensures s.inbound[Min(|Concat(s.called)|, |s.inbound|)..] == p.readBuf + data
  {
    hide ParserFits, HeadKept, Concat, CutsOff;
  }

  lemma {:induction false} ArrivalDecides(config: Config, s: System, p: Pipe, data: seq<Byte>, admitted: Verdicts)
    requires Arriving(config, s, p, data) && data != [] && admitted.read && Known(config.parse, s.inbound, s.called)
    requires s.spawn.NoReply? && s.child.NoChild? && !Unfit(config, s.inbound, s.called)
    ensures var s' := Apply(s, HandleBytesRead(config, p, data, admitted));
            && Decided(config, s') && !s'.closed
            && match FirstMessage(config.parse, p.readBuf + data) {
                 case Some(n) => TakenOn(config, s.called, (p.readBuf + data)[..n], s')
                 case None => Requests(s') == s.called && !Busy(s')
               }
  {
    hide Concat, CutsOff, MaybeDispatch, FirstMessage, PrefixStable, NoChunked, Known;
    ArrivingHead(config, s, p, data);
    var p1 := p.(readBuf := p.readBuf + data);
    assert p1.readBuf + [] == p1.readBuf;
    var parsed := config.parse(p1.readBuf);
    if p.head.Some? {
      Stable(config.parse, p.readBuf, data);
      HeadedDecides(config, s, p1, admitted.moved);
    } else if parsed.HeadComplete? {
      FittingHead(config, p1.readBuf);
      HeadedDecides(config, s, p1.(head := Some(parsed.head), headLen := parsed.headLen), admitted.moved);
    } else {
      NoMessageYet(config.parse, p1);
      assert Requests(Apply(s, HandleBytesRead(config, p, data, admitted))) == s.called;
    }
  }

  lemma {:induction false} FittingHead(config: Config, b: seq<Byte>)
    requires ParserFits(config) && config.parse(b).HeadComplete? && !Streams(config, config.parse(b).head)
    ensures !config.parse(b).head.chunked
  {
  }

  /** An unfit head is not taken on, so it shows behind the requests. */
  lemma {:induction false} UnfitShows(config: Config, s: System, p: Pipe, data: seq<Byte>, admitted: Verdicts)
    requires Arriving(config, s, p, data) && data != [] && admitted.read && Unfit(config, s.inbound, s.called)
    ensures var s' := Apply(s, HandleBytesRead(config, p, data, admitted));
            Requests(s') == s.called && s'.inbound == s.inbound
  {
    ArrivingHead(config, s, p, data);
    hide Concat, CutsOff, PrefixStable, NoChunked, Dispatch, DispatchStreamed;
    if p.head.Some? {
      Stable(config.parse, p.readBuf, data);
    }
    var parsed := config.parse(p.readBuf + data);
    if parsed.HeadComplete? {
      StreamedTakesNothing(
        config, s, p.(readBuf := p.readBuf + data, head := Some(parsed.head), headLen := parsed.headLen), admitted.moved);
    }
  }

  lemma {:induction false} StreamedTakesNothing(config: Config, s: System, p: Pipe, moved: bool)
    requires p.head.Some? && Streams(config, p.head.value) && p.pending.None?
    ensures var s' := Apply(s, DispatchStreamed(config, p, moved)); Requests(s') == s.called && s'.inbound == s.inbound
  {
    hide DispatchStreamed;
    StreamedActs(config, p, moved);
  }

  lemma {:induction false} StreamedActs(config: Config, p: Pipe, moved: bool)
    requires p.head.Some? && Streams(config, p.head.value)
    ensures var r := DispatchStreamed(config, p, moved);
            r.0.pending == p.pending && (r.1.CallStreaming? || r.1.Respond?)
  {
    hide I.HoldChunked, I.HoldLength;
  }

  /** Bytes arrive in a smooth run. */
  lemma {:induction false} SmoothArrival(config: Config, s: System, p: Pipe, data: seq<Byte>, admitted: Verdicts)
    requires Arriving(config, s, p, data) && data != [] && admitted.read && Known(config.parse, s.inbound, s.called)
    requires s.spawn.NoReply? && s.child.NoChild?
    requires var s' := Apply(s, HandleBytesRead(config, p, data, admitted)); !Unfit(config, s'.inbound, Requests(s'))
    ensures var s' := Apply(s, HandleBytesRead(config, p, data, admitted));
            && Decided(config, s') && !s'.closed
            && match FirstMessage(config.parse, p.readBuf + data) {
                 case Some(n) => TakenOn(config, s.called, (p.readBuf + data)[..n], s')
                 case None => Requests(s') == s.called && !Busy(s')
               }
  {
    hide Arriving, HandleBytesRead, Unfit, Apply, Known, Decided;
    if Unfit(config, s.inbound, s.called) {
      UnfitShows(config, s, p, data, admitted);
    } else {
      ArrivalDecides(config, s, p, data, admitted);
    }
  }

  // --- Every step -------------------------------------------------------------------------

  lemma {:induction false} ReadDecides(config: Config, s: System, e: Event)
    requires Inv(config, s) && Decided(config, s) && Enabled(s, e) && Fair(e) && e.ReadDone?
    requires var s' := Step(config, s, e); !Unfit(config, s'.inbound, Requests(s'))
    ensures Decided(config, Step(config, s, e)) && !Step(config, s, e).closed
  {
    hide PrefixStable, Messages, Concat, CutsOff, FirstMessage, HandleBytesRead, Unfit, Known, LastHead;
    InboundGrows(config, s, e.data);
    assert Held(s) == s.pipe.readBuf && Requests(s) == s.called;
    if s.called != [] {
      HeadStays(config.parse, s.inbound, e.data, s.called);
    }
    assert Known(config.parse, s.inbound + e.data, s.called) by { NothingKnown(config.parse, s.inbound + e.data); }
    SmoothArrival(config, s.(reading := false, inbound := s.inbound + e.data), s.pipe, e.data, e.admitted);
  }

  lemma {:induction false} NothingKnown(parse: Parser, inbound: seq<Byte>)
    ensures Known(parse, inbound, [])
  {
  }

  lemma {:induction false} ChildReadsDecides(config: Config, s: System, data: seq<Byte>)
    requires Inv(config, s) && Decided(config, s) && Enabled(s, ChildReads(data))
    ensures Decided(config, Step(config, s, ChildReads(data))) && !Step(config, s, ChildReads(data)).closed
  {
    hide PrefixStable, Messages, Concat, CutsOff, FirstMessage, LastHead, Known;
    var s' := Step(config, s, ChildReads(data));
    assert Requests(s') == Requests(s);
    if Requests(s) != [] {
      HeadStays(config.parse, s.inbound, data, Requests(s));
    } else {
      NothingKnown(config.parse, s'.inbound);
    }
  }

  lemma {:induction false} ChildEndDecides(config: Config, s: System, admitted: Verdicts)
    requires Inv(config, s) && Decided(config, s) && Enabled(s, ChildEndHandled(admitted)) && admitted.read
    requires var s' := Step(config, s, ChildEndHandled(admitted)); !Unfit(config, s'.inbound, Requests(s'))
    ensures var s' := Step(config, s, ChildEndHandled(admitted));
            && Decided(config, s') && !s'.closed
            && (s.pipe.waiting ==>
                  match FirstMessage(config.parse, s.child.result.value)
                  case Some(n) => TakenOn(config, s.called, s.child.result.value[..n], s')
                  case None => Requests(s') == s.called && !Busy(s'))
  {
    hide PrefixStable, Messages, Concat, CutsOff, FirstMessage, HandleBytesRead, Unfit, Known, LastHead;
    var data := s.child.result.value;
    var p1 := s.pipe.(monitor := false, terminalSeen := true);
    if s.pipe.waiting {
      assert Held(s) == [] + data && [] + data == data && Requests(s) == s.called;
      SmoothArrival(config, s.(child := NoChild), p1.(waiting := false, readAhead := []), data, admitted);
    } else {
      assert Requests(Step(config, s, ChildEndHandled(admitted))) == Requests(s);
    }
  }

  /** The response is done: the connection closes, or goes on with the next message it has. */
  lemma {:induction false} ResponseDecides(config: Config, s: System, admitted: Verdicts)
    requires Inv(config, s) && Decided(config, s) && Enabled(s, ResponseDone(admitted)) && admitted.read
    requires var s' := Step(config, s, ResponseDone(admitted)); !Unfit(config, s'.inbound, Requests(s'))
    ensures var s' := Step(config, s, ResponseDone(admitted));
            && Decided(config, s') && (s'.closed <==> CloseWanted(config, s))
            && (!s'.closed && s.pipe.readAhead != [] ==>
                  match FirstMessage(config.parse, s.pipe.readAhead)
                  case Some(n) => TakenOn(config, s.called, s.pipe.readAhead[..n], s')
                  case None => Requests(s') == s.called && !Busy(s'))
  {
    hide PrefixStable, Messages, Concat, CutsOff, FirstMessage, HandleBytesRead, Unfit, Known, LastHead;
    var s', p := Step(config, s, ResponseDone(admitted)), s.pipe;
    assert p.pending.None? && Requests(s) == s.called;
    if p.willClose {
      assert Requests(s') == s.called;
    } else {
      var reset := p.(readBuf := [], head := None, headLen := 0, readAhead := [], pending := None,
                      waiting := false, terminalSeen := false, willClose := false);
      if p.readAhead != [] {
        assert Held(s) == [] + p.readAhead && [] + p.readAhead == p.readAhead;
        SmoothArrival(config, s.(writing := false), reset, p.readAhead, admitted);
      } else {
        assert Requests(s') == s.called;
      }
    }
  }

  lemma {:induction false} OtherDecides(config: Config, s: System, e: Event)
    requires Inv(config, s) && Decided(config, s) && Enabled(s, e) && Fair(e)
    requires e.ChildStarts? || e.SpawnReplyHandled? || e.ServiceDone?
    ensures Decided(config, Step(config, s, e)) && !Step(config, s, e).closed
  {
    hide PrefixStable, Messages, Concat, CutsOff, FirstMessage, LastHead, Known, Framed;
    assert Requests(Step(config, s, e)) == Requests(s);
  }

  /** One fair step: it keeps the decision, and closes exactly when a response is done and close is wanted. */
  lemma {:induction false} StepDecides(config: Config, s: System, e: Event)
    requires Inv(config, s) && Decided(config, s) && Enabled(s, e) && Fair(e)
    requires var s' := Step(config, s, e); !Unfit(config, s'.inbound, Requests(s'))
    ensures Decided(config, Step(config, s, e))
    ensures Step(config, s, e).closed <==> e.ResponseDone? && CloseWanted(config, s)
  {
    hide Inv, Decided, Step, Unfit, CloseWanted;
    match e
    case ReadDone(_, _) => ReadDecides(config, s, e);
    case ChildReads(data) => ChildReadsDecides(config, s, data);
    case ChildEndHandled(admitted) => ChildEndDecides(config, s, admitted);
    case ResponseDone(admitted) => ResponseDecides(config, s, admitted);
    case _ => OtherDecides(config, s, e);
  }

  lemma {:induction false} StartDecided(config: Config)
    ensures Decided(config, START)
  {
  }

  // --- Theorems ---------------------------------------------------------------------------

  lemma {:induction false} SmoothRunDecides(config: Config, events: seq<Event>)
    requires ParserFits(config) && Smooth(config, events)
    ensures Decided(config, RunOf(config, events))
    decreases |events|
  {
    hide ParserFits, Step, Decided, Enabled, Inv, Unfit;
    if events == [] {
      StartDecided(config);
    } else {
      var last := |events| - 1;
      SmoothRunDecides(config, events[..last]);
      var s := RunOf(config, events[..last]);
      assert Inv(config, s);
      if Enabled(s, events[last]) {
        StepDecides(config, s, events[last]);
      }
    }
  }

  /**
    Over every smooth run the connection closes with an event exactly if that event completes a
    response and keepalive is off or the head of the last request says close.
   */
  lemma {:induction false} ClosesExactly(config: Config, events: seq<Event>, e: Event)
    requires ParserFits(config) && Smooth(config, events + [e])
    ensures var s, s' := RunOf(config, events), RunOf(config, events + [e]);
            && !s.streamed && (s.closed ==> s' == s && CloseWanted(config, s))
            && (!s.closed && Enabled(s, e) ==> (s'.closed <==> e.ResponseDone? && CloseWanted(config, s)))
            && (!s.closed && !Enabled(s, e) ==> s' == s)
  {
    hide ParserFits, Step, Inv, Unfit, CloseWanted;
    assert (events + [e])[..|events|] == events;
    SmoothRunDecides(config, events);
    var s := RunOf(config, events);
    assert Inv(config, s);
    if Enabled(s, e) {
      StepDecides(config, s, e);
    }
  }

  /**
    Over every smooth run: when a response is done, no close is wanted, and the stream holds a
    further whole message of which no byte is still with the monitor, that message is taken on:
    handed to the service, or kept for the monitor exactly when there is cause for one.
   */
  lemma {:induction false} NextMessageIsTakenOn(config: Config, events: seq<Event>, admitted: Verdicts)
    requires ParserFits(config) && Smooth(config, events + [ResponseDone(admitted)])
    ensures var s, s' := RunOf(config, events), RunOf(config, events + [ResponseDone(admitted)]);
            var messages := Messages(config.parse, s.inbound);
            && s.called <= messages
            && (Enabled(s, ResponseDone(admitted)) && !CloseWanted(config, s) && !s.child.Ended?
                && |s.called| < |messages| ==>
                  TakenOn(config, s.called, messages[|s.called|], s'))
  {
    hide ParserFits, Step, Unfit, CloseWanted, TakenOn, FirstMessage, Concat, CutsOff;
    var e := ResponseDone(admitted);
    assert (events + [e])[..|events|] == events;
    SmoothRunDecides(config, events);
    var s := RunOf(config, events);
    assert Inv(config, s);
    if Enabled(s, e) && !CloseWanted(config, s) && !s.child.Ended? && |s.called| < |Messages(config.parse, s.inbound)| {
      var rest := s.pipe.readAhead;
      assert Held(s) == [] + [] + rest + [] == rest;
      CutsOffAreMessages(config.parse, s.called, rest);
      FirstOfRest(config.parse, s.called, rest);
      ResponseDecides(config, s, admitted);
    }
  }

  /**
    Over every smooth run an idle connection has handed out every whole message of its stream,
    but for one the monitor has just read; handling the monitor's end then takes that one on.
   */
  lemma {:induction false} IdleHasNothingLeft(config: Config, events: seq<Event>, admitted: Verdicts)
    requires ParserFits(config) && Smooth(config, events + [ChildEndHandled(admitted)])
    ensures var s, s' := RunOf(config, events), RunOf(config, events + [ChildEndHandled(admitted)]);
            var messages := Messages(config.parse, s.inbound);
            !s.closed && !Busy(s) ==>
              && s.called <= messages
              && (!s.child.Ended? ==> s.called == messages)
              && (s.child.Ended? && |s.called| < |messages| ==>
                    TakenOn(config, s.called, messages[|s.called|], s'))
  {
    hide ParserFits, Step, Unfit, CloseWanted, TakenOn, FirstMessage, Concat, CutsOff;
    var e := ChildEndHandled(admitted);
    assert (events + [e])[..|events|] == events;
    SmoothRunDecides(config, events);
    var s := RunOf(config, events);
    assert Inv(config, s);
    if !s.closed && !Busy(s) {
      var rest := s.pipe.readBuf + InTransit(s);
      assert Held(s) == [] + s.pipe.readBuf + [] + InTransit(s) == rest;
      CutsOffAreMessages(config.parse, s.called, rest);
      FirstOfRest(config.parse, s.called, rest);
      if s.child.Ended? {
        assert s.pipe.waiting && rest == s.child.result.value;
        ChildEndDecides(config, s, admitted);
      } else if s.reading {
        assert rest == s.pipe.readBuf && s.called + [] == s.called;
      } else {
        FitsStable(config);
        NothingIsNoMessage(config.parse);
        assert rest == [] && s.called + [] == s.called;
      }
    }
  }

  lemma {:induction false} FitsStable(config: Config)
    requires ParserFits(config)
    ensures PrefixStable(config.parse)
  {
  }

  lemma {:induction false} FirstOfRest(parse: Parser, called: seq<seq<Byte>>, rest: seq<Byte>)
    ensures Messages(parse, rest) != [] ==>
              && rest != [] && FirstMessage(parse, rest).Some?
              && (called + Messages(parse, rest))[|called|] == rest[..FirstMessage(parse, rest).value]
  {
  }

  // --- When something goes wrong ----------------------------------------------------------

  /** The event is an end of stream, a lost peer, or giving up. */
  predicate Severs(s: System, e: Event) {
    match e
    case ReadDone(data, _) => data == []
    case ChildEndHandled(_) => s.child == Ended(None)
    case GiveUp => true
    case _ => false
  }

  /** The event fails the request: its head, its charge, its monitor or its service. */
  predicate Spoils(config: Config, s: System, e: Event) {
    match e
    case ReadDone(data, admitted) =>
      && data != []
      && (match config.parse((s.inbound + data)[Min(|Concat(s.called)|, |s.inbound|)..])
          case HeadFailed => true
          case HeadComplete(head, _) => !head.chunked && !admitted.read
          case HeadNeedsMore => false)
    case SpawnReplyHandled => s.spawn == Arrived(false)
    case ServiceDone(ok) => !ok
    case _ => false
  }

  lemma {:induction false} ReadSpoils(config: Config, s: System, e: Event)
    requires Inv(config, s) && !s.streamed && Enabled(s, e) && e.ReadDone? && Spoils(config, s, e)
    ensures var s' := Step(config, s, e); s'.pipe.willClose && s'.writing && !s'.closed
  {
    hide PrefixStable, NoChunked, Messages, CutsOff, FirstMessage, MaybeDispatch;
    assert Held(s) == s.pipe.readBuf;
    SuffixIs(Concat(s.called), s.pipe.readBuf, e.data);
    hide Concat;
    if s.pipe.head.Some? {
      Stable(config.parse, s.pipe.readBuf, e.data);
    }
  }

  lemma {:induction false} SuffixIs(before: seq<Byte>, held: seq<Byte>, data: seq<Byte>)
    ensures (before + held + data)[Min(|before|, |before + held|)..] == held + data
  {
  }

  /**
    In every reachable state of buffered requests: an end of stream, a lost peer or giving up
    closes at once; a bad head, a refused charge, a failed monitor or service is answered, and
    the connection is then bound to close; once bound it stays so, and the response closes it.
   */
  lemma {:induction false} TroubleCloses(config: Config, events: seq<Event>, e: Event)
    requires ParserFits(config)
    ensures var s, s' := RunOf(config, events), RunOf(config, events + [e]);
            !s.streamed && !s.closed && Enabled(s, e) ==>
              && (Severs(s, e) ==> s'.closed)
              && (Spoils(config, s, e) ==> s'.pipe.willClose && s'.writing && !s'.closed)
              && (s.pipe.willClose ==> s'.closed || s'.pipe.willClose)
              && (s.pipe.willClose && e.ResponseDone? ==> s'.closed)
  {
    hide ParserFits, Step, Inv;
    assert (events + [e])[..|events|] == events;
    var s := RunOf(config, events);
    assert Inv(config, s);
    if !s.streamed && !s.closed && Enabled(s, e) {
      if Severs(s, e) {
        SeversCloses(config, s, e);
      }
      if s.pipe.willClose {
        BoundStays(config, s, e);
      }
      if Spoils(config, s, e) && e.ReadDone? {
        ReadSpoils(config, s, e);
      }
      if Spoils(config, s, e) && !e.ReadDone? {
        OtherSpoils(config, s, e);
      }
    }
  }

  lemma {:induction false} SeversCloses(config: Config, s: System, e: Event)
    requires Severs(s, e)
    ensures Step(config, s, e).closed
  {
  }

  lemma {:induction false} OtherSpoils(config: Config, s: System, e: Event)
    requires Inv(config, s) && !s.streamed && Enabled(s, e) && Spoils(config, s, e) && !e.ReadDone?
    ensures var s' := Step(config, s, e); s'.pipe.willClose && s'.writing && !s'.closed
  {
    hide ParserFits, Messages, Framed;
  }

  lemma {:induction false} BoundStays(config: Config, s: System, e: Event)
    requires Inv(config, s) && !s.streamed && Enabled(s, e) && s.pipe.willClose
    ensures var s' := Step(config, s, e); (s'.closed || s'.pipe.willClose) && (e.ResponseDone? ==> s'.closed)
  {
    hide ParserFits, Messages, Framed, HandleBytesRead;
  }
}
