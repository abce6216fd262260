/** The idle clock of the keepalive connection, against the sweeps that saw it idle. */
module KeepaliveIdle {
  import opened Bytes
  import ChunkedSpec
  import opened HttpHead
  import opened Keepalive
  import opened KeepaliveRuns

  /** A transport is held and no request uses it. */
  predicate Idle(c: Connection) {
    c.inFlight.None? && c.transport.Some?
  }

  /** The sweeps after one more event: those since the connection was last not idle. */
  function SweepsAfter(sweeps: seq<nat>, e: Event, c: Connection): seq<nat> {
    if !Idle(c) then [] else if e.Maintain? then sweeps + [e.now] else sweeps
  }

  /** The times of the sweeps that have found the connection idle since it was last in use. */
  function SweepsOf(config: Config, events: seq<Event>): (sweeps: seq<nat>)
    requires config.maxBody <= USIZE_MAX && PrefixStable(config.parse)
    ensures RunOf(config, events).Some? ==> ClockKept(RunOf(config, events).value.conn, sweeps)
    decreases |events|
  {
    hide Inv, TurnOf, Apply, PrefixStable, Enabled, ClockKept, SweepsAfter;
    if events == [] then
      StartClock();
      []
    else
      var last := |events| - 1;
      var before := SweepsOf(config, events[..last]);
      match RunOf(config, events[..last])
      case None => []
      case Some(s) =>
        if !Enabled(s, events[last]) then before
        else
          TurnReady(config, s, events[last]);
          match TurnOf(config, s, events[last])
          case None => []
          case Some(t) =>
            ClockStep(config, s, events[last], t, before);
            SweepsAfter(before, events[last], t.conn)
  }

  /** The clock is the first of those sweeps. */
  ghost predicate ClockKept(c: Connection, sweeps: seq<nat>) {
    && c.idleSince == (if sweeps == [] then None else Some(sweeps[0]))
    && (sweeps != [] ==> Idle(c))
  }

  lemma {:induction false} StartClock()
    ensures ClockKept(START.conn, [])
  {
  }

  lemma {:induction false} TurnReady(config: Config, s: System, e: Event)
    requires Inv(config, s) && Enabled(s, e)
    ensures StepReady(config, s, e)
  {
  }

  /** Only a request that starts and a sweep touch the clock. */
  lemma {:induction false} ClockTouched(config: Config, s: System, e: Event, t: Turn)
    requires StepReady(config, s, e) && TurnOf(config, s, e) == Some(t)
    ensures e.Ask? ==> t.conn.idleSince == (if t.lane.Some? then None else s.conn.idleSince)
    ensures e.Ask? && t.lane.Some? ==> t.conn.inFlight.Some?
    ensures e.Ask? && t.lane.None? ==> t.conn == s.conn
    ensures !e.Ask? && !e.Maintain? ==> t.conn.idleSince == s.conn.idleSince
    ensures !e.Ask? && !e.Maintain? && s.conn.inFlight.None? ==> t.conn == s.conn
  {
    hide ChunkedSpec.FeedAll;
  }

  lemma {:induction false} SweepTouches(c: Connection, now: nat, maxIdle: nat, sweeps: seq<nat>)
    requires ClockKept(c, sweeps)
    ensures var t := HandleMaintain(c, now, maxIdle).0;
            ClockKept(t.conn, if Idle(t.conn) then sweeps + [now] else [])
  {
  }

  lemma {:induction false} ClockStep(config: Config, s: System, e: Event, t: Turn, sweeps: seq<nat>)
    requires StepReady(config, s, e) && TurnOf(config, s, e) == Some(t) && ClockKept(s.conn, sweeps)
    ensures Apply(s, e, t).conn == t.conn && ClockKept(t.conn, SweepsAfter(sweeps, e, t.conn))
  {
    hide Apply, StepReady;
    ApplyConn(s, e, t);
    if e.Maintain? {
      SweepTouches(s.conn, e.now, e.maxIdle, sweeps);
      assert t == HandleMaintain(s.conn, e.now, e.maxIdle).0;
      hide TurnOf, HandleMaintain;
    } else {
      ClockTouched(config, s, e, t);
      hide TurnOf;
    }
  }

  /**
    In every reachable state a sweep closes the transport if and only if the connection is idle
    and has been, by the first sweep that saw it so, for at least the limit; otherwise it leaves
    the transport alone.
   */
  lemma {:induction false} SweepClosesIffIdleLongEnough(config: Config, events: seq<Event>, now: nat, maxIdle: nat)
    requires config.maxBody <= USIZE_MAX && PrefixStable(config.parse) && RunOf(config, events).Some?
    ensures var s, sweeps := RunOf(config, events).value, SweepsOf(config, events);
            var (t, closed) := HandleMaintain(s.conn, now, maxIdle);
            && (closed <==> Idle(s.conn) && SaturatingSub(now, (sweeps + [now])[0]) >= maxIdle)
            && (closed ==> t.close == s.conn.transport && t.conn.transport.None?)
            && (!closed ==> t.close.None? && t.conn.transport == s.conn.transport)
            && (s.conn.idleSince.Some? ==> Idle(s.conn))
            && t.reply.None? && t.lane.None? && t.conn.inFlight == s.conn.inFlight
  {
    hide RunOf, SweepsOf;
    var s, sweeps := RunOf(config, events).value, SweepsOf(config, events);
    assert ClockKept(s.conn, sweeps);
  }
}
