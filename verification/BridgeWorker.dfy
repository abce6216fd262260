/** The worker isolate and its shared counters, updated in place. */
module BridgeWorker {
  import opened Bytes
  import opened Bridge
  import Atomics

  class MetricsInner {
    var admitted: nat
    var full: nat
    var closed: nat
    var invalid: nat
    var requestTooLarge: nat
    var timeouts: nat
    var responses: nat
    var sdkErrors: nat
    var bodyErrors: nat
    var responseTooLarge: nat
    var lateResults: nat
    var callerWaitingCurrent: int
    var inFlightCurrent: nat
    var lateInFlightCurrent: int
    var inFlightHighWater: nat
    var inFlightByKind: map<Kind, nat>

    function Snapshot(): Metrics
      reads this
    {
      Metrics(admitted, full, closed, invalid, requestTooLarge, timeouts, responses, sdkErrors, bodyErrors,
              responseTooLarge, lateResults, callerWaitingCurrent, inFlightCurrent, lateInFlightCurrent,
              inFlightHighWater, inFlightByKind)
    }

    constructor ()
      ensures Snapshot() == ZERO
    {
      admitted, full, closed, invalid, requestTooLarge, timeouts := 0, 0, 0, 0, 0, 0;
      responses, sdkErrors, bodyErrors, responseTooLarge, lateResults := 0, 0, 0, 0, 0;
      callerWaitingCurrent, inFlightCurrent, lateInFlightCurrent, inFlightHighWater := 0, 0, 0, 0;
      inFlightByKind := map[];
    }

    /** The compare-exchange loop leaves the larger of the old mark and the new count. */
    method NoteInFlight(current: nat)
      modifies this`inFlightHighWater
      ensures inFlightHighWater == Max(old(inFlightHighWater), current)
    {
      var mark := Atomics.RaiseAlone(inFlightHighWater, current);
      inFlightHighWater := mark;
    }

    method AdmitKind(kind: Kind)
      modifies this`inFlightByKind
      ensures inFlightByKind == NoteAdmitKind(old(inFlightByKind), kind)
    {
      if kind !in inFlightByKind {
        inFlightByKind := inFlightByKind[kind := 0];
      }
      inFlightByKind := inFlightByKind[kind := inFlightByKind[kind] + 1];
    }

    method TerminalKind(kind: Kind)
      modifies this`inFlightByKind
      ensures inFlightByKind == NoteTerminalKind(old(inFlightByKind), kind)
    {
      if kind in inFlightByKind {
        var count := SaturatingSub(inFlightByKind[kind], 1);
        if count == 0 {
          inFlightByKind := inFlightByKind - {kind};
        } else {
          inFlightByKind := inFlightByKind[kind := count];
        }
      }
    }

    /** Everything an admission counts. */
    method NoteAdmitted(kind: Kind, called: bool, current: nat)
      modifies this
      ensures Snapshot() == old(Snapshot()).(
                admitted := old(admitted) + 1,
                byKind := NoteAdmitKind(old(inFlightByKind), kind),
                callerWaiting := old(callerWaitingCurrent) + (if called then 1 else 0),
                inFlightCurrent := current,
                highWater := Max(old(inFlightHighWater), current))
    {
      hide NoteAdmitKind;
      admitted := admitted + 1;
      AdmitKind(kind);
      if called {
        callerWaitingCurrent := callerWaitingCurrent + 1;
      }
      inFlightCurrent := current;
      NoteInFlight(current);
    }

    /** A task that finds itself abandoned after its request. */
    method NoteLate(abandoned: bool)
      modifies this`lateResults
      ensures lateResults == old(lateResults) + (if abandoned then 1 else 0)
    {
      if abandoned {
        lateResults := lateResults + 1;
      }
    }

    /** What a retiring entry gives back. */
    method NoteRetired(entry: InFlight, current: nat)
      modifies this
      ensures Snapshot() == old(Snapshot()).(
                lateInFlight := old(lateInFlightCurrent) - (if entry.abandoned then 1 else 0),
                callerWaiting := old(callerWaitingCurrent) - (if !entry.abandoned && entry.waiting then 1 else 0),
                byKind := NoteTerminalKind(old(inFlightByKind), entry.kind),
                inFlightCurrent := current)
    {
      hide NoteTerminalKind;
      if entry.abandoned {
        lateInFlightCurrent := lateInFlightCurrent - 1;
      } else if entry.waiting {
        callerWaitingCurrent := callerWaitingCurrent - 1;
      }
      TerminalKind(entry.kind);
      inFlightCurrent := current;
    }

    method Tally(result: TaskResult)
      modifies this
      ensures Snapshot() == TallyTerminal(old(Snapshot()), result)
    {
      match result
      case Done => responses := responses + 1;
      case BodyError => bodyErrors := bodyErrors + 1;
      case ResponseTooLarge => responseTooLarge := responseTooLarge + 1;
      case _ => sdkErrors := sdkErrors + 1;
    }
  }

  class S3Worker {
    const maxInFlight: nat
    const metrics: MetricsInner
    var inFlight: map<nat, InFlight>
    var nextId: nat
    var closed: bool

    function State(): Worker
      reads this, metrics
    {
      Worker(maxInFlight, inFlight, nextId, closed, metrics.Snapshot())
    }

    constructor (maxInFlight: nat)
      ensures State() == Start(maxInFlight).worker && fresh(metrics)
    {
      this.maxInFlight := maxInFlight;
      metrics := new MetricsInner();
      inFlight, nextId, closed := map[], 1, false;
    }

    /** The checks before admission; a refusal is counted and answered at once. */
    method CheckAdmission(verdict: Verdict) returns (refusal: Option<Answer>)
      modifies metrics
      ensures refusal == Refusal(old(State()), verdict)
      ensures State() == if refusal.Some? then Refuse(old(State()), refusal.value) else old(State())
    {
      if closed {
        metrics.closed := metrics.closed + 1;
        return Some(Closed);
      }
      if !verdict.Valid? {
        if verdict.TooLarge? {
          metrics.requestTooLarge := metrics.requestTooLarge + 1;
        } else {
          metrics.invalid := metrics.invalid + 1;
        }
        return Some(Rejected(verdict));
      }
      if |inFlight| >= maxInFlight {
        metrics.full := metrics.full + 1;
        return Some(Full);
      }
      return None;
    }

    /** Admits and gives the id to spawn the task and to poll with. */
    method AdmitEntry(request: nat, kind: Kind, called: bool) returns (id: nat)
      modifies this, metrics
      ensures id == old(nextId) && State() == Admit(old(State()), request, kind, called)
    {
      hide NoteAdmitKind;
      id := nextId;
      nextId := (nextId + 1) % (USIZE_MAX + 1);
      inFlight := inFlight[id := InFlight(request, kind, called, !called, false)];
      metrics.NoteAdmitted(kind, called, |inFlight|);
    }

    method RetireEntry(id: nat)
      requires id in inFlight
      modifies this, metrics
      ensures State() == Retire(old(State()), id)
    {
      hide NoteTerminalKind;
      var entry := inFlight[id];
      inFlight := inFlight - {id};
      metrics.NoteRetired(entry, |inFlight|);
    }

    method PollEntry(id: nat, channel: Receive, expired: bool) returns (reply: Option<(nat, Answer)>, again: bool)
      modifies this, metrics
      ensures Polled(State(), reply, again) == Poll(old(State()), id, channel, expired)
    {
      if id !in inFlight {
        return None, false;
      }
      var entry := inFlight[id];
      match channel
      case Empty =>
        if entry.waiting && expired {
          metrics.timeouts := metrics.timeouts + 1;
          metrics.callerWaitingCurrent := metrics.callerWaitingCurrent - 1;
          metrics.lateInFlightCurrent := metrics.lateInFlightCurrent + 1;
          inFlight := inFlight[id := entry.(waiting := false, abandoned := true)];
          return Some((entry.request, Timeout)), true;
        }
        return None, true;
      case Received(result) =>
        RetireEntry(id);
        return if entry.waiting || entry.plain then Some((entry.request, Terminal(result))) else None, false;
      case Hungup =>
        RetireEntry(id);
        return if entry.waiting || entry.plain then Some((entry.request, Lost)) else None, false;
    }

    /** The closer's flag. */
    method Close()
      modifies this`closed
      ensures State() == old(State()).(closed := true)
    {
      closed := true;
    }

    /** One handler turn, or what one task step does to the shared counters. */
    method Handle(s: System, e: Event)
      requires State() == s.worker && Enabled(s, e)
      modifies this, metrics
      ensures State() == Step(s, e).worker
    {
      hide Refuse, Admit, Poll, TallyTerminal;
      match e
      case Send(kind, called, verdict) =>
        var refusal := CheckAdmission(verdict);
        if refusal.None? {
          var id := AdmitEntry(s.nextRequest, kind, called);
        }
      case PollFires(id, expired) =>
        var reply, again := PollEntry(id, Channel(s, id), expired);
      case TaskFinishes(_, result) => metrics.Tally(result);
      case TaskChecks(id) => metrics.NoteLate(id in inFlight && inFlight[id].abandoned);
      case TaskSends(_) =>
      case TaskDies(_) =>
      case CloseBridge => Close();
    }
  }

  /** The object driven through any list of events ends where the run ends. */
  method Drive(maxInFlight: nat, events: seq<Event>) returns (w: S3Worker, s: System)
    ensures s == RunOf(maxInFlight, events) && w.State() == s.worker
  {
    hide Inv, Step, Enabled;
    w := new S3Worker(maxInFlight);
    s := Start(maxInFlight);
    assert events[..0] == [];
    for i := 0 to |events|
      invariant fresh(w) && fresh(w.metrics) && w.State() == s.worker
      invariant s == RunOf(maxInFlight, events[..i])
    {
      assert events[..i + 1][..i] == events[..i];
      if Enabled(s, events[i]) {
        w.Handle(s, events[i]);
        s := Step(s, events[i]);
      }
    }
    assert events[..|events|] == events;
  }
}
