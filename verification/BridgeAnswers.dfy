/**
  What each bridge request is answered with, over every run: its refusal, the result of its own
  task, the loss of that task, or its own timeout.
 */
module BridgeAnswers {
  import opened Bytes
  import opened Bridge

  /** The request each task was started for, and the answer each request got. */
  datatype Log = Log(owner: map<nat, nat>, answers: map<nat, Answer>)

  function Record(s: System, log: Log, e: Event): Log
    requires Enabled(s, e)
  {
    match e
    case Send(_, _, verdict) =>
      (match Refusal(s.worker, verdict)
       case Some(answer) => log.(answers := log.answers[s.nextRequest := answer])
       case None => log.(owner := log.owner[s.worker.nextId := s.nextRequest]))
    case PollFires(id, expired) =>
      (match Poll(s.worker, id, Channel(s, id), expired).reply
       case Some(reply) => log.(answers := log.answers[reply.0 := reply.1])
       case None => log)
    case _ => log
  }

  /** Every request is in exactly one admission counter. */
  ghost predicate AdmissionsKept(m: Metrics, requests: nat) {
    m.admitted + m.full + m.closed + m.invalid + m.requestTooLarge == requests
  }

  predicate Owns(log: Log, id: nat, request: nat) {
    id in log.owner && log.owner[id] == request
  }

  /** The answer has its cause. */
  ghost predicate Explained(s: System, log: Log, request: nat, answer: Answer) {
    match answer
    case Terminal(result) => exists id :: Owns(log, id, request) && id in s.tasks && s.tasks[id] == Sent(result)
    case Lost => exists id :: Owns(log, id, request) && id in s.tasks && s.tasks[id].Died?
    case Timeout => exists id :: Owns(log, id, request) && id in s.abandonedEver
    case _ => forall id :: id in log.owner ==> log.owner[id] != request
  }

  /** Tasks have their requests, and entries in flight are entered under theirs. */
  ghost predicate OwnersKept(log: Log, tasks: map<nat, Task>, inFlight: map<nat, InFlight>, nextRequest: nat) {
    && log.owner.Keys == tasks.Keys
    && (forall id :: id in log.owner ==> log.owner[id] < nextRequest)
    && (forall id :: id in inFlight ==> Owns(log, id, inFlight[id].request))
  }

  /** The log has the answers that were given. */
  ghost predicate AnswersKept(log: Log, replied: multiset<nat>, nextRequest: nat) {
    && (forall r: nat :: r in log.answers <==> replied[r] > 0)
    && (forall r :: r in log.answers ==> r < nextRequest)
  }

  ghost predicate AllExplained(s: System, log: Log) {
    forall r :: r in log.answers ==> Explained(s, log, r, log.answers[r])
  }

  ghost predicate LogKept(s: System, log: Log) {
    && OwnersKept(log, s.tasks, s.worker.inFlight, s.nextRequest)
    && AnswersKept(log, s.replied, s.nextRequest)
    && AllExplained(s, log)
  }

  /** Tasks that ended, timeouts and owners stay what they are, so explanations stay valid. */
  ghost predicate Grows(s: System, log: Log, s': System, log': Log) {
    && (forall id :: id in log.owner ==> id in log'.owner && log'.owner[id] == log.owner[id])
    && (forall id :: id in log'.owner && id !in log.owner ==> log'.owner[id] == s.nextRequest)
    && (forall id :: id in s.tasks && (s.tasks[id].Sent? || s.tasks[id].Died?) ==>
          id in s'.tasks && s'.tasks[id] == s.tasks[id])
    && s.abandonedEver <= s'.abandonedEver
  }

  lemma {:induction false} StillExplained(s: System, log: Log, s': System, log': Log, r: nat, answer: Answer)
    requires Explained(s, log, r, answer) && Grows(s, log, s', log') && r < s.nextRequest
    ensures Explained(s', log', r, answer)
  {
    match answer
    case Terminal(result) =>
      var id :| Owns(log, id, r) && id in s.tasks && s.tasks[id] == Sent(result);
      assert Owns(log', id, r);
    case Lost =>
      var id :| Owns(log, id, r) && id in s.tasks && s.tasks[id].Died?;
      assert Owns(log', id, r);
    case Timeout =>
      var id :| Owns(log, id, r) && id in s.abandonedEver;
      assert Owns(log', id, r);
    case _ =>
  }

  lemma {:induction false} AllStillExplained(s: System, log: Log, s': System, log': Log)
    requires LogKept(s, log) && Grows(s, log, s', log')
    requires forall r :: r in log'.answers && r !in log.answers ==> Explained(s', log', r, log'.answers[r])
    requires forall r :: r in log.answers && r in log'.answers && log'.answers[r] != log.answers[r] ==>
               Explained(s', log', r, log'.answers[r])
    ensures AllExplained(s', log')
  {
    hide Explained, Grows, OwnersKept;
    forall r | r in log'.answers
      ensures Explained(s', log', r, log'.answers[r])
    {
      if r in log.answers && log'.answers[r] == log.answers[r] {
        StillExplained(s, log, s', log', r, log.answers[r]);
      }
    }
  }

  // --- Each event -------------------------------------------------------------------------

  lemma {:induction false} AdmitLogged(s: System, log: Log, kind: Kind, called: bool)
    requires s.worker.nextId !in s.tasks && LogKept(s, log)
    ensures var id, w := s.worker.nextId, Admit(s.worker, s.nextRequest, kind, called);
            LogKept(s.(worker := w, tasks := s.tasks[id := Running], polls := s.polls + multiset{id},
                       nextRequest := s.nextRequest + 1, peak := Max(s.peak, |w.inFlight|)),
                    log.(owner := log.owner[id := s.nextRequest]))
  {
    hide Explained, AllExplained, NoteAdmitKind;
    var id, w := s.worker.nextId, Admit(s.worker, s.nextRequest, kind, called);
    var s' := s.(worker := w, tasks := s.tasks[id := Running], polls := s.polls + multiset{id},
                 nextRequest := s.nextRequest + 1, peak := Max(s.peak, |w.inFlight|));
    AllStillExplained(s, log, s', log.(owner := log.owner[id := s.nextRequest]));
  }

  lemma {:induction false} RefuseLogged(s: System, log: Log, w: Worker, answer: Answer)
    requires LogKept(s, log) && w.inFlight == s.worker.inFlight && (answer.Closed? || answer.Rejected? || answer.Full?)
    ensures LogKept(s.(worker := w, nextRequest := s.nextRequest + 1, replied := s.replied + multiset{s.nextRequest}),
                    log.(answers := log.answers[s.nextRequest := answer]))
  {
    var s' := s.(worker := w, nextRequest := s.nextRequest + 1, replied := s.replied + multiset{s.nextRequest});
    var log' := log.(answers := log.answers[s.nextRequest := answer]);
    assert Explained(s', log', s.nextRequest, answer);
    hide Explained, AllExplained;
    AllStillExplained(s, log, s', log');
  }

  lemma {:induction false} PollExplained(s: System, log: Log, id: nat, expired: bool, log': Log)
    requires OwnersKept(log, s.tasks, s.worker.inFlight, s.nextRequest) && log'.owner == log.owner
    ensures var reply := Poll(s.worker, id, Channel(s, id), expired).reply;
            reply.Some? ==>
              && reply.value.0 < s.nextRequest
              && Explained(StepPoll(s, id, expired), log', reply.value.0, reply.value.1)
  {
    hide Retire, Abandon;
    if id in s.worker.inFlight {
      assert Owns(log, id, s.worker.inFlight[id].request);
      assert Owns(log', id, s.worker.inFlight[id].request);
    }
  }

  lemma {:induction false} PollKeepsRequests(s: System, id: nat, expired: bool)
    ensures var s' := StepPoll(s, id, expired);
            && s'.tasks == s.tasks && s'.nextRequest == s.nextRequest && s.abandonedEver <= s'.abandonedEver
            && forall i :: i in s'.worker.inFlight ==>
                 i in s.worker.inFlight && s'.worker.inFlight[i].request == s.worker.inFlight[i].request
  {
  }

  lemma {:induction false} PollReplied(s: System, id: nat, expired: bool)
    ensures var reply := Poll(s.worker, id, Channel(s, id), expired).reply;
            && (reply.None? ==> StepPoll(s, id, expired).replied == s.replied)
            && (reply.Some? ==> StepPoll(s, id, expired).replied == s.replied + multiset{reply.value.0})
  {
  }

  lemma {:induction false} PollLogged(s: System, log: Log, id: nat, expired: bool)
    requires LogKept(s, log)
    ensures LogKept(StepPoll(s, id, expired),
                    match Poll(s.worker, id, Channel(s, id), expired).reply
                    case Some(reply) => log.(answers := log.answers[reply.0 := reply.1])
                    case None => log)
  {
    hide Poll, StepPoll, Explained, AllExplained;
    var reply := Poll(s.worker, id, Channel(s, id), expired).reply;
    var log' := if reply.Some? then log.(answers := log.answers[reply.value.0 := reply.value.1]) else log;
    PollReplied(s, id, expired);
    PollExplained(s, log, id, expired, log');
    PollKeepsRequests(s, id, expired);
    AllStillExplained(s, log, StepPoll(s, id, expired), log');
  }

  lemma {:induction false} TaskLogged(s: System, log: Log, e: Event)
    requires LogKept(s, log) && Enabled(s, e) && !e.Send? && !e.PollFires?
    ensures LogKept(Step(s, e), log)
  {
    hide Explained, AllExplained, TallyTerminal;
    assert Grows(s, log, Step(s, e), log);
    AllStillExplained(s, log, Step(s, e), log);
  }

  lemma {:induction false} NextIsFresh(s: System, kind: Kind, called: bool, verdict: Verdict)
    requires Inv(s) && Enabled(s, Send(kind, called, verdict))
    ensures s.worker.nextId !in s.tasks
  {
    FreshId(s);
  }

  lemma {:induction false} StepLogged(s: System, log: Log, e: Event)
    requires Inv(s) && Enabled(s, e) && LogKept(s, log)
    ensures LogKept(Step(s, e), Record(s, log, e))
  {
    hide Inv, LogKept, StepPoll, Poll, Admit;
    match e
    case Send(kind, called, verdict) =>
      var refusal := Refusal(s.worker, verdict);
      if refusal.None? {
        NextIsFresh(s, kind, called, verdict);
        AdmitLogged(s, log, kind, called);
      } else {
        RefuseLogged(s, log, Refuse(s.worker, refusal.value), refusal.value);
      }
    case PollFires(id, expired) => PollLogged(s, log, id, expired);
    case _ => TaskLogged(s, log, e);
  }

  lemma {:induction false} PollAdmissions(s: System, id: nat, expired: bool)
    requires AdmissionsKept(s.worker.metrics, s.nextRequest)
    ensures AdmissionsKept(StepPoll(s, id, expired).worker.metrics, StepPoll(s, id, expired).nextRequest)
  {
    hide NoteTerminalKind;
  }

  lemma {:induction false} SendAdmissions(s: System, kind: Kind, called: bool, verdict: Verdict)
    requires AdmissionsKept(s.worker.metrics, s.nextRequest)
    ensures var s' := StepSend(s, kind, called, verdict); AdmissionsKept(s'.worker.metrics, s'.nextRequest)
  {
    hide NoteAdmitKind;
  }

  lemma {:induction false} StepAdmissions(s: System, e: Event)
    requires Enabled(s, e) && AdmissionsKept(s.worker.metrics, s.nextRequest)
    ensures AdmissionsKept(Step(s, e).worker.metrics, Step(s, e).nextRequest)
  {
    hide StepSend, StepPoll;
    match e
    case Send(kind, called, verdict) => SendAdmissions(s, kind, called, verdict);
    case PollFires(id, expired) => PollAdmissions(s, id, expired);
    case _ =>
  }

  // --- Theorem ----------------------------------------------------------------------------

  /** The log of a run, beside its state. */
  function LogOf(maxInFlight: nat, events: seq<Event>): (log: Log)
    ensures LogKept(RunOf(maxInFlight, events), log)
    ensures AdmissionsKept(RunOf(maxInFlight, events).worker.metrics, RunOf(maxInFlight, events).nextRequest)
    decreases |events|
  {
    hide LogKept, Inv, Record, Step, AdmissionsKept, Enabled;
    if events == [] then
      StartLogged(maxInFlight);
      Log(map[], map[])
    else
      var last := |events| - 1;
      var log := LogOf(maxInFlight, events[..last]);
      var s := RunOf(maxInFlight, events[..last]);
      if Enabled(s, events[last]) then
        StepLogged(s, log, events[last]);
        StepAdmissions(s, events[last]);
        Record(s, log, events[last])
      else log
  }

  lemma {:induction false} StartLogged(maxInFlight: nat)
    ensures LogKept(Start(maxInFlight), Log(map[], map[])) && AdmissionsKept(ZERO, 0)
  {
  }

  /**
    In every interleaving: a request has an answer exactly when it is not in flight unanswered,
    each answer has its own cause, and every request is in exactly one admission counter.
   */
  lemma {:induction false} EveryAnswerHasItsCause(maxInFlight: nat, events: seq<Event>)
    ensures var s, log := RunOf(maxInFlight, events), LogOf(maxInFlight, events);
            var m := s.worker.metrics;
            && (forall r: nat :: r in log.answers <==> r < s.nextRequest && !Unanswered(s.worker.inFlight, r))
            && (forall r :: r in log.answers ==> Explained(s, log, r, log.answers[r]))
            && (forall id :: id in s.worker.inFlight ==> Owns(log, id, s.worker.inFlight[id].request))
            && m.admitted + m.full + m.closed + m.invalid + m.requestTooLarge == s.nextRequest
  {
    hide RunOf, LogOf, Explained, Unanswered, GaugesKept, EntriesKept, TasksKept, TotalsKept;
    var s, log := RunOf(maxInFlight, events), LogOf(maxInFlight, events);
    assert Inv(s) && LogKept(s, log);
  }
}
