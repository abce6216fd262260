/**
  What every request, poll and result of the bridge leads to, in every reachable state, by the
  events alone: when it was closed, which polls were past the deadline, what each task returned.
 */
module BridgeTurns {
  import opened Bytes
  import opened Bridge
  import opened BridgeAnswers

  // --- The closed flag --------------------------------------------------------------------

  lemma {:induction false} SendKeepsFlag(s: System, kind: Kind, called: bool, verdict: Verdict)
    ensures StepSend(s, kind, called, verdict).worker.closed == s.worker.closed
  {
    hide NoteAdmitKind;
  }

  lemma {:induction false} StepFlag(s: System, e: Event)
    requires Enabled(s, e)
    ensures Step(s, e).worker.closed == (s.worker.closed || e.CloseBridge?)
  {
    hide StepSend, StepPoll, TallyTerminal;
    match e
    case Send(kind, called, verdict) => SendKeepsFlag(s, kind, called, verdict);
    case PollFires(id, expired) => PollShrinks(s, id, expired);
    case _ =>
  }

  lemma {:induction false} InSnoc<T>(all: seq<T>, x: T)
    requires all != []
    ensures x in all <==> x in all[..|all| - 1] || x == all[|all| - 1]
  {
  }

  /** The bridge is closed exactly from the first close on. */
  lemma {:induction false} ClosedSince(maxInFlight: nat, events: seq<Event>)
    ensures RunOf(maxInFlight, events).worker.closed <==> CloseBridge in events
    decreases |events|
  {
    hide Inv, Step;
    if events != [] {
      var last := |events| - 1;
      ClosedSince(maxInFlight, events[..last]);
      InSnoc(events, CloseBridge);
      var s := RunOf(maxInFlight, events[..last]);
      if Enabled(s, events[last]) {
        StepFlag(s, events[last]);
      }
    }
  }

  // --- Requests ---------------------------------------------------------------------------

  /** What a request is refused with; `None` when it is admitted. */
  function Refused(s: System, closed: bool, verdict: Verdict): Option<Answer> {
    if closed then Some(Closed)
    else if !verdict.Valid? then Some(Rejected(verdict))
    else if |s.worker.inFlight| == s.worker.maxInFlight then Some(Full)
    else None
  }

  /** The request's entry, task and poll are there under the next id, and it is not answered. */
  ghost predicate Admitted(s: System, s': System, kind: Kind, called: bool) {
    var id := 1 + s.worker.metrics.admitted;
    && id !in s.worker.inFlight && id !in s.tasks
    && s'.worker.inFlight == s.worker.inFlight[id := InFlight(s.nextRequest, kind, called, !called, false)]
    && s'.tasks == s.tasks[id := Running] && s'.polls == s.polls + multiset{id} && s'.replied == s.replied
  }

  lemma {:induction false} SendFinds(s: System)
    requires Inv(s) && s.worker.metrics.admitted < USIZE_MAX
    ensures s.worker.nextId == 1 + s.worker.metrics.admitted && |s.worker.inFlight| <= s.worker.maxInFlight
    ensures s.worker.nextId !in s.tasks && s.worker.nextId !in s.worker.inFlight
  {
    FreshId(s);
    hide EntriesKept, RepliesKept, TasksKept, TotalsKept, KindsKept;
  }

  lemma {:induction false} SendShape(s: System, kind: Kind, called: bool, verdict: Verdict)
    requires s.worker.nextId == 1 + s.worker.metrics.admitted < USIZE_MAX + 1
    requires |s.worker.inFlight| <= s.worker.maxInFlight
    requires s.worker.nextId !in s.tasks && s.worker.nextId !in s.worker.inFlight
    ensures var s' := StepSend(s, kind, called, verdict);
            match Refused(s, s.worker.closed, verdict)
            case Some(answer) =>
              && s'.worker.inFlight == s.worker.inFlight && s'.tasks == s.tasks && s'.polls == s.polls
              && Record(s, Log(map[], map[]), Send(kind, called, verdict)).answers == map[s.nextRequest := answer]
            case None =>
              && Admitted(s, s', kind, called)
              && Record(s, Log(map[], map[]), Send(kind, called, verdict)).answers == map[]
  {
    hide NoteAdmitKind;
  }

  lemma {:induction false} SendIsExact(s: System, kind: Kind, called: bool, verdict: Verdict)
    requires Inv(s) && Enabled(s, Send(kind, called, verdict))
    ensures var s' := StepSend(s, kind, called, verdict);
            match Refused(s, s.worker.closed, verdict)
            case Some(answer) =>
              && s'.worker.inFlight == s.worker.inFlight && s'.tasks == s.tasks && s'.polls == s.polls
              && Record(s, Log(map[], map[]), Send(kind, called, verdict)).answers == map[s.nextRequest := answer]
            case None =>
              && Admitted(s, s', kind, called)
              && Record(s, Log(map[], map[]), Send(kind, called, verdict)).answers == map[]
  {
    hide Inv, StepSend, Record, Admitted;
    SendFinds(s);
    SendShape(s, kind, called, verdict);
  }

  // --- Polls ------------------------------------------------------------------------------

  /** The answer a poll gives to the entry's request, if any. */
  function PollAnswer(s: System, id: nat, expired: bool): Option<Answer>
    requires id in s.worker.inFlight && id in s.tasks
  {
    var entry := s.worker.inFlight[id];
    match s.tasks[id]
    case Sent(result) => if entry.abandoned then None else Some(Terminal(result))
    case Died => if entry.abandoned then None else Some(Lost)
    case _ => if entry.waiting && expired then Some(Timeout) else None
  }

  ghost predicate Ended(t: Task) {
    t.Sent? || t.Died?
  }

  lemma {:induction false} PollFinds(s: System, id: nat)
    requires Inv(s) && id in s.polls
    ensures id in s.worker.inFlight && id in s.tasks && s.polls[id] == 1
    ensures var entry := s.worker.inFlight[id]; entry.abandoned == !(entry.waiting || entry.plain)
  {
    hide GaugesKept, RepliesKept, TotalsKept;
  }

  lemma {:induction false} EndedPoll(s: System, id: nat, expired: bool)
    requires id in s.worker.inFlight && id in s.tasks && s.polls[id] == 1 && Ended(s.tasks[id])
    ensures var s' := StepPoll(s, id, expired);
            s'.tasks == s.tasks && s'.worker.inFlight == s.worker.inFlight - {id} && s'.polls[id] == 0
  {
    hide NoteTerminalKind;
  }

  lemma {:induction false} OpenPoll(s: System, id: nat, expired: bool)
    requires id in s.worker.inFlight && id in s.tasks && s.polls[id] == 1 && !Ended(s.tasks[id])
    ensures var s', entry := StepPoll(s, id, expired), s.worker.inFlight[id];
            && s'.tasks == s.tasks && s'.polls[id] == 1
            && (if entry.waiting && expired then
                  s'.worker.inFlight == s.worker.inFlight[id := entry.(waiting := false, abandoned := true)]
                else s' == s)
  {
    assert s.polls - multiset{id} + multiset{id} == s.polls && s.replied + multiset{} == s.replied;
    assert s.abandonedEver + {} == s.abandonedEver;
  }

  lemma {:induction false} PollRecords(s: System, id: nat, expired: bool)
    requires id in s.worker.inFlight && id in s.tasks && id in s.polls
    requires var entry := s.worker.inFlight[id]; entry.abandoned == !(entry.waiting || entry.plain)
    ensures var answer := PollAnswer(s, id, expired);
            Record(s, Log(map[], map[]), PollFires(id, expired)).answers
            == if answer.Some? then map[s.worker.inFlight[id].request := answer.value] else map[]
  {
    hide Retire, Abandon;
  }

  lemma {:induction false} PollIsExact(s: System, id: nat, expired: bool)
    requires Inv(s) && Enabled(s, PollFires(id, expired))
    ensures id in s.worker.inFlight && id in s.tasks
    ensures var s', entry := StepPoll(s, id, expired), s.worker.inFlight[id];
            var answer := PollAnswer(s, id, expired);
            && Record(s, Log(map[], map[]), PollFires(id, expired)).answers
               == (if answer.Some? then map[entry.request := answer.value] else map[])
            && s'.tasks == s.tasks
            && s'.worker.inFlight
               == (if Ended(s.tasks[id]) then s.worker.inFlight - {id}
                   else if answer.Some? then s.worker.inFlight[id := entry.(waiting := false, abandoned := true)]
                   else s.worker.inFlight)
            && s'.polls[id] == (if Ended(s.tasks[id]) then 0 else 1)
            && (!Ended(s.tasks[id]) && answer.None? ==> s' == s)
  {
    hide Inv, StepPoll, Record;
    PollFinds(s, id);
    PollRecords(s, id, expired);
    if Ended(s.tasks[id]) {
      EndedPoll(s, id, expired);
    } else {
      OpenPoll(s, id, expired);
    }
  }

  /**
    In every reachable state: a request is refused as closed, invalid or full, in this order and
    for these causes only, or is admitted; a poll answers with the result of an ended task, with
    its loss, or with a timeout exactly when the task has not ended, a caller waits and the poll
    is past the deadline; otherwise it changes nothing.
   */
  lemma {:induction false} TurnsAreExact(maxInFlight: nat, events: seq<Event>, e: Event)
    ensures var s, s' := RunOf(maxInFlight, events), RunOf(maxInFlight, events + [e]);
            && s.worker.maxInFlight == maxInFlight
            && (Enabled(s, e) && e.Send? ==>
                  match Refused(s, CloseBridge in events, e.verdict)
                  case Some(answer) =>
                    && s'.worker.inFlight == s.worker.inFlight && s'.tasks == s.tasks
                    && Record(s, Log(map[], map[]), e).answers == map[s.nextRequest := answer]
                  case None =>
                    Admitted(s, s', e.kind, e.called) && Record(s, Log(map[], map[]), e).answers == map[])
            && (Enabled(s, e) && e.PollFires? ==>
                  && e.id in s.worker.inFlight && e.id in s.tasks
                  && var answer := PollAnswer(s, e.id, e.expired);
                     && Record(s, Log(map[], map[]), e).answers
                        == (if answer.Some? then map[s.worker.inFlight[e.id].request := answer.value] else map[])
                     && (e.id in s'.worker.inFlight <==> !Ended(s.tasks[e.id]))
                     && (!Ended(s.tasks[e.id]) && answer.None? ==> s' == s))
  {
    hide RunOf, Inv, StepSend, StepPoll, Record, Admitted, PollAnswer;
    var s := RunOf(maxInFlight, events);
    assert Inv(s);
    RunSnoc(maxInFlight, events, e);
    ClosedSince(maxInFlight, events);
    if Enabled(s, e) && e.Send? {
      SendIsExact(s, e.kind, e.called, e.verdict);
    }
    if Enabled(s, e) && e.PollFires? {
      PollIsExact(s, e.id, e.expired);
    }
  }

  // --- Timeouts ---------------------------------------------------------------------------

  lemma {:induction false} StepAbandons(s: System, e: Event)
    requires Enabled(s, e)
    ensures Step(s, e).abandonedEver == s.abandonedEver
         || (e.PollFires? && e.expired && Step(s, e).abandonedEver == s.abandonedEver + {e.id})
  {
    hide TallyTerminal, NoteAdmitKind, NoteTerminalKind;
    assert s.abandonedEver + {} == s.abandonedEver;
  }

  lemma {:induction false} AbandonedWereExpired(maxInFlight: nat, events: seq<Event>)
    ensures forall id :: id in RunOf(maxInFlight, events).abandonedEver ==> PollFires(id, true) in events
    decreases |events|
  {
    hide Inv, Step;
    if events != [] {
      var last := |events| - 1;
      AbandonedWereExpired(maxInFlight, events[..last]);
      var s := RunOf(maxInFlight, events[..last]);
      if Enabled(s, events[last]) {
        StepAbandons(s, events[last]);
      }
      forall id | id in RunOf(maxInFlight, events).abandonedEver
        ensures PollFires(id, true) in events
      {
        InSnoc(events, PollFires(id, true));
      }
    }
  }

  /** A request is answered with a timeout only if a poll of its own entry was past the deadline. */
  lemma {:induction false} TimeoutsWereExpired(maxInFlight: nat, events: seq<Event>)
    ensures var log := LogOf(maxInFlight, events);
            forall r :: r in log.answers && log.answers[r].Timeout? ==>
              exists id :: Owns(log, id, r) && PollFires(id, true) in events
  {
    hide RunOf, LogOf, Owns;
    var s, log := RunOf(maxInFlight, events), LogOf(maxInFlight, events);
    EveryAnswerHasItsCause(maxInFlight, events);
    AbandonedWereExpired(maxInFlight, events);
    forall r | r in log.answers && log.answers[r].Timeout?
      ensures exists id :: Owns(log, id, r) && PollFires(id, true) in events
    {
      var id :| Owns(log, id, r) && id in s.abandonedEver;
    }
  }

  // --- Results ----------------------------------------------------------------------------

  /** What each finished task returned. */
  function ResultsOf(maxInFlight: nat, events: seq<Event>): map<nat, TaskResult>
    decreases |events|
  {
    if events == [] then map[]
    else
      var last := |events| - 1;
      var results, e := ResultsOf(maxInFlight, events[..last]), events[last];
      if e.TaskFinishes? && Enabled(RunOf(maxInFlight, events[..last]), e) then results[e.id := e.result] else results
  }

  function WithResult(results: map<nat, TaskResult>, result: TaskResult): set<nat> {
    set id | id in results && results[id] == result
  }

  /** Each terminal counter is the number of tasks that returned its results. */
  ghost predicate Counted(m: Metrics, results: map<nat, TaskResult>) {
    && m.responses == |WithResult(results, Done)|
    && m.bodyErrors == |WithResult(results, BodyError)|
    && m.responseTooLarge == |WithResult(results, ResponseTooLarge)|
    && m.sdkErrors == |WithResult(results, NotFound)| + |WithResult(results, AccessDenied)|
                      + |WithResult(results, Throttled)| + |WithResult(results, SdkError)|
  }

  lemma {:induction false} SameResult(results: map<nat, TaskResult>, id: nat, result: TaskResult)
    requires id !in results
    ensures WithResult(results[id := result], result) == WithResult(results, result) + {id}
    ensures id !in WithResult(results, result)
  {
  }

  lemma {:induction false} OtherResult(results: map<nat, TaskResult>, id: nat, result: TaskResult, other: TaskResult)
    requires id !in results && other != result
    ensures WithResult(results[id := result], other) == WithResult(results, other)
  {
  }

  lemma {:induction false} OneMoreResult(results: map<nat, TaskResult>, id: nat, result: TaskResult, other: TaskResult)
    requires id !in results
    ensures |WithResult(results[id := result], other)| == |WithResult(results, other)| + if other == result then 1 else 0
  {
    hide WithResult;
    if other == result {
      SameResult(results, id, result);
    } else {
      OtherResult(results, id, result, other);
    }
  }

  lemma {:induction false} TallyCounts(m: Metrics, results: map<nat, TaskResult>, id: nat, result: TaskResult)
    requires Counted(m, results) && id !in results
    ensures Counted(TallyTerminal(m, result), results[id := result])
  {
    hide WithResult;
    OneMoreResult(results, id, result, Done);
    OneMoreResult(results, id, result, BodyError);
    OneMoreResult(results, id, result, ResponseTooLarge);
    OneMoreResult(results, id, result, NotFound);
    OneMoreResult(results, id, result, AccessDenied);
    OneMoreResult(results, id, result, Throttled);
    OneMoreResult(results, id, result, SdkError);
  }

  /** Only a finishing task moves the terminal counters. */
  lemma {:induction false} OthersDoNotCount(s: System, e: Event)
    requires Enabled(s, e) && !e.TaskFinishes?
    ensures SameResults(s, Step(s, e))
  {
    hide StepSend, StepPoll;
    match e
    case Send(kind, called, verdict) => SendDoesNotCount(s, kind, called, verdict);
    case PollFires(id, expired) => PollDoesNotCount(s, id, expired);
    case _ =>
  }

  ghost predicate SameResults(s: System, s': System) {
    var m, m' := s.worker.metrics, s'.worker.metrics;
    && m'.responses == m.responses && m'.bodyErrors == m.bodyErrors
    && m'.responseTooLarge == m.responseTooLarge && m'.sdkErrors == m.sdkErrors
    && s'.tallied == s.tallied
  }

  lemma {:induction false} SendDoesNotCount(s: System, kind: Kind, called: bool, verdict: Verdict)
    ensures SameResults(s, StepSend(s, kind, called, verdict))
  {
    hide NoteAdmitKind;
  }

  lemma {:induction false} PollDoesNotCount(s: System, id: nat, expired: bool)
    ensures SameResults(s, StepPoll(s, id, expired))
  {
    hide NoteTerminalKind;
  }

  /**
    Over every run each terminal counter is the number of finished tasks with its own results,
    and the tasks tallied are exactly those that finished.
   */
  lemma {:induction false} ResultsAreCounted(maxInFlight: nat, events: seq<Event>)
    ensures var s, results := RunOf(maxInFlight, events), ResultsOf(maxInFlight, events);
            results.Keys == s.tallied && Counted(s.worker.metrics, results)
    decreases |events|
  {
    hide Inv, Step, Counted;
    if events == [] {
      NothingReturned();
    } else {
      var last := |events| - 1;
      ResultsAreCounted(maxInFlight, events[..last]);
      var s, e := RunOf(maxInFlight, events[..last]), events[last];
      var results := ResultsOf(maxInFlight, events[..last]);
      if Enabled(s, e) {
        if e.TaskFinishes? {
          assert Inv(s);
          RunningIsNotTallied(s, e.id);
          TallyCounts(s.worker.metrics, results, e.id, e.result);
          FinishTallies(s, e);
        } else {
          OthersDoNotCount(s, e);
          SameCounts(s.worker.metrics, Step(s, e).worker.metrics, results);
        }
      }
    }
  }

  lemma {:induction false} NothingReturned()
    ensures Counted(ZERO, map[])
  {
    assert forall r: TaskResult :: WithResult(map[], r) == {};
  }

  lemma {:induction false} SameCounts(m: Metrics, m': Metrics, results: map<nat, TaskResult>)
    requires Counted(m, results) && m'.responses == m.responses && m'.bodyErrors == m.bodyErrors
    requires m'.responseTooLarge == m.responseTooLarge && m'.sdkErrors == m.sdkErrors
    ensures Counted(m', results)
  {
    hide WithResult;
  }

  lemma {:induction false} RunningIsNotTallied(s: System, id: nat)
    requires Inv(s) && id in s.tasks && s.tasks[id].Running?
    ensures id !in s.tallied
  {
    hide GaugesKept, EntriesKept, RepliesKept, TasksKept, LatenessKept;
  }

  lemma {:induction false} FinishTallies(s: System, e: Event)
    requires Enabled(s, e) && e.TaskFinishes?
    ensures Step(s, e).worker.metrics == TallyTerminal(s.worker.metrics, e.result)
    ensures Step(s, e).tallied == s.tallied + {e.id}
  {
  }

  // --- Refusals ---------------------------------------------------------------------------

  function WithAnswer(answers: map<nat, Answer>, answer: Answer): set<nat> {
    set r | r in answers && answers[r] == answer
  }

  /** Each refusal counter is the number of requests that were answered with it. */
  ghost predicate RefusalsCounted(m: Metrics, answers: map<nat, Answer>) {
    && m.closed == |WithAnswer(answers, Closed)|
    && m.full == |WithAnswer(answers, Full)|
    && m.invalid == |WithAnswer(answers, Rejected(Invalid))|
    && m.requestTooLarge == |WithAnswer(answers, Rejected(TooLarge))|
  }

  lemma {:induction false} AnswerJoins(answers: map<nat, Answer>, r: nat, answer: Answer)
    requires r !in answers
    ensures WithAnswer(answers[r := answer], answer) == WithAnswer(answers, answer) + {r}
    ensures r !in WithAnswer(answers, answer)
  {
  }

  lemma {:induction false} AnswerStaysOut(answers: map<nat, Answer>, r: nat, answer: Answer, other: Answer)
    requires r !in answers && other != answer
    ensures WithAnswer(answers[r := answer], other) == WithAnswer(answers, other)
  {
  }

  lemma {:induction false} OneMoreAnswer(answers: map<nat, Answer>, r: nat, answer: Answer, other: Answer)
    requires r !in answers
    ensures |WithAnswer(answers[r := answer], other)| == |WithAnswer(answers, other)| + if other == answer then 1 else 0
  {
    hide WithAnswer;
    if other == answer {
      AnswerJoins(answers, r, answer);
    } else {
      AnswerStaysOut(answers, r, answer, other);
    }
  }

  lemma {:induction false} AnswerCounts(answers: map<nat, Answer>, r: nat, answer: Answer)
    requires r !in answers
    ensures forall other :: other in {Closed, Full, Rejected(Invalid), Rejected(TooLarge)} ==>
              |WithAnswer(answers[r := answer], other)| == |WithAnswer(answers, other)| + if other == answer then 1 else 0
  {
    hide WithAnswer;
    OneMoreAnswer(answers, r, answer, Closed);
    OneMoreAnswer(answers, r, answer, Full);
    OneMoreAnswer(answers, r, answer, Rejected(Invalid));
    OneMoreAnswer(answers, r, answer, Rejected(TooLarge));
  }

  lemma {:induction false} RefusalCounts(w: Worker, answers: map<nat, Answer>, r: nat, verdict: Verdict)
    requires RefusalsCounted(w.metrics, answers) && r !in answers && Refusal(w, verdict).Some?
    ensures var answer := Refusal(w, verdict).value;
            RefusalsCounted(Refuse(w, answer).metrics, answers[r := answer])
  {
    AnswerCounts(answers, r, Refusal(w, verdict).value);
    hide WithAnswer;
  }

  lemma {:induction false} PollAnswers(s: System, id: nat, expired: bool)
    requires Inv(s) && Enabled(s, PollFires(id, expired))
    ensures var reply := Poll(s.worker, id, Channel(s, id), expired).reply;
            reply.Some? ==>
              && Unanswered(s.worker.inFlight, reply.value.0)
              && (reply.value.1.Timeout? || reply.value.1.Terminal? || reply.value.1.Lost?)
  {
    PollFinds(s, id);
    hide Inv, Retire, Abandon;
  }

  lemma {:induction false} PollCounters(s: System, id: nat, expired: bool)
    ensures var m, m' := s.worker.metrics, StepPoll(s, id, expired).worker.metrics;
            m'.closed == m.closed && m'.full == m.full && m'.invalid == m.invalid
            && m'.requestTooLarge == m.requestTooLarge
  {
    hide NoteTerminalKind;
  }

  lemma {:induction false} SendRefusals(s: System, log: Log, kind: Kind, called: bool, verdict: Verdict)
    requires RefusalsCounted(s.worker.metrics, log.answers) && s.nextRequest !in log.answers
    requires Enabled(s, Send(kind, called, verdict))
    ensures RefusalsCounted(StepSend(s, kind, called, verdict).worker.metrics,
                            Record(s, log, Send(kind, called, verdict)).answers)
  {
    if Refusal(s.worker, verdict).Some? {
      RefusalCounts(s.worker, log.answers, s.nextRequest, verdict);
      hide RefusalsCounted, Refusal, Refuse;
    } else {
      hide WithAnswer, NoteAdmitKind;
    }
  }

  lemma {:induction false} PollRefusals(s: System, log: Log, id: nat, expired: bool)
    requires RefusalsCounted(s.worker.metrics, log.answers) && Enabled(s, PollFires(id, expired))
    requires var reply := Poll(s.worker, id, Channel(s, id), expired).reply;
             reply.Some? ==>
               reply.value.0 !in log.answers && (reply.value.1.Timeout? || reply.value.1.Terminal? || reply.value.1.Lost?)
    ensures RefusalsCounted(StepPoll(s, id, expired).worker.metrics, Record(s, log, PollFires(id, expired)).answers)
  {
    hide WithAnswer, Poll, StepPoll;
    PollCounters(s, id, expired);
    var reply := Poll(s.worker, id, Channel(s, id), expired).reply;
    if reply.Some? {
      AnswerCounts(log.answers, reply.value.0, reply.value.1);
    }
  }

  lemma {:induction false} StepRefusals(s: System, log: Log, e: Event)
    requires Inv(s) && Enabled(s, e) && RefusalsCounted(s.worker.metrics, log.answers)
    requires forall r: nat :: r in log.answers <==> r < s.nextRequest && !Unanswered(s.worker.inFlight, r)
    ensures RefusalsCounted(Step(s, e).worker.metrics, Record(s, log, e).answers)
  {
    hide Inv, Unanswered, Poll, StepPoll, StepSend;
    match e
    case Send(kind, called, verdict) =>
      hide RefusalsCounted, Record;
      SendRefusals(s, log, kind, called, verdict);
    case PollFires(id, expired) =>
      hide RefusalsCounted, Record;
      PollAnswers(s, id, expired);
      PollRefusals(s, log, id, expired);
    case _ => hide WithAnswer;
  }

  /** Over every run each refusal counter is the number of requests refused for its own cause. */
  lemma {:induction false} RefusalsAreCounted(maxInFlight: nat, events: seq<Event>)
    ensures RefusalsCounted(RunOf(maxInFlight, events).worker.metrics, LogOf(maxInFlight, events).answers)
    decreases |events|
  {
    hide Inv, Step, Record, RefusalsCounted, LogKept, AdmissionsKept, Enabled;
    if events == [] {
      NothingRefused();
    } else {
      var last := |events| - 1;
      RefusalsAreCounted(maxInFlight, events[..last]);
      var s, log := RunOf(maxInFlight, events[..last]), LogOf(maxInFlight, events[..last]);
      if Enabled(s, events[last]) {
        EveryAnswerHasItsCause(maxInFlight, events[..last]);
        StepRefusals(s, log, events[last]);
      }
    }
  }

  lemma {:induction false} NothingRefused()
    ensures RefusalsCounted(ZERO, map[])
  {
    assert forall a: Answer :: WithAnswer(map[], a) == {};
  }
}
