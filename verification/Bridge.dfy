/**
  The bounded S3 bridge worker: admission, polling, timeout, and the counters it publishes, one
  handler turn or task step at a time.
 */
module Bridge {
  import opened Bytes

  datatype Kind = PutObject | GetObject | HeadObject | DeleteObject

  /** What `run_request` can come back with. */
  datatype TaskResult = Done | NotFound | AccessDenied | Throttled | SdkError | BodyError | ResponseTooLarge

  datatype Verdict = Valid | TooLarge | Invalid

  datatype Answer = Closed | Rejected(verdict: Verdict) | Full | Timeout | Terminal(result: TaskResult) | Lost

  /** `waiting` is a held request context; `plain` a request that came without one. */
  datatype InFlight = InFlight(request: nat, kind: Kind, waiting: bool, plain: bool, abandoned: bool)

  datatype Metrics = Metrics(
    admitted: nat,
    full: nat,
    closed: nat,
    invalid: nat,
    requestTooLarge: nat,
    timeouts: nat,
    responses: nat,
    sdkErrors: nat,
    bodyErrors: nat,
    responseTooLarge: nat,
    lateResults: nat,
    callerWaiting: int,
    inFlightCurrent: nat,
    lateInFlight: int,
    highWater: nat,
    byKind: map<Kind, nat>)

  const ZERO: Metrics := Metrics(0, 0, 0, 0, 0, 0, 0, 0, 0, 0, 0, 0, 0, 0, 0, map[])

  datatype Worker = Worker(maxInFlight: nat, inFlight: map<nat, InFlight>, nextId: nat, closed: bool, metrics: Metrics)

  // --- Counters ---------------------------------------------------------------------------

  function NoteAdmitKind(byKind: map<Kind, nat>, kind: Kind): map<Kind, nat> {
    byKind[kind := (if kind in byKind then byKind[kind] else 0) + 1]
  }

  /** An entry that reaches zero is removed. */
  function NoteTerminalKind(byKind: map<Kind, nat>, kind: Kind): map<Kind, nat> {
    if kind !in byKind then byKind
    else if SaturatingSub(byKind[kind], 1) == 0 then byKind - {kind}
    else byKind[kind := byKind[kind] - 1]
  }

  /** `tally_terminal`: each result of a finished task lands in exactly one counter. */
  function TallyTerminal(m: Metrics, result: TaskResult): Metrics {
    match result
    case Done => m.(responses := m.responses + 1)
    case BodyError => m.(bodyErrors := m.bodyErrors + 1)
    case ResponseTooLarge => m.(responseTooLarge := m.responseTooLarge + 1)
    case _ => m.(sdkErrors := m.sdkErrors + 1)
  }

  function TallyRejected(m: Metrics, verdict: Verdict): Metrics {
    if verdict.TooLarge? then m.(requestTooLarge := m.requestTooLarge + 1) else m.(invalid := m.invalid + 1)
  }

  // --- Handlers ---------------------------------------------------------------------------

  /** `Some(answer)` refuses at once; `None` admits under the worker's next id. */
  function Refusal(w: Worker, verdict: Verdict): Option<Answer> {
    if w.closed then Some(Closed)
    else if !verdict.Valid? then Some(Rejected(verdict))
    else if |w.inFlight| >= w.maxInFlight then Some(Full)
    else None
  }

  function Refuse(w: Worker, answer: Answer): Worker {
    var m := w.metrics;
    match answer
    case Closed => w.(metrics := m.(closed := m.closed + 1))
    case Rejected(verdict) => w.(metrics := TallyRejected(m, verdict))
    case _ => w.(metrics := m.(full := m.full + 1))
  }

  /** `admit`, past its checks. */
  function Admit(w: Worker, request: nat, kind: Kind, called: bool): Worker {
    var inFlight := w.inFlight[w.nextId := InFlight(request, kind, called, !called, false)];
    var m := w.metrics;
    w.(inFlight := inFlight,
       nextId := (w.nextId + 1) % (USIZE_MAX + 1),
       metrics := m.(admitted := m.admitted + 1,
                     byKind := NoteAdmitKind(m.byKind, kind),
                     callerWaiting := m.callerWaiting + (if called then 1 else 0),
                     inFlightCurrent := |inFlight|,
                     highWater := Max(m.highWater, |inFlight|)))
  }

  /** The channel as the handler finds it. */
  datatype Receive = Received(result: TaskResult) | Empty | Hungup

  /** `poll` when the task has ended: the entry retires. */
  function Retire(w: Worker, id: nat): Worker
    requires id in w.inFlight
  {
    var entry := w.inFlight[id];
    var inFlight := w.inFlight - {id};
    var m := w.metrics;
    w.(inFlight := inFlight,
       metrics := m.(lateInFlight := m.lateInFlight - (if entry.abandoned then 1 else 0),
                     callerWaiting := m.callerWaiting - (if !entry.abandoned && entry.waiting then 1 else 0),
                     byKind := NoteTerminalKind(m.byKind, entry.kind),
                     inFlightCurrent := |inFlight|))
  }

  /** `poll` past the deadline: the caller is answered, the task goes on abandoned. */
  function Abandon(w: Worker, id: nat): Worker
    requires id in w.inFlight
  {
    var m := w.metrics;
    w.(inFlight := w.inFlight[id := w.inFlight[id].(waiting := false, abandoned := true)],
       metrics := m.(timeouts := m.timeouts + 1,
                     callerWaiting := m.callerWaiting - 1,
                     lateInFlight := m.lateInFlight + 1))
  }

  /** What one `poll` leaves: the worker, an answer for a request, and whether it polls again. */
  datatype Polled = Polled(worker: Worker, reply: Option<(nat, Answer)>, again: bool)

  function Poll(w: Worker, id: nat, channel: Receive, expired: bool): (r: Polled) {
    if id !in w.inFlight then Polled(w, None, false)
    else
      var entry := w.inFlight[id];
      match channel
      case Empty =>
        if entry.waiting && expired then Polled(Abandon(w, id), Some((entry.request, Timeout)), true)
        else Polled(w, None, true)
      case Received(result) =>
        var answered := entry.waiting || entry.plain;
        Polled(Retire(w, id), if answered then Some((entry.request, Terminal(result))) else None, false)
      case Hungup =>
        var answered := entry.waiting || entry.plain;
        Polled(Retire(w, id), if answered then Some((entry.request, Lost)) else None, false)
  }

  // --- Runs -------------------------------------------------------------------------------

  /** The spawned task: it runs, tallies, looks at the abandoned flag, then sends; or it dies. */
  datatype Task = Running | Tallied(result: TaskResult) | Checked(result: TaskResult) | Sent(result: TaskResult) | Died

  /**
    The worker with its tasks and timers.  `replied` counts the answers per request; `tallied`,
    `late` and `abandonedEver` are the ids of tasks that were tallied, that saw their
    abandonment, and of entries that timed out; `peak` is the largest in-flight count so far.
   */
  datatype System = System(
    worker: Worker,
    tasks: map<nat, Task>,
    polls: multiset<nat>,
    nextRequest: nat,
    replied: multiset<nat>,
    tallied: set<nat>,
    late: set<nat>,
    abandonedEver: set<nat>,
    peak: nat)

  function Start(maxInFlight: nat): System {
    System(Worker(maxInFlight, map[], 1, false, ZERO), map[], multiset{}, 0, multiset{}, {}, {}, {}, 0)
  }

  datatype Event =
    | Send(kind: Kind, called: bool, verdict: Verdict)
    | PollFires(id: nat, expired: bool)
    | TaskFinishes(id: nat, result: TaskResult)
    | TaskChecks(id: nat)
    | TaskSends(id: nat)
    | TaskDies(id: nat)
    | CloseBridge

  predicate Enabled(s: System, e: Event) {
    match e
    case Send(_, _, _) => s.worker.metrics.admitted < USIZE_MAX
    case PollFires(id, _) => id in s.polls
    case TaskFinishes(id, _) => id in s.tasks && s.tasks[id].Running?
    case TaskChecks(id) => id in s.tasks && s.tasks[id].Tallied?
    case TaskSends(id) => id in s.tasks && s.tasks[id].Checked?
    case TaskDies(id) => id in s.tasks && !s.tasks[id].Sent? && !s.tasks[id].Died?
    case CloseBridge => true
  }

  function Channel(s: System, id: nat): Receive {
    if id !in s.tasks then Empty
    else
      match s.tasks[id]
      case Sent(result) => Received(result)
      case Died => Hungup
      case _ => Empty
  }

  function StepSend(s: System, kind: Kind, called: bool, verdict: Verdict): System {
    var refusal := Refusal(s.worker, verdict);
    var s1 := s.(nextRequest := s.nextRequest + 1);
    match refusal
    case Some(answer) =>
      s1.(worker := Refuse(s.worker, answer), replied := s.replied + multiset{s.nextRequest})
    case None =>
      var id := s.worker.nextId;
      var w := Admit(s.worker, s.nextRequest, kind, called);
      s1.(worker := w, tasks := s.tasks[id := Running], polls := s.polls + multiset{id},
          peak := Max(s.peak, |w.inFlight|))
  }

  function StepPoll(s: System, id: nat, expired: bool): System {
    var r := Poll(s.worker, id, Channel(s, id), expired);
    var timedOut := r.reply.Some? && r.reply.value.1.Timeout?;
    s.(worker := r.worker,
       polls := s.polls - multiset{id} + (if r.again then multiset{id} else multiset{}),
       replied := s.replied + (if r.reply.Some? then multiset{r.reply.value.0} else multiset{}),
       abandonedEver := s.abandonedEver + (if timedOut then {id} else {}))
  }

  function Step(s: System, e: Event): System
    requires Enabled(s, e)
  {
    match e
    case Send(kind, called, verdict) => StepSend(s, kind, called, verdict)
    case PollFires(id, expired) => StepPoll(s, id, expired)
    case TaskFinishes(id, result) =>
      s.(worker := s.worker.(metrics := TallyTerminal(s.worker.metrics, result)),
         tasks := s.tasks[id := Tallied(result)], tallied := s.tallied + {id})
    case TaskChecks(id) =>
      var flag := id in s.worker.inFlight && s.worker.inFlight[id].abandoned;
      var m := s.worker.metrics;
      s.(worker := s.worker.(metrics := m.(lateResults := m.lateResults + (if flag then 1 else 0))),
         tasks := s.tasks[id := Checked(s.tasks[id].result)], late := s.late + (if flag then {id} else {}))
    case TaskSends(id) => s.(tasks := s.tasks[id := Sent(s.tasks[id].result)])
    case TaskDies(id) => s.(tasks := s.tasks[id := Died])
    case CloseBridge => s.(worker := s.worker.(closed := true))
  }

  // --- The invariant ----------------------------------------------------------------------

  function Waiting(m: map<nat, InFlight>): set<nat> {
    set id | id in m && m[id].waiting
  }

  function Abandoned(m: map<nat, InFlight>): set<nat> {
    set id | id in m && m[id].abandoned
  }

  function OfKind(m: map<nat, InFlight>, kind: Kind): set<nat> {
    set id | id in m && m[id].kind == kind
  }

  /** The published gauges are the sizes of the sets they stand for. */
  ghost predicate GaugesKept(w: Worker) {
    var m := w.metrics;
    && m.inFlightCurrent == |w.inFlight| <= w.maxInFlight
    && m.callerWaiting == |Waiting(w.inFlight)|
    && m.lateInFlight == |Abandoned(w.inFlight)|
    && KindsKept(m.byKind, w.inFlight)
  }

  /** The per-kind map is the multiset of in-flight kinds, without zero entries. */
  ghost predicate KindsKept(byKind: map<Kind, nat>, inFlight: map<nat, InFlight>) {
    && (forall k: Kind :: KindCount(byKind, k) == |OfKind(inFlight, k)|)
    && (forall k: Kind :: k in byKind ==> byKind[k] > 0)
  }

  function KindCount(byKind: map<Kind, nat>, k: Kind): nat {
    if k in byKind then byKind[k] else 0
  }

  /** An entry waits for its caller, was abandoned by it, or never had one. */
  ghost predicate EntriesKept(inFlight: map<nat, InFlight>, nextRequest: nat) {
    && (forall id :: id in inFlight ==>
          && inFlight[id].request < nextRequest
          && (if inFlight[id].plain then !inFlight[id].waiting && !inFlight[id].abandoned
              else inFlight[id].waiting == !inFlight[id].abandoned))
    && (forall i, j :: i in inFlight && j in inFlight && inFlight[i].request == inFlight[j].request ==> i == j)
  }

  /** The request is admitted and has not been answered. */
  predicate Unanswered(inFlight: map<nat, InFlight>, request: nat) {
    exists id :: id in inFlight && inFlight[id].request == request && (inFlight[id].waiting || inFlight[id].plain)
  }

  ghost predicate RepliesKept(inFlight: map<nat, InFlight>, replied: multiset<nat>, nextRequest: nat) {
    forall r: nat :: replied[r] == if r < nextRequest && !Unanswered(inFlight, r) then 1 else 0
  }

  /** Ids are handed out once; a task that has not ended still has its entry and its one timer. */
  ghost predicate TasksKept(w: Worker, tasks: map<nat, Task>, polls: multiset<nat>) {
    && w.metrics.admitted <= USIZE_MAX
    && w.nextId == (1 + w.metrics.admitted) % (USIZE_MAX + 1)
    && (forall id :: id in tasks ==> 1 <= id <= w.metrics.admitted)
    && w.inFlight.Keys <= tasks.Keys
    && (forall id :: id in tasks && !tasks[id].Sent? && !tasks[id].Died? ==> id in w.inFlight)
    && (forall id: nat :: polls[id] == if id in w.inFlight then 1 else 0)
  }

  /** Timeouts are the entries ever abandoned; late results the tasks among them that saw it. */
  ghost predicate LatenessKept(
    timeouts: nat, lateResults: nat, inFlight: map<nat, InFlight>, tasks: map<nat, Task>, late: set<nat>,
    abandonedEver: set<nat>)
  {
    && timeouts == |abandonedEver| && lateResults == |late| && late <= abandonedEver
    && Abandoned(inFlight) <= abandonedEver <= tasks.Keys
    && (forall id :: id in abandonedEver && id in inFlight ==> inFlight[id].abandoned)
    && (forall id :: id in tasks && (tasks[id].Running? || tasks[id].Tallied?) ==> id !in late)
  }

  function TerminalTotal(m: Metrics): nat {
    m.responses + m.sdkErrors + m.bodyErrors + m.responseTooLarge
  }

  /** Every task that finished was counted once; a dead one at most once. */
  ghost predicate TallyKept(total: nat, tasks: map<nat, Task>, tallied: set<nat>) {
    && total == |tallied| && tallied <= tasks.Keys
    && (forall id :: id in tasks && tasks[id].Running? ==> id !in tallied)
    && (forall id :: id in tasks && !tasks[id].Running? && !tasks[id].Died? ==> id in tallied)
  }

  ghost predicate TotalsKept(s: System) {
    var w := s.worker;
    && LatenessKept(w.metrics.timeouts, w.metrics.lateResults, w.inFlight, s.tasks, s.late, s.abandonedEver)
    && TallyKept(TerminalTotal(w.metrics), s.tasks, s.tallied)
    && w.metrics.highWater == s.peak && w.metrics.inFlightCurrent <= s.peak <= w.maxInFlight
  }

  ghost predicate Inv(s: System) {
    && GaugesKept(s.worker)
    && EntriesKept(s.worker.inFlight, s.nextRequest)
    && RepliesKept(s.worker.inFlight, s.replied, s.nextRequest)
    && TasksKept(s.worker, s.tasks, s.polls)
    && TotalsKept(s)
  }

  lemma {:induction false} StartGauges(maxInFlight: nat)
    ensures GaugesKept(Start(maxInFlight).worker)
  {
    var none: map<nat, InFlight> := map[];
    assert Waiting(none) == {} && Abandoned(none) == {};
    assert forall k: Kind :: OfKind(none, k) == {};
  }

  lemma {:induction false} NoneAbandoned()
    ensures Abandoned(map[]) == {}
  {
  }

  lemma {:induction false} StartLateness()
    ensures LatenessKept(0, 0, map[], map[], {}, {})
  {
    NoneAbandoned();
    hide Abandoned;
  }

  lemma {:induction false} StartTally()
    ensures TallyKept(0, map[], {})
  {
  }

  lemma {:induction false} NothingCounted()
    ensures TerminalTotal(ZERO) == 0
  {
  }

  lemma {:induction false} StartTotals(maxInFlight: nat)
    ensures TotalsKept(Start(maxInFlight))
  {
    StartLateness();
    StartTally();
    NothingCounted();
    hide LatenessKept, TallyKept, TerminalTotal;
  }

  lemma {:induction false} StartTasks(maxInFlight: nat)
    ensures TasksKept(Start(maxInFlight).worker, map[], multiset{})
  {
    hide Waiting, Abandoned, OfKind;
  }

  lemma {:induction false} StartReplies()
    ensures EntriesKept(map[], 0) && RepliesKept(map[], multiset{}, 0)
  {
  }

  lemma {:induction false} StartInv(maxInFlight: nat)
    ensures Inv(Start(maxInFlight))
  {
    hide GaugesKept, EntriesKept, RepliesKept, TasksKept, TotalsKept;
    StartGauges(maxInFlight);
    StartTotals(maxInFlight);
    StartTasks(maxInFlight);
    StartReplies();
  }

  // --- Counting entries -------------------------------------------------------------------

  function Bit(b: bool): nat {
    if b then 1 else 0
  }

  lemma {:induction false} InsertWaiting(a: map<nat, InFlight>, id: nat, entry: InFlight)
    requires id !in a
    ensures |Waiting(a[id := entry])| == |Waiting(a)| + Bit(entry.waiting)
  {
    var b := a[id := entry];
    if entry.waiting {
      assert Waiting(b) == Waiting(a) + {id};
    } else {
      assert Waiting(b) == Waiting(a);
    }
  }

  lemma {:induction false} InsertAbandoned(a: map<nat, InFlight>, id: nat, entry: InFlight)
    requires id !in a
    ensures |Abandoned(a[id := entry])| == |Abandoned(a)| + Bit(entry.abandoned)
  {
    var b := a[id := entry];
    if entry.abandoned {
      assert Abandoned(b) == Abandoned(a) + {id};
    } else {
      assert Abandoned(b) == Abandoned(a);
    }
  }

  lemma {:induction false} InsertCounts(a: map<nat, InFlight>, id: nat, entry: InFlight)
    requires id !in a
    ensures var b := a[id := entry];
            && |b| == |a| + 1
            && |Waiting(b)| == |Waiting(a)| + Bit(entry.waiting)
            && |Abandoned(b)| == |Abandoned(a)| + Bit(entry.abandoned)
  {
    hide Waiting, Abandoned;
    InsertWaiting(a, id, entry);
    InsertAbandoned(a, id, entry);
    assert a[id := entry].Keys == a.Keys + {id};
  }

  lemma {:induction false} InsertKinds(a: map<nat, InFlight>, id: nat, entry: InFlight, byKind: map<Kind, nat>)
    requires id !in a && KindsKept(byKind, a)
    ensures KindsKept(NoteAdmitKind(byKind, entry.kind), a[id := entry])
  {
    var b, byKind' := a[id := entry], NoteAdmitKind(byKind, entry.kind);
    forall k: Kind
      ensures KindCount(byKind', k) == |OfKind(b, k)|
    {
      assert KindCount(byKind, k) == |OfKind(a, k)|;
      assert OfKind(b, k) == OfKind(a, k) + if k == entry.kind then {id} else {};
    }
  }

  lemma {:induction false} RemoveWaiting(a: map<nat, InFlight>, id: nat)
    requires id in a
    ensures |Waiting(a - {id})| == |Waiting(a)| - Bit(a[id].waiting)
  {
    assert Waiting(a - {id}) == Waiting(a) - {id} && (id in Waiting(a) <==> a[id].waiting);
  }

  lemma {:induction false} RemoveAbandoned(a: map<nat, InFlight>, id: nat)
    requires id in a
    ensures |Abandoned(a - {id})| == |Abandoned(a)| - Bit(a[id].abandoned)
  {
    assert Abandoned(a - {id}) == Abandoned(a) - {id} && (id in Abandoned(a) <==> a[id].abandoned);
  }

  lemma {:induction false} RemoveCounts(a: map<nat, InFlight>, id: nat)
    requires id in a
    ensures var b := a - {id};
            && |b| == |a| - 1
            && |Waiting(b)| == |Waiting(a)| - Bit(a[id].waiting)
            && |Abandoned(b)| == |Abandoned(a)| - Bit(a[id].abandoned)
  {
    hide Waiting, Abandoned;
    RemoveWaiting(a, id);
    RemoveAbandoned(a, id);
    assert (a - {id}).Keys == a.Keys - {id};
  }

  lemma {:induction false} KindFalls(byKind: map<Kind, nat>, kind: Kind, k: Kind)
    requires KindCount(byKind, kind) >= 1 && forall k: Kind :: k in byKind ==> byKind[k] > 0
    ensures var after := NoteTerminalKind(byKind, kind);
            && KindCount(after, k) == KindCount(byKind, k) - Bit(k == kind)
            && (k in after ==> after[k] > 0)
  {
  }

  lemma {:induction false} RemoveOfKind(a: map<nat, InFlight>, id: nat, k: Kind)
    requires id in a
    ensures |OfKind(a - {id}, k)| == |OfKind(a, k)| - Bit(k == a[id].kind)
  {
    assert OfKind(a - {id}, k) == OfKind(a, k) - {id} && (id in OfKind(a, k) <==> k == a[id].kind);
  }

  lemma {:induction false} RemoveKinds(a: map<nat, InFlight>, id: nat, byKind: map<Kind, nat>)
    requires id in a && KindsKept(byKind, a)
    ensures KindsKept(NoteTerminalKind(byKind, a[id].kind), a - {id})
  {
    hide NoteTerminalKind, OfKind;
    RemoveOfKind(a, id, a[id].kind);
    forall k: Kind
      ensures KindCount(NoteTerminalKind(byKind, a[id].kind), k) == |OfKind(a - {id}, k)|
      ensures k in NoteTerminalKind(byKind, a[id].kind) ==> NoteTerminalKind(byKind, a[id].kind)[k] > 0
    {
      KindFalls(byKind, a[id].kind, k);
      RemoveOfKind(a, id, k);
    }
  }

  lemma {:induction false} AbandonKinds(a: map<nat, InFlight>, id: nat, byKind: map<Kind, nat>)
    requires id in a && KindsKept(byKind, a)
    ensures KindsKept(byKind, a[id := a[id].(waiting := false, abandoned := true)])
  {
    var b := a[id := a[id].(waiting := false, abandoned := true)];
    forall k: Kind
      ensures OfKind(b, k) == OfKind(a, k)
    {
    }
  }

  lemma {:induction false} AbandonWaiting(a: map<nat, InFlight>, id: nat)
    requires id in a && a[id].waiting && !a[id].abandoned
    ensures var b := a[id := a[id].(waiting := false, abandoned := true)];
            |Waiting(b)| == |Waiting(a)| - 1 && |Abandoned(b)| == |Abandoned(a)| + 1
  {
    var b := a[id := a[id].(waiting := false, abandoned := true)];
    assert Waiting(b) == Waiting(a) - {id} && id in Waiting(a);
    assert Abandoned(b) == Abandoned(a) + {id} && id !in Abandoned(a);
  }

  lemma {:induction false} AbandonCounts(a: map<nat, InFlight>, id: nat, byKind: map<Kind, nat>)
    requires id in a && a[id].waiting && !a[id].abandoned && KindsKept(byKind, a)
    ensures var b := a[id := a[id].(waiting := false, abandoned := true)];
            && |b| == |a| && |Waiting(b)| == |Waiting(a)| - 1 && |Abandoned(b)| == |Abandoned(a)| + 1
            && KindsKept(byKind, b)
  {
    hide Waiting, Abandoned, KindsKept;
    AbandonWaiting(a, id);
    AbandonKinds(a, id, byKind);
    assert a[id := a[id].(waiting := false, abandoned := true)].Keys == a.Keys;
  }

  lemma {:induction false} AdmitGauges(w: Worker, request: nat, kind: Kind, called: bool)
    requires GaugesKept(w) && w.nextId !in w.inFlight && |w.inFlight| < w.maxInFlight
    ensures GaugesKept(Admit(w, request, kind, called))
  {
    hide Waiting, Abandoned, KindsKept, NoteAdmitKind;
    var entry := InFlight(request, kind, called, !called, false);
    InsertCounts(w.inFlight, w.nextId, entry);
    InsertKinds(w.inFlight, w.nextId, entry, w.metrics.byKind);
  }

  lemma {:induction false} RetireGauges(w: Worker, id: nat)
    requires GaugesKept(w) && id in w.inFlight && (w.inFlight[id].abandoned ==> !w.inFlight[id].waiting)
    ensures GaugesKept(Retire(w, id))
    ensures w.inFlight[id].waiting ==> 1 <= w.metrics.callerWaiting
    ensures w.inFlight[id].abandoned ==> 1 <= w.metrics.lateInFlight
  {
    hide Waiting, Abandoned, KindsKept, NoteTerminalKind;
    RemoveCounts(w.inFlight, id);
    RemoveKinds(w.inFlight, id, w.metrics.byKind);
  }

  lemma {:induction false} AbandonGauges(w: Worker, id: nat)
    requires GaugesKept(w) && id in w.inFlight && w.inFlight[id].waiting && !w.inFlight[id].abandoned
    ensures GaugesKept(Abandon(w, id)) && 1 <= w.metrics.callerWaiting
  {
    hide Waiting, Abandoned, KindsKept;
    AbandonCounts(w.inFlight, id, w.metrics.byKind);
  }

  // --- Entries and replies ----------------------------------------------------------------

  lemma {:induction false} InsertEntry(a: map<nat, InFlight>, id: nat, entry: InFlight, n: nat)
    requires EntriesKept(a, n) && id !in a && entry.request == n
    requires !entry.abandoned && entry.plain == !entry.waiting
    ensures EntriesKept(a[id := entry], n + 1)
  {
  }

  lemma {:induction false} InsertReplies(a: map<nat, InFlight>, id: nat, entry: InFlight, replied: multiset<nat>, n: nat)
    requires EntriesKept(a, n) && RepliesKept(a, replied, n) && id !in a && entry.request == n
    requires entry.waiting || entry.plain
    ensures RepliesKept(a[id := entry], replied, n + 1)
  {
    var b := a[id := entry];
    forall r: nat
      ensures replied[r] == if r < n + 1 && !Unanswered(b, r) then 1 else 0
    {
      assert replied[r] == if r < n && !Unanswered(a, r) then 1 else 0;
      if r == n {
        assert b[id].request == r;
      } else if Unanswered(a, r) {
        var i :| i in a && a[i].request == r && (a[i].waiting || a[i].plain);
        assert b[i] == a[i];
      }
    }
  }

  lemma {:induction false} RefuseReplies(a: map<nat, InFlight>, replied: multiset<nat>, n: nat)
    requires EntriesKept(a, n) && RepliesKept(a, replied, n)
    ensures EntriesKept(a, n + 1) && RepliesKept(a, replied + multiset{n}, n + 1)
  {
    forall r: nat
      ensures (replied + multiset{n})[r] == if r < n + 1 && !Unanswered(a, r) then 1 else 0
    {
      assert replied[r] == if r < n && !Unanswered(a, r) then 1 else 0;
    }
  }

  /** Retiring or abandoning one entry answers its request, if anyone still waits for it. */
  lemma {:induction false} AnswerReplies(a: map<nat, InFlight>, b: map<nat, InFlight>, id: nat, replied: multiset<nat>, n: nat)
    requires EntriesKept(a, n) && RepliesKept(a, replied, n) && id in a
    requires forall i :: i in a && i != id ==> i in b && b[i] == a[i]
    requires forall i :: i in b ==> i in a && (i != id ==> b[i] == a[i])
    requires id in b ==> b[id].request == a[id].request && !b[id].waiting && !b[id].plain
    ensures var answered := a[id].waiting || a[id].plain;
            RepliesKept(b, replied + (if answered then multiset{a[id].request} else multiset{}), n)
  {
    var answered := a[id].waiting || a[id].plain;
    var replied' := replied + (if answered then multiset{a[id].request} else multiset{});
    forall r: nat
      ensures replied'[r] == if r < n && !Unanswered(b, r) then 1 else 0
    {
      assert replied[r] == if r < n && !Unanswered(a, r) then 1 else 0;
      if r == a[id].request {
        assert answered ==> Unanswered(a, r);
        assert !Unanswered(b, r);
      } else if Unanswered(a, r) {
        var i :| i in a && a[i].request == r && (a[i].waiting || a[i].plain);
        assert b[i] == a[i];
      }
    }
  }

  // --- Admission --------------------------------------------------------------------------

  lemma {:induction false} FreshId(s: System)
    requires TasksKept(s.worker, s.tasks, s.polls) && s.worker.metrics.admitted < USIZE_MAX
    ensures s.worker.nextId == 1 + s.worker.metrics.admitted
    ensures s.worker.nextId !in s.tasks && s.worker.nextId !in s.worker.inFlight
  {
  }

  lemma {:induction false} AdmitTasks(s: System, request: nat, kind: Kind, called: bool)
    requires TasksKept(s.worker, s.tasks, s.polls) && s.worker.metrics.admitted < USIZE_MAX
    ensures var id := s.worker.nextId;
            TasksKept(Admit(s.worker, request, kind, called), s.tasks[id := Running], s.polls + multiset{id})
  {
    FreshId(s);
  }

  lemma {:induction false} SendKeeps(s: System, kind: Kind, called: bool, verdict: Verdict)
    requires Inv(s) && Enabled(s, Send(kind, called, verdict))
    ensures Inv(StepSend(s, kind, called, verdict))
  {
    hide GaugesKept, EntriesKept, RepliesKept, TasksKept, TotalsKept;
    var refusal := Refusal(s.worker, verdict);
    if refusal.None? {
      var id := s.worker.nextId;
      var entry := InFlight(s.nextRequest, kind, called, !called, false);
      FreshId(s);
      AdmitGauges(s.worker, s.nextRequest, kind, called);
      InsertEntry(s.worker.inFlight, id, entry, s.nextRequest);
      InsertReplies(s.worker.inFlight, id, entry, s.replied, s.nextRequest);
      AdmitTasks(s, s.nextRequest, kind, called);
      AdmitTotals(s, kind, called, verdict);
    } else {
      RefuseReplies(s.worker.inFlight, s.replied, s.nextRequest);
      RefuseKeeps(s, refusal.value);
    }
  }

  lemma {:induction false} AdmitTotals(s: System, kind: Kind, called: bool, verdict: Verdict)
    requires Inv(s) && Enabled(s, Send(kind, called, verdict)) && Refusal(s.worker, verdict).None?
    requires GaugesKept(Admit(s.worker, s.nextRequest, kind, called))
    ensures TotalsKept(StepSend(s, kind, called, verdict))
  {
    hide EntriesKept, RepliesKept, KindsKept, NoteAdmitKind, LatenessKept, TallyKept, Waiting;
    FreshId(s);
    var w, id := s.worker, s.worker.nextId;
    var b := w.inFlight[id := InFlight(s.nextRequest, kind, called, !called, false)];
    assert Abandoned(b) == Abandoned(w.inFlight);
    SpawnLateness(w.metrics.timeouts, w.metrics.lateResults, w.inFlight, b, s.tasks, s.late, s.abandonedEver, id);
    SpawnTally(TerminalTotal(w.metrics), s.tasks, s.tallied, id);
  }

  lemma {:induction false} SpawnLateness(
    timeouts: nat, lateResults: nat, a: map<nat, InFlight>, b: map<nat, InFlight>, tasks: map<nat, Task>,
    late: set<nat>, abandonedEver: set<nat>, id: nat)
    requires LatenessKept(timeouts, lateResults, a, tasks, late, abandonedEver) && id !in tasks
    requires Abandoned(b) == Abandoned(a) && forall i :: i in b && i != id ==> i in a && b[i] == a[i]
    ensures LatenessKept(timeouts, lateResults, b, tasks[id := Running], late, abandonedEver)
  {
  }

  lemma {:induction false} SpawnTally(total: nat, tasks: map<nat, Task>, tallied: set<nat>, id: nat)
    requires TallyKept(total, tasks, tallied) && id !in tasks
    ensures TallyKept(total, tasks[id := Running], tallied)
  {
  }

  lemma {:induction false} RefuseTouches(w: Worker, answer: Answer)
    ensures var w' := Refuse(w, answer);
            && GaugesIgnoreTotals(w, w') && w'.nextId == w.nextId && w'.closed == w.closed
            && w'.metrics.admitted == w.metrics.admitted
            && w'.metrics.timeouts == w.metrics.timeouts && w'.metrics.lateResults == w.metrics.lateResults
            && w'.metrics.highWater == w.metrics.highWater
            && TerminalTotal(w'.metrics) == TerminalTotal(w.metrics)
  {
  }

  lemma {:induction false} RefuseKeeps(s: System, answer: Answer)
    requires Inv(s)
    ensures var w := Refuse(s.worker, answer);
            && w.inFlight == s.worker.inFlight
            && GaugesKept(w) && TasksKept(w, s.tasks, s.polls)
    ensures TotalsKept(s.(worker := Refuse(s.worker, answer), nextRequest := s.nextRequest + 1,
                          replied := s.replied + multiset{s.nextRequest}))
  {
    hide EntriesKept, RepliesKept, LatenessKept, TallyKept, Refuse, TerminalTotal, GaugesKept;
    RefuseTouches(s.worker, answer);
    GaugesAgree(s.worker, Refuse(s.worker, answer));
  }

  // --- Polling ----------------------------------------------------------------------------

  lemma {:induction false} PollGauges(s: System, id: nat, expired: bool)
    requires Inv(s) && id in s.worker.inFlight
    ensures GaugesKept(StepPoll(s, id, expired).worker)
  {
    hide GaugesKept, RepliesKept, TotalsKept, Retire, Abandon;
    var entry := s.worker.inFlight[id];
    if !Channel(s, id).Empty? {
      RetireGauges(s.worker, id);
    } else if entry.waiting && expired {
      AbandonGauges(s.worker, id);
    }
  }

  lemma {:induction false} RetireEntries(a: map<nat, InFlight>, id: nat, replied: multiset<nat>, n: nat)
    requires EntriesKept(a, n) && RepliesKept(a, replied, n) && id in a
    ensures var answered := a[id].waiting || a[id].plain;
            && EntriesKept(a - {id}, n)
            && RepliesKept(a - {id}, replied + (if answered then multiset{a[id].request} else multiset{}), n)
  {
    hide RepliesKept;
    AnswerReplies(a, a - {id}, id, replied, n);
  }

  lemma {:induction false} AbandonEntries(a: map<nat, InFlight>, id: nat, replied: multiset<nat>, n: nat)
    requires EntriesKept(a, n) && RepliesKept(a, replied, n) && id in a && a[id].waiting
    ensures var b := a[id := a[id].(waiting := false, abandoned := true)];
            EntriesKept(b, n) && RepliesKept(b, replied + multiset{a[id].request}, n)
  {
    hide RepliesKept;
    AnswerReplies(a, a[id := a[id].(waiting := false, abandoned := true)], id, replied, n);
  }

  lemma {:induction false} PollEntries(s: System, id: nat, expired: bool)
    requires EntriesKept(s.worker.inFlight, s.nextRequest) && RepliesKept(s.worker.inFlight, s.replied, s.nextRequest)
    requires id in s.worker.inFlight
    ensures var s' := StepPoll(s, id, expired);
            && EntriesKept(s'.worker.inFlight, s'.nextRequest)
            && RepliesKept(s'.worker.inFlight, s'.replied, s'.nextRequest)
  {
    hide RepliesKept, EntriesKept, NoteTerminalKind;
    var a := s.worker.inFlight;
    if !Channel(s, id).Empty? {
      RetireEntries(a, id, s.replied, s.nextRequest);
    } else if a[id].waiting && expired {
      AbandonEntries(a, id, s.replied, s.nextRequest);
    } else {
      assert s.replied + multiset{} == s.replied;
    }
  }

  lemma {:induction false} RetireTasks(w: Worker, tasks: map<nat, Task>, polls: multiset<nat>, id: nat)
    requires TasksKept(w, tasks, polls) && id in w.inFlight && (tasks[id].Sent? || tasks[id].Died?)
    ensures TasksKept(Retire(w, id), tasks, polls - multiset{id})
  {
    hide NoteTerminalKind;
    assert Retire(w, id).inFlight == w.inFlight - {id};
  }

  lemma {:induction false} AbandonTasks(w: Worker, tasks: map<nat, Task>, polls: multiset<nat>, id: nat)
    requires TasksKept(w, tasks, polls) && id in w.inFlight
    ensures TasksKept(Abandon(w, id), tasks, polls)
  {
    assert Abandon(w, id).inFlight.Keys == w.inFlight.Keys;
  }

  /** The timers after a poll: the entry's own, unless it retired. */
  lemma {:induction false} PollTasks(s: System, id: nat, expired: bool)
    requires TasksKept(s.worker, s.tasks, s.polls) && id in s.polls
    ensures id in s.worker.inFlight
    ensures var s' := StepPoll(s, id, expired); TasksKept(s'.worker, s'.tasks, s'.polls)
  {
    assert s.polls[id] == 1 && id in s.worker.inFlight && id in s.tasks;
    assert s.polls - multiset{id} + multiset{id} == s.polls;
    hide TasksKept, Retire, Abandon;
    if !Channel(s, id).Empty? {
      RetireTasks(s.worker, s.tasks, s.polls, id);
      assert s.polls - multiset{id} + multiset{} == s.polls - multiset{id};
    } else if s.worker.inFlight[id].waiting && expired {
      AbandonTasks(s.worker, s.tasks, s.polls, id);
    }
  }

  lemma {:induction false} RetireLateness(s: System, id: nat)
    requires TotalsKept(s) && id in s.worker.inFlight
    ensures var w := Retire(s.worker, id);
            LatenessKept(w.metrics.timeouts, w.metrics.lateResults, w.inFlight, s.tasks, s.late, s.abandonedEver)
  {
    hide TallyKept, NoteTerminalKind;
    var w := Retire(s.worker, id);
    assert w.inFlight == s.worker.inFlight - {id};
    assert Abandoned(w.inFlight) <= Abandoned(s.worker.inFlight);
  }

  lemma {:induction false} AbandonLateness(s: System, id: nat)
    requires TotalsKept(s) && TasksKept(s.worker, s.tasks, s.polls)
    requires id in s.worker.inFlight && !s.worker.inFlight[id].abandoned
    ensures var w := Abandon(s.worker, id);
            LatenessKept(w.metrics.timeouts, w.metrics.lateResults, w.inFlight, s.tasks, s.late, s.abandonedEver + {id})
  {
    hide TallyKept;
    assert id !in s.abandonedEver && id in s.tasks;
    assert Abandoned(Abandon(s.worker, id).inFlight) == Abandoned(s.worker.inFlight) + {id};
  }

  lemma {:induction false} PollLateness(s: System, id: nat, expired: bool)
    requires Inv(s) && id in s.worker.inFlight
    ensures var s' := StepPoll(s, id, expired);
            LatenessKept(s'.worker.metrics.timeouts, s'.worker.metrics.lateResults, s'.worker.inFlight, s'.tasks,
                         s'.late, s'.abandonedEver)
  {
    hide RepliesKept, GaugesKept, TallyKept, LatenessKept, TasksKept, Retire, Abandon;
    if !Channel(s, id).Empty? {
      RetireLateness(s, id);
      assert s.abandonedEver + {} == s.abandonedEver;
    } else if s.worker.inFlight[id].waiting && expired {
      AbandonLateness(s, id);
    } else {
      assert s.abandonedEver + {} == s.abandonedEver;
    }
  }

  lemma {:induction false} PollKeeps(s: System, id: nat, expired: bool)
    requires Inv(s) && Enabled(s, PollFires(id, expired))
    ensures Inv(StepPoll(s, id, expired))
  {
    hide GaugesKept, EntriesKept, RepliesKept, TasksKept, LatenessKept, TallyKept;
    PollTasks(s, id, expired);
    PollGauges(s, id, expired);
    PollEntries(s, id, expired);
    PollLateness(s, id, expired);
    PollPeak(s, id, expired);
  }

  lemma {:induction false} PollPeak(s: System, id: nat, expired: bool)
    requires Inv(s) && id in s.worker.inFlight
    ensures var s' := StepPoll(s, id, expired);
            && TerminalTotal(s'.worker.metrics) == TerminalTotal(s.worker.metrics)
            && s'.worker.metrics.highWater == s.peak && s'.peak == s.peak && s'.tasks == s.tasks
            && s'.worker.metrics.inFlightCurrent <= s.peak && s'.worker.maxInFlight == s.worker.maxInFlight
  {
    hide EntriesKept, RepliesKept, TasksKept, LatenessKept, TallyKept, KindsKept, NoteTerminalKind, Waiting;
    RemoveCounts(s.worker.inFlight, id);
  }

  // --- Task steps -------------------------------------------------------------------------

  /** Task steps touch neither the entries nor the timers. */
  lemma {:induction false} TaskTimers(s: System, e: Event)
    requires TasksKept(s.worker, s.tasks, s.polls) && Enabled(s, e) && !e.Send? && !e.PollFires?
    ensures TasksKept(Step(s, e).worker, Step(s, e).tasks, s.polls)
  {
  }

  lemma {:induction false} TaskLateness(s: System, e: Event)
    requires TotalsKept(s) && Enabled(s, e) && !e.Send? && !e.PollFires?
    ensures var s' := Step(s, e);
            LatenessKept(s'.worker.metrics.timeouts, s'.worker.metrics.lateResults, s'.worker.inFlight, s'.tasks,
                         s'.late, s'.abandonedEver)
  {
    hide Abandoned, TallyKept;
    var s' := Step(s, e);
    AbandonedHas(s.worker.inFlight);
    if e.TaskChecks? && e.id in s.worker.inFlight && s.worker.inFlight[e.id].abandoned {
      assert s'.late == s.late + {e.id} && e.id !in s.late && e.id in s.abandonedEver;
    } else {
      assert s'.late == s.late;
    }
    assert s'.tasks.Keys == s.tasks.Keys;
  }

  lemma {:induction false} TallyGrows(total: nat, tasks: map<nat, Task>, tallied: set<nat>, id: nat, result: TaskResult)
    requires TallyKept(total, tasks, tallied) && id in tasks && tasks[id].Running?
    ensures TallyKept(total + 1, tasks[id := Tallied(result)], tallied + {id})
  {
    assert id !in tallied;
    assert tasks[id := Tallied(result)].Keys == tasks.Keys;
  }

  lemma {:induction false} TallyStays(total: nat, tasks: map<nat, Task>, tallied: set<nat>, id: nat, task: Task)
    requires TallyKept(total, tasks, tallied) && id in tasks && !task.Running? && (tasks[id].Running? ==> task.Died?)
    requires tasks[id].Died? ==> task.Died?
    ensures TallyKept(total, tasks[id := task], tallied)
  {
    assert tasks[id := task].Keys == tasks.Keys;
  }

  lemma {:induction false} TallyTotal(m: Metrics, result: TaskResult)
    ensures TerminalTotal(TallyTerminal(m, result)) == TerminalTotal(m) + 1
  {
  }

  lemma {:induction false} TaskTally(s: System, e: Event)
    requires TotalsKept(s) && Enabled(s, e) && !e.Send? && !e.PollFires?
    ensures var s' := Step(s, e); TallyKept(TerminalTotal(s'.worker.metrics), s'.tasks, s'.tallied)
  {
    hide LatenessKept, TallyKept, TallyTerminal;
    var total := TerminalTotal(s.worker.metrics);
    match e
    case TaskFinishes(id, result) =>
      TallyGrows(total, s.tasks, s.tallied, id, result);
      TallyTotal(s.worker.metrics, result);
      hide TerminalTotal;
    case TaskChecks(id) => TallyStays(total, s.tasks, s.tallied, id, Checked(s.tasks[id].result));
    case TaskSends(id) => TallyStays(total, s.tasks, s.tallied, id, Sent(s.tasks[id].result));
    case TaskDies(id) => TallyStays(total, s.tasks, s.tallied, id, Died);
    case CloseBridge =>
  }

  lemma {:induction false} TaskTotals(s: System, e: Event)
    requires TotalsKept(s) && Enabled(s, e) && !e.Send? && !e.PollFires?
    ensures TotalsKept(Step(s, e))
  {
    hide LatenessKept, TallyKept;
    TaskLateness(s, e);
    TaskTally(s, e);
  }

  lemma {:induction false} AbandonedHas(m: map<nat, InFlight>)
    ensures forall id :: id in m && m[id].abandoned ==> id in Abandoned(m)
  {
  }

  lemma {:induction false} TaskKeeps(s: System, e: Event)
    requires Inv(s) && Enabled(s, e) && !e.Send? && !e.PollFires?
    ensures Inv(Step(s, e))
  {
    hide EntriesKept, RepliesKept, TasksKept, TotalsKept, KindsKept, Waiting, Abandoned;
    TaskTimers(s, e);
    TaskTotals(s, e);
    GaugesAgree(s.worker, Step(s, e).worker);
  }

  ghost predicate GaugesIgnoreTotals(a: Worker, b: Worker) {
    && b.inFlight == a.inFlight && b.maxInFlight == a.maxInFlight
    && b.metrics.inFlightCurrent == a.metrics.inFlightCurrent
    && b.metrics.callerWaiting == a.metrics.callerWaiting
    && b.metrics.lateInFlight == a.metrics.lateInFlight
    && b.metrics.byKind == a.metrics.byKind
  }

  lemma {:induction false} GaugesAgree(a: Worker, b: Worker)
    requires GaugesKept(a) && GaugesIgnoreTotals(a, b)
    ensures GaugesKept(b)
  {
  }

  lemma {:induction false} SendMax(s: System, kind: Kind, called: bool, verdict: Verdict)
    ensures StepSend(s, kind, called, verdict).worker.maxInFlight == s.worker.maxInFlight
  {
    hide NoteAdmitKind;
  }

  lemma {:induction false} PollMax(s: System, id: nat, expired: bool)
    ensures StepPoll(s, id, expired).worker.maxInFlight == s.worker.maxInFlight
  {
    hide NoteTerminalKind;
  }

  lemma {:induction false} MaxKept(s: System, e: Event)
    requires Enabled(s, e)
    ensures Step(s, e).worker.maxInFlight == s.worker.maxInFlight
  {
    hide TallyTerminal, StepSend, StepPoll;
    match e
    case Send(kind, called, verdict) => SendMax(s, kind, called, verdict);
    case PollFires(id, expired) => PollMax(s, id, expired);
    case _ =>
  }

  lemma {:induction false} StepKeepsInv(s: System, e: Event)
    requires Inv(s) && Enabled(s, e)
    ensures Inv(Step(s, e)) && Step(s, e).worker.maxInFlight == s.worker.maxInFlight
  {
    MaxKept(s, e);
    hide Inv, StepSend, StepPoll, TallyTerminal;
    match e
    case Send(kind, called, verdict) => SendKeeps(s, kind, called, verdict);
    case PollFires(id, expired) => PollKeeps(s, id, expired);
    case _ => TaskKeeps(s, e);
  }

  // --- Theorems ---------------------------------------------------------------------------

  /** The state after the enabled events of a list. */
  function RunOf(maxInFlight: nat, events: seq<Event>): (s: System)
    ensures Inv(s) && s.worker.maxInFlight == maxInFlight
    decreases |events|
  {
    hide Inv, Step, Enabled;
    if events == [] then
      StartInv(maxInFlight);
      Start(maxInFlight)
    else
      var last := |events| - 1;
      var s := RunOf(maxInFlight, events[..last]);
      if Enabled(s, events[last]) then
        StepKeepsInv(s, events[last]);
        Step(s, events[last])
      else s
  }

  /**
    In every interleaving of handler turns and task steps the gauges are the state: entries in
    flight, entries with a waiting caller, abandoned entries, and entries per kind; none ever
    goes below zero and the cap holds.
   */
  lemma {:induction false} GaugesAgreeWithState(maxInFlight: nat, events: seq<Event>)
    ensures var s := RunOf(maxInFlight, events);
            var m := s.worker.metrics;
            && m.inFlightCurrent == |s.worker.inFlight| <= maxInFlight
            && 0 <= m.callerWaiting == |Waiting(s.worker.inFlight)|
            && 0 <= m.lateInFlight == |Abandoned(s.worker.inFlight)|
            && (forall k: Kind :: KindCount(m.byKind, k) == |OfKind(s.worker.inFlight, k)|)
            && m.highWater == s.peak && m.inFlightCurrent <= m.highWater <= maxInFlight
  {
    var s := RunOf(maxInFlight, events);
    assert Inv(s);
  }

  lemma {:induction false} AbandonedSplit(inFlight: map<nat, InFlight>, abandonedEver: set<nat>)
    requires Abandoned(inFlight) <= abandonedEver
    requires forall id :: id in abandonedEver && id in inFlight ==> inFlight[id].abandoned
    ensures |abandonedEver| == |Abandoned(inFlight)| + |abandonedEver - inFlight.Keys|
  {
    var still, retired := Abandoned(inFlight), abandonedEver - inFlight.Keys;
    assert abandonedEver == still + retired && still !! retired;
  }

  lemma {:induction false} SubsetSize(a: set<nat>, b: set<nat>)
    requires a <= b
    ensures |a| <= |b|
  {
    assert b == a + (b - a);
  }

  lemma {:induction false} TimeoutsSplit(
    timeouts: nat, lateResults: nat, inFlight: map<nat, InFlight>, tasks: map<nat, Task>, late: set<nat>,
    abandonedEver: set<nat>)
    requires LatenessKept(timeouts, lateResults, inFlight, tasks, late, abandonedEver)
    ensures timeouts == |Abandoned(inFlight)| + |abandonedEver - inFlight.Keys|
    ensures lateResults <= timeouts
  {
    hide Abandoned;
    AbandonedSplit(inFlight, abandonedEver);
    SubsetSize(late, abandonedEver);
  }

  /**
    Conservation in every interleaving: each request was answered exactly once or is in flight
    and unanswered; each entry has exactly one pending poll; every timeout is a late entry still
    running or one that retired abandoned; late results never exceed timeouts; and every task
    that finished was tallied once.
   */
  lemma {:induction false} RepliesAndTimeoutsAreConserved(maxInFlight: nat, events: seq<Event>)
    ensures var s := RunOf(maxInFlight, events);
            var m := s.worker.metrics;
            var retired := s.abandonedEver - s.worker.inFlight.Keys;
            && (forall r: nat :: r < s.nextRequest ==>
                  s.replied[r] == if Unanswered(s.worker.inFlight, r) then 0 else 1)
            && (forall id: nat :: s.polls[id] == if id in s.worker.inFlight then 1 else 0)
            && m.timeouts == m.lateInFlight + |retired|
            && m.lateResults <= m.timeouts
            && TerminalTotal(m) == |s.tallied|
            && (forall id :: id in s.tasks && !s.tasks[id].Running? && !s.tasks[id].Died? ==> id in s.tallied)
  {
    hide RunOf, LatenessKept, KindsKept, EntriesKept, Unanswered;
    var s := RunOf(maxInFlight, events);
    assert Inv(s);
    var m := s.worker.metrics;
    TimeoutsSplit(m.timeouts, m.lateResults, s.worker.inFlight, s.tasks, s.late, s.abandonedEver);
  }

  lemma {:induction false} ClosedSend(s: System, kind: Kind, called: bool, verdict: Verdict)
    requires s.worker.closed
    ensures var w := StepSend(s, kind, called, verdict).worker; w.closed && w.inFlight == s.worker.inFlight
  {
  }

  lemma {:induction false} PollShrinks(s: System, id: nat, expired: bool)
    ensures var w := StepPoll(s, id, expired).worker;
            w.closed == s.worker.closed && w.inFlight.Keys <= s.worker.inFlight.Keys
  {
    hide NoteTerminalKind;
  }

  lemma {:induction false} ClosedStep(s: System, e: Event)
    requires Enabled(s, e) && s.worker.closed
    ensures Step(s, e).worker.closed && Step(s, e).worker.inFlight.Keys <= s.worker.inFlight.Keys
  {
    hide StepSend, StepPoll, TallyTerminal;
    match e
    case Send(kind, called, verdict) => ClosedSend(s, kind, called, verdict);
    case PollFires(id, expired) => PollShrinks(s, id, expired);
    case _ =>
  }

  lemma {:induction false} RunSnoc(maxInFlight: nat, events: seq<Event>, e: Event)
    ensures var s := RunOf(maxInFlight, events);
            RunOf(maxInFlight, events + [e]) == if Enabled(s, e) then Step(s, e) else s
  {
    hide Inv, Step, Enabled;
    assert (events + [e])[..|events|] == events;
  }

  /** Once closed the bridge only drains, however the run goes on: no entry is ever added. */
  lemma {:induction false} ClosedOnlyDrains(maxInFlight: nat, events: seq<Event>, more: seq<Event>)
    requires RunOf(maxInFlight, events).worker.closed
    ensures var s, s' := RunOf(maxInFlight, events), RunOf(maxInFlight, events + more);
            s'.worker.closed && s'.worker.inFlight.Keys <= s.worker.inFlight.Keys
    decreases |more|
  {
    hide RunOf, Inv, Step, Enabled;
    if more == [] {
      assert events + more == events;
    } else {
      var last := |more| - 1;
      ClosedOnlyDrains(maxInFlight, events, more[..last]);
      assert events + more == events + more[..last] + [more[last]];
      RunSnoc(maxInFlight, events + more[..last], more[last]);
      var s := RunOf(maxInFlight, events + more[..last]);
      if Enabled(s, more[last]) {
        ClosedStep(s, more[last]);
      }
    }
  }
}
