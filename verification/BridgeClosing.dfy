/**
  Closing the bridge from another thread: `admit` reads the closed flag first and inserts its
  entry later, so a close, and any task step, can come in between.
 */
module BridgeClosing {
  import opened Bytes
  import opened Bridge

  datatype Request = Request(kind: Kind, called: bool, verdict: Verdict)

  /** The bridge, with the request whose closed check passed and whose admission is under way. */
  datatype Split = Split(s: System, checked: Option<Request>)

  /** `Other` is a poll, a task step or a close. */
  datatype Move = Check(request: Request) | Finish | Other(event: Event)

  function Sends(r: Request): Event {
    Send(r.kind, r.called, r.verdict)
  }

  /** The worker's own turns do not overlap; tasks and closers run beside them. */
  predicate CanMove(c: Split, m: Move) {
    match m
    case Check(r) => c.checked.None? && Enabled(c.s, Sends(r))
    case Finish => c.checked.Some?
    case Other(e) => !e.Send? && (e.PollFires? ==> c.checked.None?) && Enabled(c.s, e)
  }

  /** `admit` after its closed check, whatever the flag says by now. */
  function Admission(s: System, r: Request): System {
    var s1 := StepSend(s.(worker := s.worker.(closed := false)), r.kind, r.called, r.verdict);
    s1.(worker := s1.worker.(closed := s.worker.closed))
  }

  function Take(c: Split, m: Move): Split
    requires CanMove(c, m)
  {
    match m
    case Check(r) =>
      if c.s.worker.closed then c.(s := StepSend(c.s, r.kind, r.called, r.verdict)) else c.(checked := Some(r))
    case Finish => Split(Admission(c.s, c.checked.value), None)
    case Other(e) => c.(s := Step(c.s, e))
  }

  // --- The invariant ----------------------------------------------------------------------

  ghost predicate Held(c: Split) {
    Inv(c.s) && (c.checked.Some? ==> c.s.worker.metrics.admitted < USIZE_MAX)
  }

  /** The flag is not part of what the bridge keeps. */
  lemma {:induction false} FlagIsFree(s: System, closed: bool)
    requires Inv(s)
    ensures Inv(s.(worker := s.worker.(closed := closed)))
  {
    hide KindsKept, EntriesKept, RepliesKept, LatenessKept, TallyKept, TerminalTotal;
  }

  lemma {:induction false} AdmissionKeeps(s: System, r: Request)
    requires Inv(s) && s.worker.metrics.admitted < USIZE_MAX
    ensures Inv(Admission(s, r))
  {
    hide Inv, StepSend;
    FlagIsFree(s, false);
    var open := s.(worker := s.worker.(closed := false));
    SendKeeps(open, r.kind, r.called, r.verdict);
    FlagIsFree(StepSend(open, r.kind, r.called, r.verdict), s.worker.closed);
  }

  /** A task step or a close. */
  predicate Beside(e: Event) {
    !e.Send? && !e.PollFires?
  }

  lemma {:induction false} BesideKeepsIds(s: System, e: Event)
    requires Enabled(s, e) && Beside(e)
    ensures var s' := Step(s, e);
            && s'.worker.metrics.admitted == s.worker.metrics.admitted
            && s'.worker.nextId == s.worker.nextId && s'.worker.inFlight == s.worker.inFlight
            && (s.worker.closed ==> s'.worker.closed)
  {
  }

  lemma {:induction false} TakeKeeps(c: Split, m: Move)
    requires Held(c) && CanMove(c, m)
    ensures Held(Take(c, m))
  {
    hide Inv, Step, StepSend, Admission;
    match m
    case Check(r) => SendKeeps(c.s, r.kind, r.called, r.verdict);
    case Finish => AdmissionKeeps(c.s, c.checked.value);
    case Other(e) =>
      StepKeepsInv(c.s, e);
      if c.checked.Some? {
        BesideKeepsIds(c.s, e);
      }
  }

  function SplitRun(maxInFlight: nat, moves: seq<Move>): (c: Split)
    ensures Held(c)
    decreases |moves|
  {
    hide Inv, Take, CanMove;
    if moves == [] then
      StartInv(maxInFlight);
      Split(Start(maxInFlight), None)
    else
      var last := |moves| - 1;
      var c := SplitRun(maxInFlight, moves[..last]);
      if !CanMove(c, moves[last]) then c
      else
        TakeKeeps(c, moves[last]);
        Take(c, moves[last])
  }

  // --- Every split run is a run of whole turns --------------------------------------------

  /** The admission under way, completed. */
  function Settled(c: Split): System {
    if c.checked.Some? then Admission(c.s, c.checked.value) else c.s
  }

  lemma {:induction false} OpenAdmission(s: System, r: Request)
    requires !s.worker.closed
    ensures Admission(s, r) == StepSend(s, r.kind, r.called, r.verdict)
  {
    hide StepSend;
    assert s.(worker := s.worker.(closed := false)) == s;
    OpenSend(s, r);
  }

  lemma {:induction false} OpenSend(s: System, r: Request)
    ensures StepSend(s, r.kind, r.called, r.verdict).worker.closed == s.worker.closed
  {
    hide NoteAdmitKind;
  }

  function Refusing(s: System, answer: Answer): System {
    s.(worker := Refuse(s.worker, answer), nextRequest := s.nextRequest + 1,
       replied := s.replied + multiset{s.nextRequest})
  }

  function Admitting(s: System, r: Request): System {
    var id := s.worker.nextId;
    var w := Admit(s.worker, s.nextRequest, r.kind, r.called);
    s.(worker := w, nextRequest := s.nextRequest + 1, tasks := s.tasks[id := Running],
       polls := s.polls + multiset{id}, peak := Max(s.peak, |w.inFlight|))
  }

  /** Past the closed check an admission is refused for its verdict or for room, or goes in. */
  lemma {:induction false} AdmissionIs(s: System, r: Request)
    ensures Admission(s, r)
         == if !r.verdict.Valid? then Refusing(s, Rejected(r.verdict))
            else if |s.worker.inFlight| >= s.worker.maxInFlight then Refusing(s, Full)
            else Admitting(s, r)
  {
    hide NoteAdmitKind, TallyRejected;
  }

  lemma {:induction false} TallyBesideRefuse(w: Worker, answer: Answer, result: TaskResult)
    ensures var after := Refuse(w, answer);
            Refuse(w.(metrics := TallyTerminal(w.metrics, result)), answer)
            == after.(metrics := TallyTerminal(after.metrics, result))
  {
  }

  lemma {:induction false} RefusingFinishes(s: System, answer: Answer, id: nat, result: TaskResult)
    requires Enabled(s, TaskFinishes(id, result))
    ensures var e := TaskFinishes(id, result);
            Enabled(Refusing(s, answer), e) && Step(Refusing(s, answer), e) == Refusing(Step(s, e), answer)
  {
    TallyBesideRefuse(s.worker, answer, result);
    hide TallyTerminal, Refuse;
  }

  lemma {:induction false} RefusingCommutes(s: System, answer: Answer, e: Event)
    requires Enabled(s, e) && Beside(e)
    ensures Enabled(Refusing(s, answer), e) && Step(Refusing(s, answer), e) == Refusing(Step(s, e), answer)
  {
    if e.TaskFinishes? {
      RefusingFinishes(s, answer, e.id, e.result);
    } else {
      RefuseTouches(s.worker, answer);
      hide TallyTerminal;
    }
  }

  lemma {:induction false} TallyBesideAdmit(w: Worker, request: nat, r: Request, result: TaskResult)
    ensures var after := Admit(w, request, r.kind, r.called);
            Admit(w.(metrics := TallyTerminal(w.metrics, result)), request, r.kind, r.called)
            == after.(metrics := TallyTerminal(after.metrics, result))
  {
    hide NoteAdmitKind;
  }

  lemma {:induction false} AdmittingFinishes(s: System, r: Request, id: nat, result: TaskResult)
    requires Enabled(s, TaskFinishes(id, result)) && id != s.worker.nextId
    ensures var e := TaskFinishes(id, result);
            Enabled(Admitting(s, r), e) && Step(Admitting(s, r), e) == Admitting(Step(s, e), r)
  {
    TallyBesideAdmit(s.worker, s.nextRequest, r, result);
    hide TallyTerminal, NoteAdmitKind;
    assert s.tasks[id := Tallied(result)][s.worker.nextId := Running]
        == s.tasks[s.worker.nextId := Running][id := Tallied(result)];
  }

  lemma {:induction false} AdmittingChecks(s: System, r: Request, id: nat)
    requires Enabled(s, TaskChecks(id)) && id != s.worker.nextId
    ensures var e := TaskChecks(id);
            Enabled(Admitting(s, r), e) && Step(Admitting(s, r), e) == Admitting(Step(s, e), r)
  {
    hide NoteAdmitKind;
    var task := Checked(s.tasks[id].result);
    assert s.tasks[id := task][s.worker.nextId := Running] == s.tasks[s.worker.nextId := Running][id := task];
  }

  lemma {:induction false} AdmittingCommutes(s: System, r: Request, e: Event)
    requires Enabled(s, e) && Beside(e) && s.worker.nextId !in s.tasks
    ensures Enabled(Admitting(s, r), e) && Step(Admitting(s, r), e) == Admitting(Step(s, e), r)
  {
    hide NoteAdmitKind;
    var next := s.worker.nextId;
    match e
    case TaskFinishes(id, result) => AdmittingFinishes(s, r, id, result);
    case TaskChecks(id) => AdmittingChecks(s, r, id);
    case TaskSends(id) =>
      var task := Sent(s.tasks[id].result);
      assert s.tasks[id := task][next := Running] == s.tasks[next := Running][id := task];
    case TaskDies(id) => assert s.tasks[id := Died][next := Running] == s.tasks[next := Running][id := Died];
    case CloseBridge =>
  }

  lemma {:induction false} BesideKeepsRoom(s: System, e: Event)
    requires Enabled(s, e) && Beside(e)
    ensures Step(s, e).worker.maxInFlight == s.worker.maxInFlight
  {
    MaxKept(s, e);
  }

  lemma {:induction false} Commutes(s: System, r: Request, e: Event)
    requires Inv(s) && s.worker.metrics.admitted < USIZE_MAX && Enabled(s, e) && Beside(e)
    ensures Enabled(Admission(s, r), e) && Step(Admission(s, r), e) == Admission(Step(s, e), r)
  {
    FreshId(s);
    hide Inv, Step, Enabled, Admission, Refusing, Admitting;
    AdmissionIs(s, r);
    AdmissionIs(Step(s, e), r);
    BesideKeepsIds(s, e);
    BesideKeepsRoom(s, e);
    if !r.verdict.Valid? {
      RefusingCommutes(s, Rejected(r.verdict), e);
    } else if |s.worker.inFlight| >= s.worker.maxInFlight {
      RefusingCommutes(s, Full, e);
    } else {
      AdmittingCommutes(s, r, e);
    }
  }

  /** The whole turns a list of moves amounts to: a request counts where its check was. */
  function Whole(maxInFlight: nat, moves: seq<Move>): seq<Event>
    decreases |moves|
  {
    if moves == [] then []
    else
      var last := |moves| - 1;
      var events := Whole(maxInFlight, moves[..last]);
      if !CanMove(SplitRun(maxInFlight, moves[..last]), moves[last]) then events
      else
        match moves[last]
        case Check(r) => events + [Sends(r)]
        case Finish => events
        case Other(e) => events + [e]
  }

  lemma {:induction false} SettledMoves(c: Split, m: Move)
    requires Held(c) && CanMove(c, m)
    ensures var after := Settled(Take(c, m));
            match m
            case Check(r) => Enabled(Settled(c), Sends(r)) && after == Step(Settled(c), Sends(r))
            case Finish => after == Settled(c)
            case Other(e) => Enabled(Settled(c), e) && after == Step(Settled(c), e)
  {
    hide Inv, StepSend, Admission;
    match m
    case Check(r) =>
      if !c.s.worker.closed {
        OpenAdmission(c.s, r);
      }
    case Finish =>
    case Other(e) =>
      if c.checked.Some? {
        Commutes(c.s, c.checked.value, e);
      }
  }

  /**
    However closes and task steps fall between a request's check and its admission, the bridge,
    once that admission is completed, is in the state of a run of whole turns.
   */
  lemma {:induction false} SplitRunIsARun(maxInFlight: nat, moves: seq<Move>)
    ensures Settled(SplitRun(maxInFlight, moves)) == RunOf(maxInFlight, Whole(maxInFlight, moves))
    decreases |moves|
  {
    if moves == [] {
      hide Inv;
    } else {
      var last := |moves| - 1;
      SplitRunIsARun(maxInFlight, moves[..last]);
      RunGrows(maxInFlight, moves);
    }
  }

  lemma {:induction false} RunGrows(maxInFlight: nat, moves: seq<Move>)
    requires moves != []
    requires var before := moves[..|moves| - 1];
             Settled(SplitRun(maxInFlight, before)) == RunOf(maxInFlight, Whole(maxInFlight, before))
    ensures Settled(SplitRun(maxInFlight, moves)) == RunOf(maxInFlight, Whole(maxInFlight, moves))
  {
    hide Inv, Step, Take, CanMove, Settled, RunOf, Enabled;
    var before, m := moves[..|moves| - 1], moves[|moves| - 1];
    var c, events := SplitRun(maxInFlight, before), Whole(maxInFlight, before);
    if CanMove(c, m) {
      SettledMoves(c, m);
      match m
      case Check(r) => RunSnoc(maxInFlight, events, Sends(r));
      case Finish =>
      case Other(e) => RunSnoc(maxInFlight, events, e);
    }
  }

  // --- After a close ----------------------------------------------------------------------

  /** The entries there are, and the one an admission under way can still add. */
  function MayHold(c: Split): set<nat> {
    c.s.worker.inFlight.Keys + if c.checked.Some? then {c.s.worker.nextId} else {}
  }

  lemma {:induction false} AdmissionAddsOne(s: System, r: Request)
    ensures var w := Admission(s, r).worker;
            w.inFlight.Keys <= s.worker.inFlight.Keys + {s.worker.nextId} && w.closed == s.worker.closed
  {
    hide NoteAdmitKind;
  }

  lemma {:induction false} ClosedTake(c: Split, m: Move)
    requires Held(c) && CanMove(c, m) && c.s.worker.closed
    ensures var c' := Take(c, m); c'.s.worker.closed && MayHold(c') <= MayHold(c)
    ensures c.checked.None? ==> Take(c, m).checked.None?
  {
    hide Inv, Step, StepSend, Admission, Enabled;
    match m
    case Check(r) => ClosedSend(c.s, r.kind, r.called, r.verdict);
    case Finish => AdmissionAddsOne(c.s, c.checked.value);
    case Other(e) =>
      ClosedStep(c.s, e);
      if c.checked.Some? {
        BesideKeepsIds(c.s, e);
      }
  }

  /**
    After a close at most one entry is ever added: the one whose check came before the close and
    whose admission is still under way.  With none under way the bridge only drains.
   */
  lemma {:induction false} CloseAddsAtMostOne(maxInFlight: nat, moves: seq<Move>, more: seq<Move>)
    requires SplitRun(maxInFlight, moves).s.worker.closed
    ensures var c, c' := SplitRun(maxInFlight, moves), SplitRun(maxInFlight, moves + more);
            && c'.s.worker.closed
            && c'.s.worker.inFlight.Keys <= MayHold(c') <= MayHold(c)
            && (c.checked.None? ==> c'.checked.None? && c'.s.worker.inFlight.Keys <= c.s.worker.inFlight.Keys)
    decreases |more|
  {
    hide Inv, Take, CanMove;
    if more == [] {
      assert moves + more == moves;
    } else {
      var last := |more| - 1;
      CloseAddsAtMostOne(maxInFlight, moves, more[..last]);
      var before := moves + more[..last];
      assert moves + more == before + [more[last]];
      assert (moves + more)[..|moves + more| - 1] == before;
      var c := SplitRun(maxInFlight, before);
      if CanMove(c, more[last]) {
        ClosedTake(c, more[last]);
      }
    }
  }

  const GET: Request := Request(GetObject, true, Valid)

  /** The late entry is real: closed, empty, and then one in flight. */
  lemma {:induction false} AdmittedAfterClose()
    ensures var moves := [Check(GET), Other(CloseBridge)];
            var c, c' := SplitRun(1, moves), SplitRun(1, moves + [Finish]);
            && c.s.worker.closed && c.s.worker.metrics.inFlightCurrent == 0
            && c'.s.worker.closed && c'.s.worker.metrics.inFlightCurrent == 1
  {
    hide Inv;
    var moves := [Check(GET), Other(CloseBridge)];
    assert (moves + [Finish])[..2] == moves && moves[..1] == [Check(GET)] && [Check(GET)][..0] == [];
    var s := Start(1);
    assert SplitRun(1, [Check(GET)]) == Split(s, Some(GET));
    var closed := s.(worker := s.worker.(closed := true));
    assert SplitRun(1, moves) == Split(closed, Some(GET));
    var entry := InFlight(0, GetObject, true, false, false);
    assert |s.worker.inFlight[1 := entry]| == 1;
    assert SplitRun(1, moves + [Finish]) == Split(Admission(closed, GET), None);
  }
}
