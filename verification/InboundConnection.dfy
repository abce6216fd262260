/**
  The inbound body as the connection holds it: the request charge, the captured caller, and the
  refusal of bytes the body caps do not admit.
 */
module InboundConnection {
  import opened Bytes
  import opened ChunkedSpec
  import opened InboundBody
  import L = BodyLedger
  import D = ChunkedDecoder

  /** `caller` is whether the context of a pull is captured and not yet answered. */
  datatype Held = Held(body: Inbound, metered: bool, charge: nat, caller: bool)

  /**
    What a turn comes to: the captured caller answered, a read, the storage-full error sent to
    nobody in particular, or the call rejected.
   */
  datatype Outcome = Answered(reply: ChunkReply) | Reading(want: nat) | Unaddressed | Rejected

  /** `charge_request` fails: only a metered connection with something to charge can be refused. */
  predicate Refuses(metered: bool, n: nat, admitted: bool) {
    metered && n > 0 && !admitted
  }

  function Charged(metered: bool, n: nat): nat {
    if metered then n else 0
  }

  // --- Dispatch ---------------------------------------------------------------------------

  datatype Dispatched = Serving(held: Held) | TooLarge | BadFraming

  function HoldLength(total: nat, chunkSize: nat, early: seq<Byte>, metered: bool, admitted: bool): Dispatched {
    var body := DispatchLength(total, chunkSize, early);
    if Refuses(metered, |body.buffer|, admitted) then TooLarge
    else Serving(Held(body, metered, Charged(metered, |body.buffer|), false))
  }

  /** The charge is checked before the framing. */
  function HoldChunked(maxBody: nat, chunkSize: nat, early: seq<Byte>, metered: bool, admitted: bool): Dispatched
    requires maxBody <= USIZE_MAX
  {
    var n := |FeedAll(New(maxBody), early).out|;
    if Refuses(metered, n, admitted) then TooLarge
    else
      match DispatchChunked(maxBody, chunkSize, early)
      case None => BadFraming
      case Some(body) => Serving(Held(body, metered, Charged(metered, n), false))
  }

  // --- Handlers ---------------------------------------------------------------------------

  /** An answer takes the captured caller; a served chunk gives its charge back. */
  function Concluded(h: Held, next: (Inbound, Effect)): (r: (Held, Outcome)) {
    match next.1
    case Read(want) => (h.(body := next.0), Reading(want))
    case Reply(reply) =>
      (h.(body := next.0, caller := false,
          charge := if reply.Chunk? then SaturatingSub(h.charge, |reply.data|) else h.charge),
       Answered(reply))
  }

  /** A pull: rejected while a caller is captured. */
  function PullBody(h: Held): (r: (Held, Outcome))
    requires h.body.Valid()
  {
    if h.caller then (h, Rejected) else Concluded(h.(caller := true), BodyNext(h.body))
  }

  /** The bytes a read adds to the buffer. */
  function NewBytes(b: Inbound, result: ReadResult): nat
    requires b.Valid()
  {
    if result.IoError? then 0 else if b.chunked then |FeedAll(b.decoder, b.raw + result.data).out| else |result.data|
  }

  /** The refused bytes are dropped and the body is over; the raw bytes of a chunked one as well. */
  function Dropped(b: Inbound, data: seq<Byte>): Inbound
    requires b.Valid()
  {
    var b1 := b.(received := b.received + |data|, eofReplied := true);
    if b.chunked then b1.(raw := [], decoder := FeedAll(b.decoder, b.raw + data).dec) else b1
  }

  predicate ReadAllowed(b: Inbound, result: ReadResult) {
    result.Received? && !b.chunked ==> b.delivered + |b.buffer| + |result.data| <= b.total
  }

  /** `handle_body_chunk_read`, with `admitted` the verdict of the caps on the new bytes. */
  function ReadBody(h: Held, result: ReadResult, admitted: bool): (r: (Held, Outcome))
    requires h.body.Valid() && ReadAllowed(h.body, result)
  {
    if result.IoError? || result.data == [] then Concluded(h, BodyRead(h.body, result))
    else
      var n := NewBytes(h.body, result);
      if Refuses(h.metered, n, admitted) then (h.(body := Dropped(h.body, result.data)), Unaddressed)
      else Concluded(h.(charge := h.charge + Charged(h.metered, n)), BodyRead(h.body, result))
  }

  // --- Runs -------------------------------------------------------------------------------

  datatype Turn = Pull | Arrival(result: ReadResult, admitted: bool)

  /**
    The connection, the run of the body behind it until bytes are refused, and every answer a
    turn gave to a caller.
   */
  datatype System = System(h: Held, run: Run, refused: bool, answers: seq<ChunkReply>)

  function Noted(answers: seq<ChunkReply>, outcome: Outcome): seq<ChunkReply> {
    if outcome.Answered? then answers + [outcome.reply] else answers
  }

  function Bare(t: Turn): Event {
    match t
    case Pull => Next
    case Arrival(result, _) => Arrive(result)
  }

  function AllBare(turns: seq<Turn>): seq<Event> {
    if turns == [] then [] else AllBare(turns[..|turns| - 1]) + [Bare(turns[|turns| - 1])]
  }

  /** A pull can come at any time; a read completes once and returns at most what was asked. */
  predicate Possible(s: System, t: Turn) {
    t.Pull? || (!s.refused && Enabled(s.run, Bare(t)))
  }

  /** The chunks served, in order; behind them how the body ended, and then only `Eof`. */
  ghost predicate AnswersKept(r: Run, answers: seq<ChunkReply>) {
    && |r.served| <= |answers|
    && (forall i :: 0 <= i < |r.served| ==> answers[i] == Chunk(r.served[i]))
    && (r.ending.Open? ==> |answers| == |r.served|)
    && (!r.ending.Open? ==>
          |r.served| < |answers| && answers[|r.served|] == if r.ending.Broken? then ReadError else Eof)
    && (forall i :: |r.served| < i < |answers| ==> answers[i] == Eof)
  }

  ghost predicate Kept(s: System, maxBody: nat) {
    && AnswersKept(s.run, s.answers)
    && s.h.body.Valid()
    && s.h.charge == Charged(s.h.metered, |s.h.body.buffer|)
    && Inv(s.run, maxBody)
    && if s.refused then s.h.caller && s.h.body.eofReplied
       else s.h.body == s.run.s && (s.h.caller <==> s.run.reading.Some?)
  }

  function Go(s: System, t: Turn): System
    requires s.h.body.Valid() && s.run.s.Valid() && Possible(s, t)
    requires t.Arrival? ==> ReadAllowed(s.h.body, t.result) && ReadAllowed(s.run.s, t.result)
  {
    match t
    case Pull =>
      var (h, outcome) := PullBody(s.h);
      var run := if outcome.Rejected? then s.run else if Enabled(s.run, Next) then Step(s.run, Next) else s.run;
      System(h, run, s.refused, Noted(s.answers, outcome))
    case Arrival(result, admitted) =>
      var (h, outcome) := ReadBody(s.h, result, admitted);
      var answers := Noted(s.answers, outcome);
      if outcome.Unaddressed? then System(h, s.run, true, answers)
      else System(h, Step(s.run, Bare(t)), false, answers)
  }

  lemma {:induction false} NextIsServed(b: Inbound)
    requires b.Valid()
    ensures var (b', effect) := BodyNext(b);
            |b'.buffer| == |b.buffer| - (if effect.Reply? && effect.reply.Chunk? then |effect.reply.data| else 0)
  {
  }

  lemma {:induction false} ReadIsServed(b: Inbound, result: ReadResult)
    requires b.Valid() && ReadAllowed(b, result)
    ensures var (b', effect) := BodyRead(b, result);
            var n := if result.IoError? || result.data == [] then 0 else NewBytes(b, result);
            |b'.buffer| == |b.buffer| + n - (if effect.Reply? && effect.reply.Chunk? then |effect.reply.data| else 0)
  {
    hide FeedAll;
  }

  /** The reply a caller gets is the one the run records. */
  lemma {:induction false} AnswerIsRecorded(
    h: Held, r: Run, next: (Inbound, Effect), pulls: seq<seq<Byte>>, cutShort: bool, answers: seq<ChunkReply>)
    requires AnswersKept(r, answers) && (!r.ending.Open? ==> next.1 == Reply(Eof))
    ensures AnswersKept(Apply(r, next, pulls, cutShort), Noted(answers, Concluded(h, next).1))
  {
  }

  lemma {:induction false} PullAnswers(s: System)
    requires s.h.body.Valid() && s.run.s == s.h.body && !s.h.caller && s.run.reading.None? && !s.refused
    requires RunKept(s.run) && AnswersKept(s.run, s.answers)
    ensures AnswersKept(Go(s, Pull).run, Go(s, Pull).answers)
  {
    AnswerIsRecorded(s.h.(caller := true), s.run, BodyNext(s.h.body), s.run.pulls, false, s.answers);
    hide AnswersKept, Concluded, Noted;
  }

  lemma {:induction false} ArrivalAnswers(s: System, t: Turn)
    requires s.h.body.Valid() && s.run.s == s.h.body && !s.refused && Possible(s, t) && t.Arrival?
    requires ReadAllowed(s.h.body, t.result) && RunKept(s.run) && AnswersKept(s.run, s.answers)
    ensures AnswersKept(Go(s, t).run, Go(s, t).answers)
  {
    hide BodyRead, FeedAll, AnswersKept, Noted;
    var h := s.h.(charge := s.h.charge + Charged(s.h.metered, NewBytes(s.h.body, t.result)));
    var pulls := if t.result.Received? && t.result.data != [] then s.run.pulls + [t.result.data] else s.run.pulls;
    var next := BodyRead(s.h.body, t.result);
    assert s.run.ending.Open?;
    AnswerIsRecorded(s.h, s.run, next, pulls, t.result == Received([]), s.answers);
    AnswerIsRecorded(h, s.run, next, pulls, t.result == Received([]), s.answers);
    hide Concluded;
    Unanswered(s.answers);
  }

  lemma {:induction false} Unanswered(answers: seq<ChunkReply>)
    ensures Noted(answers, Unaddressed) == answers
  {
  }

  lemma {:induction false} RunIsKept(r: Run, maxBody: nat)
    requires Inv(r, maxBody)
    ensures RunKept(r)
  {
  }

  /** A pull steps the run exactly when no caller is captured. */
  lemma {:induction false} PullSteps(s: System)
    requires s.h.body.Valid() && s.run.s.Valid()
    ensures Go(s, Pull).run == if Enabled(s.run, Next) && !s.h.caller then Step(s.run, Next) else s.run
    ensures Go(s, Pull).refused == s.refused && (s.h.caller ==> Go(s, Pull) == s)
  {
    hide BodyNext, Step;
  }

  lemma {:induction false} PullHolds(s: System)
    requires s.h.body.Valid() && s.run.s == s.h.body && !s.h.caller && s.run.reading.None? && !s.refused
    requires s.h.charge == Charged(s.h.metered, |s.h.body.buffer|)
    ensures var s' := Go(s, Pull);
            && s'.h.body.Valid() && s'.h.charge == Charged(s'.h.metered, |s'.h.body.buffer|)
            && s'.h.body == s'.run.s && (s'.h.caller <==> s'.run.reading.Some?)
  {
    NextIsServed(s.h.body);
    hide BodyNext;
  }

  lemma {:induction false} PullKeeps(s: System, maxBody: nat)
    requires Kept(s, if s.run.s.chunked then maxBody else 0)
    ensures s.run.s.Valid() && Kept(Go(s, Pull), if s.run.s.chunked then maxBody else 0)
    ensures Go(s, Pull).run.s.chunked == s.run.s.chunked
    ensures Go(s, Pull).run == if Enabled(s.run, Next) && !s.refused then Step(s.run, Next) else s.run
  {
    ValidRun(s.run, if s.run.s.chunked then maxBody else 0);
    PullSteps(s);
    RunIsKept(s.run, if s.run.s.chunked then maxBody else 0);
    if !s.h.caller {
      PullHolds(s);
      PullAnswers(s);
      hide Inv, Go, Step, AnswersKept;
      StepKeepsInv(s.run, Next, maxBody);
    } else {
      hide Inv, Go, Step, AnswersKept;
    }
  }

  lemma {:induction false} ArrivalAllowed(s: System, t: Turn, maxBody: nat)
    requires Kept(s, if s.run.s.chunked then maxBody else 0) && Possible(s, t) && t.Arrival?
    ensures s.run.s.Valid() && ReadAllowed(s.h.body, t.result) && ReadAllowed(s.run.s, t.result)
  {
    ValidRun(s.run, if s.run.s.chunked then maxBody else 0);
    hide Inv;
    StepKeepsInv(s.run, Bare(t), maxBody);
  }

  lemma {:induction false} ArrivalHolds(s: System, t: Turn)
    requires s.h.body.Valid() && s.run.s == s.h.body && !s.refused && Possible(s, t) && t.Arrival?
    requires s.h.caller && ReadAllowed(s.h.body, t.result)
    requires s.h.charge == Charged(s.h.metered, |s.h.body.buffer|)
    ensures var s' := Go(s, t);
            && s'.h.body.Valid() && s'.h.charge == Charged(s'.h.metered, |s'.h.body.buffer|)
            && (if s'.refused then s'.run == s.run && s'.h.caller && s'.h.body.eofReplied
                else
                  && s'.run == Step(s.run, Bare(t)) && s'.h.body == s'.run.s
                  && (s'.h.caller <==> s'.run.reading.Some?))
  {
    ReadIsServed(s.h.body, t.result);
    hide BodyRead, FeedAll;
  }

  lemma {:induction false} ArrivalKeeps(s: System, t: Turn, maxBody: nat)
    requires Kept(s, if s.run.s.chunked then maxBody else 0) && Possible(s, t) && t.Arrival?
    ensures s.run.s.Valid() && ReadAllowed(s.h.body, t.result) && ReadAllowed(s.run.s, t.result)
    ensures Kept(Go(s, t), if s.run.s.chunked then maxBody else 0) && Go(s, t).run.s.chunked == s.run.s.chunked
    ensures Go(s, t).run == if Go(s, t).refused then s.run else Step(s.run, Bare(t))
  {
    ArrivalAllowed(s, t, maxBody);
    ArrivalHolds(s, t);
    RunIsKept(s.run, if s.run.s.chunked then maxBody else 0);
    ArrivalAnswers(s, t);
    hide Inv, Go, Step, AnswersKept;
    StepKeepsInv(s.run, Bare(t), maxBody);
  }

  function Begin(h: Held, early: seq<Byte>): System {
    System(h, Started(h.body, early), false, [])
  }

  /** The state after the possible turns of a list. */
  function RunTurns(start: System, turns: seq<Turn>, maxBody: nat): (s: System)
    requires Kept(start, if start.run.s.chunked then maxBody else 0)
    ensures Kept(s, if start.run.s.chunked then maxBody else 0) && s.run.s.chunked == start.run.s.chunked
    decreases |turns|
  {
    hide Kept, Go;
    if turns == [] then start
    else
      var last := |turns| - 1;
      var s := RunTurns(start, turns[..last], maxBody);
      if !Possible(s, turns[last]) then s
      else
        KeptValid(s, if start.run.s.chunked then maxBody else 0);
        if turns[last].Pull? then
          PullKeeps(s, maxBody);
          Go(s, turns[last])
        else
          ArrivalKeeps(s, turns[last], maxBody);
          Go(s, turns[last])
  }

  lemma {:induction false} KeptValid(s: System, maxBody: nat)
    requires Kept(s, maxBody)
    ensures s.h.body.Valid() && s.run.s.Valid()
  {
    ValidRun(s.run, maxBody);
  }

  lemma {:induction false} BeginKept(h: Held, early: seq<Byte>, maxBody: nat)
    requires h.body.Valid() && !h.caller && h.charge == Charged(h.metered, |h.body.buffer|)
    requires Inv(Started(h.body, early), if h.body.chunked then maxBody else 0)
    ensures Kept(Begin(h, early), if h.body.chunked then maxBody else 0)
  {
    hide Inv;
  }

  /** A Content-Length body as dispatched: its early bytes are buffered and charged. */
  lemma {:induction false} LengthBegins(total: nat, chunkSize: nat, early: seq<Byte>, metered: bool, admitted: bool)
    requires HoldLength(total, chunkSize, early, metered, admitted).Serving?
    ensures var h := HoldLength(total, chunkSize, early, metered, admitted).held;
            !h.body.chunked && Kept(Begin(h, h.body.buffer), 0)
  {
    var h := HoldLength(total, chunkSize, early, metered, admitted).held;
    StartLength(total, chunkSize, early);
    hide Inv;
    ValidRun(Started(h.body, h.body.buffer), 0);
    BeginKept(h, h.body.buffer, 0);
  }

  /** A chunked body as dispatched: the data decoded from its early bytes is buffered and charged. */
  lemma {:induction false} ChunkedBegins(maxBody: nat, chunkSize: nat, early: seq<Byte>, metered: bool, admitted: bool)
    requires maxBody <= USIZE_MAX && HoldChunked(maxBody, chunkSize, early, metered, admitted).Serving?
    ensures var h := HoldChunked(maxBody, chunkSize, early, metered, admitted).held;
            h.body.chunked && Kept(Begin(h, early), maxBody)
  {
    hide Inv, FeedAll;
    var h := HoldChunked(maxBody, chunkSize, early, metered, admitted).held;
    StartChunked(maxBody, chunkSize, early);
    ValidRun(Started(h.body, early), maxBody);
    BeginKept(h, early, maxBody);
  }

  // --- Theorems ---------------------------------------------------------------------------

  /** From any kept state the charge stays the buffer, and the body goes through its own run. */
  lemma {:induction false} ChargeStaysTheBuffer(start: System, turns: seq<Turn>, maxBody: nat)
    requires Kept(start, if start.run.s.chunked then maxBody else 0) && !start.refused
    ensures var s := RunTurns(start, turns, maxBody);
            && s.h.charge == Charged(s.h.metered, |s.h.body.buffer|)
            && (!s.refused ==> s.h.body == s.run.s && s.run == RunEvents(start.run, AllBare(turns), maxBody))
    decreases |turns|
  {
    if turns != [] {
      hide Go, Inv, Step, Charged;
      var last := |turns| - 1;
      ChargeStaysTheBuffer(start, turns[..last], maxBody);
      var s := RunTurns(start, turns[..last], maxBody);
      var events := AllBare(turns);
      assert events[..|events| - 1] == AllBare(turns[..last]);
      if Possible(s, turns[last]) {
        if turns[last].Pull? {
          PullKeeps(s, maxBody);
          PullSteps(s);
        } else {
          ArrivalKeeps(s, turns[last], maxBody);
        }
      }
    }
  }

  /** The connection a dispatch leaves, with the early bytes its run starts from. */
  function DispatchBegins(d: Dispatched, early: seq<Byte>): System
    requires d.Serving?
  {
    Begin(d.held, if d.held.body.chunked then early else d.held.body.buffer)
  }

  /** What `ChargeIsTheBuffer` says of a run. */
  ghost predicate ChargedAsBuffered(start: System, turns: seq<Turn>, maxBody: nat)
    requires Kept(start, if start.run.s.chunked then maxBody else 0)
  {
    var s := RunTurns(start, turns, maxBody);
    && s.h.charge == Charged(s.h.metered, |s.h.body.buffer|)
    && (!s.refused ==> s.h.body == s.run.s && s.run == RunEvents(start.run, AllBare(turns), maxBody))
  }

  /**
    From the dispatch of any body, over every run, refused bytes included: the request charge is
    exactly the length of the inbound buffer; and until bytes are refused the body goes through
    the run of its own events.
   */
  lemma {:induction false} ChargeIsTheBuffer(
    maxBody: nat, total: nat, chunkSize: nat, early: seq<Byte>, metered: bool, admitted: bool, turns: seq<Turn>)
    requires maxBody <= USIZE_MAX
    ensures var d := HoldLength(total, chunkSize, early, metered, admitted);
            d.Serving? ==>
              && Kept(DispatchBegins(d, early), 0) && !d.held.body.chunked
              && ChargedAsBuffered(DispatchBegins(d, early), turns, 0)
    ensures var d := HoldChunked(maxBody, chunkSize, early, metered, admitted);
            d.Serving? ==>
              && Kept(DispatchBegins(d, early), maxBody) && d.held.body.chunked
              && ChargedAsBuffered(DispatchBegins(d, early), turns, maxBody)
  {
    hide HoldLength, HoldChunked, Kept, RunTurns, RunEvents;
    var d := HoldLength(total, chunkSize, early, metered, admitted);
    if d.Serving? {
      LengthBegins(total, chunkSize, early, metered, admitted);
      ChargeStaysTheBuffer(DispatchBegins(d, early), turns, 0);
    }
    d := HoldChunked(maxBody, chunkSize, early, metered, admitted);
    if d.Serving? {
      ChunkedBegins(maxBody, chunkSize, early, metered, admitted);
      ChargeStaysTheBuffer(DispatchBegins(d, early), turns, maxBody);
    }
  }

  /**
    A read answers its caller or reads on, unless its bytes are refused: then, and only then, the
    error goes to nobody and the caller stays captured.
   */
  lemma {:induction false} CallerIsLeftIffRefused(s: System, t: Turn, maxBody: nat)
    requires Kept(s, if s.run.s.chunked then maxBody else 0) && Possible(s, t) && t.Arrival?
    requires t.result.Received? && t.result.data != []
    ensures s.run.s.Valid() && ReadAllowed(s.h.body, t.result) && ReadAllowed(s.run.s, t.result)
    ensures var (h, outcome) := ReadBody(s.h, t.result, t.admitted);
            && (h.caller && !outcome.Reading? <==> Refuses(s.h.metered, NewBytes(s.h.body, t.result), t.admitted))
            && (outcome.Unaddressed? <==> h.caller && !outcome.Reading?)
            && (Go(s, t).refused <==> outcome.Unaddressed?)
  {
    ArrivalAllowed(s, t, maxBody);
    hide Inv, BodyRead, FeedAll, Step;
  }

  /** The same in terms of the caps of a balanced shard, which a caller could read beforehand. */
  lemma {:induction false} CallerIsLeftIffOverCap(s: System, result: ReadResult, maxBody: nat, shard: L.Shard)
    requires Kept(s, if s.run.s.chunked then maxBody else 0) && L.Inv(shard)
    requires result.Received? && result.data != [] && Possible(s, Arrival(result, true))
    ensures s.run.s.Valid() && ReadAllowed(s.h.body, result)
    ensures var n := NewBytes(s.h.body, result);
            var (h, outcome) := ReadBody(s.h, result, L.TryCharge(shard.m, L.Request, n).1);
            (h.caller && !outcome.Reading? <==>
               && s.h.metered && n > 0
               && !(&& L.Admits(shard.m.localCap, shard.m.requestCurrent + n)
                    && L.Admits(shard.m.sharedCap, shard.m.requestCurrent + shard.m.responseCurrent + n)))
  {
    hide L.Inv, L.TryCharge, Kept, ReadBody, Possible, FeedAll;
    KeptValid(s, if s.run.s.chunked then maxBody else 0);
    var n := NewBytes(s.h.body, result);
    var admitted := L.TryCharge(shard.m, L.Request, n).1;
    L.AdmittedExactly(shard, L.Request, n);
    SamePossible(s, result, admitted);
    CallerIsLeftIffRefused(s, Arrival(result, admitted), maxBody);
  }

  lemma {:induction false} SamePossible(s: System, result: ReadResult, admitted: bool)
    ensures Possible(s, Arrival(result, true)) == Possible(s, Arrival(result, admitted))
  {
  }

  /** Once bytes were refused nothing changes until the response is done: every pull is rejected. */
  lemma {:induction false} RefusedIsStuck(s: System, turns: seq<Turn>, maxBody: nat)
    requires Kept(s, if s.run.s.chunked then maxBody else 0) && s.refused
    ensures RunTurns(s, turns, maxBody) == s
    ensures s.h.body.Valid() && PullBody(s.h) == (s.h, Rejected)
    decreases |turns|
  {
    if turns != [] {
      RefusedIsStuck(s, turns[..|turns| - 1], maxBody);
    }
  }

  /** A body of two bytes under a cap of one: the read is refused and the next pull rejected. */
  lemma {:induction false} RefusedPull()
    ensures HoldLength(2, 2, [], true, true).Serving?
    ensures var h := HoldLength(2, 2, [], true, true).held;
            && h.body.Valid()
            && PullBody(h).1 == Reading(2)
            && var waiting := PullBody(h).0;
               && waiting.body.Valid() && ReadAllowed(waiting.body, Received([1, 2]))
               && !L.TryCharge(L.NewMeters(Some(1), None), L.Request, 2).1
               && var (left, outcome) := ReadBody(waiting, Received([1, 2]), false);
                  left.body.Valid() && outcome.Unaddressed? && PullBody(left).1.Rejected?
  {
  }

  // --- The connection's fields ------------------------------------------------------------

  /** The inbound fields of the connection, updated in place by its handlers. */
  class InboundState {
    const chunked: bool
    const total: nat
    const chunkSize: nat
    const decoder: D.ChunkedDecoder?
    const metered: bool
    var received: nat
    var delivered: nat
    var buffer: seq<Byte>
    var raw: seq<Byte>
    var eofReplied: bool
    var requestCharge: nat
    var pendingReply: bool

    ghost predicate Valid()
      reads this, decoder, if decoder == null then {} else {decoder.sizeBuf}
    {
      && (decoder != null ==> decoder.Valid())
      && (chunked ==> decoder != null)
      && Body().Valid()
    }

    ghost function Body(): Inbound
      reads this, decoder, if decoder == null then {} else {decoder.sizeBuf}
      requires decoder != null ==> decoder.Valid()
    {
      Inbound(chunked, total, chunkSize, received, delivered, buffer,
              if decoder == null then New(0) else decoder.State(), raw, eofReplied)
    }

    ghost function State(): Held
      reads this, decoder, if decoder == null then {} else {decoder.sizeBuf}
      requires decoder != null ==> decoder.Valid()
    {
      Held(Body(), metered, requestCharge, pendingReply)
    }

    constructor WithLength(total: nat, chunkSize: nat, early: seq<Byte>, metered: bool)
      ensures Valid() && Serving(State()) == HoldLength(total, chunkSize, early, metered, true) && decoder == null
    {
      var kept := early[..Min(|early|, total)];
      chunked, decoder, raw := false, null, [];
      this.total, this.chunkSize, this.metered := total, Max(chunkSize, 1), metered;
      received, delivered, buffer, eofReplied := |kept|, 0, kept, false;
      requestCharge, pendingReply := if metered then |kept| else 0, false;
    }

    constructor WithDecoder(
      decoder: D.ChunkedDecoder, chunkSize: nat, consumed: nat, decoded: seq<Byte>, raw: seq<Byte>, metered: bool)
      requires decoder.Valid()
      ensures Valid() && this.decoder == decoder
      ensures State() == Held(Inbound(true, 0, Max(chunkSize, 1), consumed, 0, decoded, decoder.State(), raw, false),
                              metered, Charged(metered, |decoded|), false)
    {
      chunked, this.decoder, this.raw := true, decoder, raw;
      total, this.chunkSize, this.metered := 0, Max(chunkSize, 1), metered;
      received, delivered, buffer, eofReplied := consumed, 0, decoded, false;
      requestCharge, pendingReply := if metered then |decoded| else 0, false;
    }

    /** Keeps the early bytes of the body; `null` when their charge is refused. */
    static method DispatchWithLength(total: nat, chunkSize: nat, early: seq<Byte>, metered: bool, admitted: bool)
      returns (s: InboundState?)
      ensures s == null <==> HoldLength(total, chunkSize, early, metered, admitted).TooLarge?
      ensures s != null ==> s.Valid() && Serving(s.State()) == HoldLength(total, chunkSize, early, metered, admitted)
      ensures s != null ==> fresh(s) && s.decoder == null
    {
      var kept := Min(|early|, total);
      if metered && kept > 0 && !admitted {
        return null;
      }
      s := new InboundState.WithLength(total, chunkSize, early, metered);
    }

    /** Decodes the early bytes; `null` when their charge is refused or they are malformed. */
    static method DispatchWithChunks(maxBody: nat, chunkSize: nat, early: seq<Byte>, metered: bool, admitted: bool)
      returns (s: InboundState?, malformed: bool)
      requires maxBody <= USIZE_MAX
      ensures s != null ==> s.Valid() && Serving(s.State()) == HoldChunked(maxBody, chunkSize, early, metered, admitted)
      ensures s != null ==> fresh(s) && s.decoder != null && fresh(s.decoder) && fresh(s.decoder.sizeBuf)
      ensures s == null ==>
                HoldChunked(maxBody, chunkSize, early, metered, admitted) == if malformed then BadFraming else TooLarge
    {
      hide FeedAll;
      malformed := false;
      var decoder := new D.ChunkedDecoder(maxBody);
      var progress, consumed, decoded := decoder.FeedAll(early, []);
      assert decoded == FeedAll(New(maxBody), early).out;
      if metered && decoded != [] && !admitted {
        return null, false;
      }
      if progress.Failed? {
        return null, true;
      }
      s := new InboundState.WithDecoder(decoder, chunkSize, consumed, decoded, early[consumed..], metered);
    }

    /** `reply_request_body_chunk`: the captured caller, if any, is taken. */
    method Answer(reply: ChunkReply) returns (outcome: Outcome)
      modifies this`pendingReply
      ensures !pendingReply && outcome == Answered(reply)
    {
      pendingReply := false;
      outcome := Answered(reply);
    }

    method ServeChunkFromBuffer() returns (outcome: Outcome)
      requires Valid()
      modifies this
      ensures Valid() && (State(), outcome) == Concluded(old(State()), ServeChunk(old(Body())))
    {
      hide FeedAll, New;
      var take := Min(chunkSize, |buffer|);
      take := if chunked then take else Min(take, total - delivered);
      var chunk := buffer[..take];
      buffer, delivered := buffer[take..], delivered + take;
      requestCharge := requestCharge - Min(take, requestCharge);
      outcome := Answer(Chunk(chunk));
    }

    method EndBody(reply: ChunkReply) returns (outcome: Outcome)
      requires Valid() && !reply.Chunk?
      modifies this
      ensures Valid() && (State(), outcome) == Concluded(old(State()), End(old(Body()), reply))
    {
      eofReplied := true;
      outcome := Answer(reply);
    }

    /** `handle_call` for a pull, then `handle_request_body_next`. */
    method HandleRequestBodyNext() returns (outcome: Outcome)
      requires Valid()
      modifies this
      ensures Valid() && (State(), outcome) == PullBody(old(State()))
    {
      hide FeedAll, New, ServeChunk;
      if pendingReply {
        return Rejected;
      }
      pendingReply := true;
      if eofReplied {
        outcome := Answer(Eof);
        return;
      }
      if buffer != [] {
        outcome := ServeChunkFromBuffer();
        return;
      }
      var want;
      if chunked {
        if decoder.IsComplete() {
          outcome := EndBody(Eof);
          return;
        }
        want := PreferredReadSize(decoder.phase, Min(READ_CHUNK, Max(chunkSize, 1)));
      } else {
        want := if delivered >= total then 0
                else Min(SaturatingSub(total, received), Min(READ_CHUNK, Max(chunkSize, 1)));
        if want == 0 {
          outcome := EndBody(Eof);
          return;
        }
      }
      return Reading(want);
    }

    method DecodeRaw(data: seq<Byte>) returns (progress: Result)
      requires Valid() && chunked
      modifies this, decoder, decoder.sizeBuf
      ensures Valid() && (Body(), progress) == Decoded(old(Body()), data)
      ensures requestCharge == old(requestCharge) && pendingReply == old(pendingReply)
    {
      hide FeedAll, New;
      received, raw := received + |data|, raw + data;
      var consumed, grown;
      progress, consumed, grown := decoder.FeedAll(raw, buffer);
      raw, buffer := raw[consumed..], grown;
    }

    method ConcludeDecoding(progress: Result) returns (outcome: Outcome)
      requires Valid() && chunked
      modifies this
      ensures Valid() && (State(), outcome) == Concluded(old(State()), AfterDecoding(old(Body()), progress))
    {
      hide FeedAll, New, ServeChunk;
      if progress.Failed? {
        outcome := EndBody(ReadError);
      } else if buffer != [] {
        outcome := ServeChunkFromBuffer();
      } else if progress.Complete? {
        outcome := EndBody(Eof);
      } else {
        outcome := Reading(PreferredReadSize(decoder.phase, Min(READ_CHUNK, Max(chunkSize, 1))));
      }
    }

    method HandleChunkedRead(data: seq<Byte>, admitted: bool) returns (outcome: Outcome)
      requires Valid() && chunked && data != []
      modifies this, decoder, decoder.sizeBuf
      ensures Valid() && (State(), outcome) == ReadBody(old(State()), Received(data), admitted)
    {
      hide FeedAll, New, AfterDecoding;
      var before := buffer;
      var progress := DecodeRaw(data);
      var n := |buffer| - |before|;
      if metered && n > 0 && !admitted {
        assert buffer[..|before|] == before;
        buffer, raw, eofReplied := buffer[..|before|], [], true;
        return Unaddressed;
      }
      if metered {
        requestCharge := requestCharge + n;
      }
      outcome := ConcludeDecoding(progress);
    }

    method HandleLengthRead(data: seq<Byte>, admitted: bool) returns (outcome: Outcome)
      requires Valid() && !chunked && data != [] && delivered + |buffer| + |data| <= total
      modifies this
      ensures Valid() && (State(), outcome) == ReadBody(old(State()), Received(data), admitted)
    {
      hide FeedAll, New, ServeChunk;
      var before := buffer;
      received, buffer := received + |data|, buffer + data;
      if metered && !admitted {
        assert buffer[..|before|] == before;
        buffer, eofReplied := buffer[..|before|], true;
        return Unaddressed;
      }
      if metered {
        requestCharge := requestCharge + |data|;
      }
      outcome := ServeChunkFromBuffer();
    }

    method HandleBodyChunkRead(result: ReadResult, admitted: bool) returns (outcome: Outcome)
      requires Valid() && ReadAllowed(Body(), result)
      modifies this, decoder, if decoder == null then {} else {decoder.sizeBuf}
      ensures Valid() && (State(), outcome) == ReadBody(old(State()), result, admitted)
    {
      hide FeedAll, New, ServeChunk, Decoded, AfterDecoding;
      if result.IoError? {
        outcome := EndBody(ReadError);
      } else if result.data == [] {
        outcome := EndBody(Eof);
      } else if chunked {
        outcome := HandleChunkedRead(result.data, admitted);
      } else {
        outcome := HandleLengthRead(result.data, admitted);
      }
    }

    /** One turn of a run, through the fields. */
    method Handle(t: Turn) returns (outcome: Outcome)
      requires Valid() && (t.Arrival? ==> ReadAllowed(Body(), t.result))
      modifies this, decoder, if decoder == null then {} else {decoder.sizeBuf}
      ensures Valid()
      ensures (State(), outcome) == if t.Pull? then PullBody(old(State())) else ReadBody(old(State()), t.result, t.admitted)
    {
      hide FeedAll, New, PullBody, ReadBody;
      if t.Pull? {
        outcome := HandleRequestBodyNext();
      } else {
        outcome := HandleBodyChunkRead(t.result, t.admitted);
      }
    }
  }

  lemma {:induction false} TurnIsReady(s: System, t: Turn, maxBody: nat)
    requires Kept(s, if s.run.s.chunked then maxBody else 0) && Possible(s, t)
    ensures s.h.body.Valid() && s.run.s.Valid()
    ensures t.Arrival? ==> ReadAllowed(s.h.body, t.result) && ReadAllowed(s.run.s, t.result)
  {
    KeptValid(s, if s.run.s.chunked then maxBody else 0);
    if t.Arrival? {
      ArrivalAllowed(s, t, maxBody);
    }
  }

  /** The fields driven through any list of turns end where the run ends. */
  method Drive(o: InboundState, start: System, turns: seq<Turn>, maxBody: nat)
    returns (s: System, answers: seq<ChunkReply>)
    requires o.Valid() && o.State() == start.h && Kept(start, if start.run.s.chunked then maxBody else 0)
    modifies o, o.decoder, if o.decoder == null then {} else {o.decoder.sizeBuf}
    ensures s == RunTurns(start, turns, maxBody) && o.Valid() && o.State() == s.h
    ensures answers == s.answers
  {
    hide Kept, FeedAll, New, PullBody, ReadBody, Possible, ReadAllowed, Step, Enabled;
    s, answers := start, start.answers;
    assert turns[..0] == [];
    for i := 0 to |turns|
      invariant o.Valid() && o.State() == s.h && answers == s.answers
      invariant s == RunTurns(start, turns[..i], maxBody)
    {
      assert turns[..i + 1][..i] == turns[..i];
      if Possible(s, turns[i]) {
        TurnIsReady(s, turns[i], maxBody);
        var outcome := o.Handle(turns[i]);
        s, answers := Go(s, turns[i]), if outcome.Answered? then answers + [outcome.reply] else answers;
      }
    }
    assert turns[..|turns|] == turns;
  }

  /** From the dispatch on: the fields of any served body follow its run. */
  method Serve(
    chunked: bool, maxBody: nat, total: nat, chunkSize: nat, early: seq<Byte>, metered: bool, admitted: bool,
    turns: seq<Turn>) returns (o: InboundState?, answers: seq<ChunkReply>)
    requires maxBody <= USIZE_MAX
    ensures var d := if chunked then HoldChunked(maxBody, chunkSize, early, metered, admitted)
                     else HoldLength(total, chunkSize, early, metered, admitted);
            var cap := if chunked then maxBody else 0;
            && (o == null <==> !d.Serving?)
            && (o != null ==>
                  && Kept(DispatchBegins(d, early), cap) && d.held.body.chunked == chunked
                  && var s := RunTurns(DispatchBegins(d, early), turns, cap);
                     o.Valid() && o.State() == s.h && answers == s.answers)
  {
    hide HoldLength, HoldChunked, Kept, RunTurns, FeedAll, New;
    answers := [];
    if chunked {
      var malformed;
      o, malformed := InboundState.DispatchWithChunks(maxBody, chunkSize, early, metered, admitted);
      if o != null {
        ChunkedBegins(maxBody, chunkSize, early, metered, admitted);
        var d := HoldChunked(maxBody, chunkSize, early, metered, admitted);
        var s;
        s, answers := Drive(o, DispatchBegins(d, early), turns, maxBody);
      }
    } else {
      o := InboundState.DispatchWithLength(total, chunkSize, early, metered, admitted);
      if o != null {
        LengthBegins(total, chunkSize, early, metered, admitted);
        var d := HoldLength(total, chunkSize, early, metered, admitted);
        var s;
        s, answers := Drive(o, DispatchBegins(d, early), turns, 0);
      }
    }
  }
}
