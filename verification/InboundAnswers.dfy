/**
  What every pull and every read of an inbound body is answered with, in terms of the bytes
  taken from the socket and the chunks handed out before, whatever the connection has buffered.
 */
module InboundAnswers {
  import opened Bytes
  import opened ChunkedSpec
  import opened ChunkedPartition
  import opened InboundBody
  import opened InboundConnection

  /** The framing of a body, as its head and the configuration give it. */
  datatype Framing = Length(total: nat) | Chunks(maxBody: Word)

  /** The body bytes that the reads so far have brought. */
  function Brought(framing: Framing, pulls: seq<seq<Byte>>): seq<Byte> {
    match framing
    case Length(_) => Concat(pulls)
    case Chunks(maxBody) => FeedParts(New(maxBody), [], pulls).out
  }

  datatype Standing = Wrong | Whole | Missing(atMost: nat)

  /** Where the body stands after these reads; a chunked one can count on the data announced only. */
  function StandingOf(framing: Framing, pulls: seq<seq<Byte>>): Standing {
    match framing
    case Length(total) => if |Concat(pulls)| >= total then Whole else Missing(total - |Concat(pulls)|)
    case Chunks(maxBody) =>
      var f := FeedParts(New(maxBody), [], pulls);
      if f.result.Failed? then Wrong
      else if f.result.Complete? then Whole
      else Missing(match f.dec.phase case Data(n) => Max(n, 1) case _ => 1)
  }

  /** A framing error, else the next chunk, else the end, else a read of what is surely the body's. */
  function Due(framing: Framing, chunkSize: nat, pulls: seq<seq<Byte>>, served: seq<seq<Byte>>): InboundConnection.Outcome {
    var brought, n := Brought(framing, pulls), |Concat(served)|;
    var standing := StandingOf(framing, pulls);
    if standing.Wrong? then Answered(ReadError)
    else if n < |brought| then Answered(Chunk(brought[n..Min(n + chunkSize, |brought|)]))
    else if standing.Missing? then Reading(Min(standing.atMost, Min(4096, chunkSize)))
    else Answered(Eof)
  }

  function DuePull(framing: Framing, chunkSize: nat, s: System): InboundConnection.Outcome {
    if s.refused || s.run.reading.Some? then Rejected
    else if !s.run.ending.Open? then Answered(Eof)
    else Due(framing, chunkSize, s.run.pulls, s.run.served)
  }

  function DueRead(framing: Framing, chunkSize: nat, s: System, result: ReadResult, admitted: bool): InboundConnection.Outcome {
    match result
    case IoError => Answered(ReadError)
    case Received(data) =>
      var pulls := s.run.pulls + [data];
      if data == [] then Answered(Eof)
      else if s.h.metered && !admitted && |Brought(framing, pulls)| > |Brought(framing, s.run.pulls)| then Unaddressed
      else Due(framing, chunkSize, pulls, s.run.served)
  }

  /** The body is of this framing and its chunks of this size. */
  ghost predicate Of(framing: Framing, chunkSize: nat, b: Inbound) {
    && b.chunkSize == chunkSize
    && match framing {
         case Length(total) => !b.chunked && b.total == total
         case Chunks(_) => b.chunked
       }
  }

  function CapOf(framing: Framing): nat {
    match framing
    case Length(_) => 0
    case Chunks(maxBody) => maxBody
  }

  lemma {:induction false} Unserved(served: seq<Byte>, buffer: seq<Byte>, brought: seq<Byte>, chunkSize: nat)
    requires served + buffer == brought
    ensures brought[|served|..] == buffer
    ensures brought[|served|..Min(|served| + chunkSize, |brought|)] == buffer[..Min(chunkSize, |buffer|)]
  {
  }

  lemma {:induction false} LengthReadIsDue(total: nat, chunkSize: nat, s: System, data: seq<Byte>, admitted: bool)
    requires Kept(s, 0) && Of(Length(total), chunkSize, s.run.s) && data != []
    requires Possible(s, Arrival(Received(data), admitted))
    ensures s.h.body.Valid() && ReadAllowed(s.h.body, Received(data))
    ensures ReadBody(s.h, Received(data), admitted).1 == DueRead(Length(total), chunkSize, s, Received(data), admitted)
  {
    hide FeedAll, Concat, AnswersKept;
    ArrivalAllowed(s, Arrival(Received(data), admitted), 0);
    ConcatSnoc(s.run.pulls, data);
    assert Concat(s.run.served) + (s.run.s.buffer + data) == Concat(s.run.pulls) + data;
    Unserved(Concat(s.run.served), s.run.s.buffer + data, Concat(s.run.pulls) + data, chunkSize);
  }

  /** What one more read brings, and where the body stands then. */
  lemma {:induction false} OneMoreBrings(maxBody: Word, r: Run, data: seq<Byte>)
    requires Inv(r, maxBody) && r.s.chunked && data != [] && Enabled(r, Arrive(Received(data)))
    ensures var f := FeedAll(r.s.decoder, r.s.raw + data);
            && Brought(Chunks(maxBody), r.pulls + [data]) == Brought(Chunks(maxBody), r.pulls) + f.out
            && StandingOf(Chunks(maxBody), r.pulls + [data])
               == (match f.result
                   case Failed(_) => Wrong
                   case Complete => Whole
                   case NeedMore => Missing(match f.dec.phase case Data(n) => Max(n, 1) case _ => 1))
            && Concat(r.served) + r.s.buffer == Brought(Chunks(maxBody), r.pulls)
  {
    hide FeedAll, FeedParts, Concat, Waiting, PreferredReadSize;
    OneMorePull(maxBody, r.pulls, data);
  }

  /** `Due` for a body with something buffered behind the chunks served, or with nothing. */
  lemma {:induction false} DueIs(
    framing: Framing, chunkSize: nat, pulls: seq<seq<Byte>>, served: seq<seq<Byte>>, buffer: seq<Byte>)
    requires Concat(served) + buffer == Brought(framing, pulls)
    ensures var standing := StandingOf(framing, pulls);
            Due(framing, chunkSize, pulls, served)
            == if standing.Wrong? then Answered(ReadError)
               else if buffer != [] then Answered(Chunk(buffer[..Min(chunkSize, |buffer|)]))
               else if standing.Missing? then Reading(Min(standing.atMost, Min(4096, chunkSize)))
               else Answered(Eof)
  {
    hide Concat, Brought, StandingOf;
    Unserved(Concat(served), buffer, Brought(framing, pulls), chunkSize);
  }

  lemma {:induction false} RunStands(framing: Framing, chunkSize: nat, r: Run)
    requires Inv(r, CapOf(framing)) && Of(framing, chunkSize, r.s) && r.ending.Open?
    ensures Concat(r.served) + r.s.buffer == Brought(framing, r.pulls)
    ensures r.s.buffer == [] && r.reading.None? ==>
              StandingOf(framing, r.pulls)
              == if r.s.chunked then
                   if r.s.decoder.phase.Done? then Whole
                   else Missing(match r.s.decoder.phase case Data(n) => Max(n, 1) case _ => 1)
                 else if r.s.delivered >= r.s.total then Whole else Missing(r.s.total - r.s.received)
    ensures !StandingOf(framing, r.pulls).Wrong?
  {
    hide FeedAll, FeedParts, Concat, Waiting;
    assert |Concat(r.served) + r.s.buffer| == |Concat(r.served)| + |r.s.buffer|;
  }

  lemma {:induction false} PullIsDue(framing: Framing, chunkSize: nat, s: System)
    requires Kept(s, CapOf(framing)) && Of(framing, chunkSize, s.run.s)
    ensures s.h.body.Valid() && PullBody(s.h).1 == DuePull(framing, chunkSize, s)
  {
    RunIsKept(s.run, CapOf(framing));
    hide Inv, AnswersKept, Brought, StandingOf, Due, Concat;
    if !s.refused && s.run.ending.Open? {
      RunStands(framing, chunkSize, s.run);
      DueIs(framing, chunkSize, s.run.pulls, s.run.served, s.run.s.buffer);
    }
  }

  /** What a read of a chunked body comes to, by its buffer. */
  lemma {:induction false} ChunkedOutcome(h: Held, data: seq<Byte>, admitted: bool)
    requires h.body.Valid() && h.body.chunked && data != []
    ensures var f := FeedAll(h.body.decoder, h.body.raw + data);
            var buffer := h.body.buffer + f.out;
            ReadBody(h, Received(data), admitted).1
            == if h.metered && !admitted && f.out != [] then Unaddressed
               else if f.result.Failed? then Answered(ReadError)
               else if buffer != [] then Answered(Chunk(buffer[..Min(h.body.chunkSize, |buffer|)]))
               else if f.result.Complete? then Answered(Eof)
               else Reading(match f.dec.phase case Data(n) => Max(Min(n, Min(4096, h.body.chunkSize)), 1) case _ => 1)
  {
    hide FeedAll, AfterDecoding;
    DecodingIs(Decoded(h.body, data).0, Decoded(h.body, data).1);
  }

  lemma {:induction false} ChunkedReadIsDue(maxBody: Word, chunkSize: nat, s: System, data: seq<Byte>, admitted: bool)
    requires Kept(s, maxBody) && Of(Chunks(maxBody), chunkSize, s.run.s) && data != []
    requires Possible(s, Arrival(Received(data), admitted))
    ensures s.h.body.Valid() && ReadAllowed(s.h.body, Received(data))
    ensures ReadBody(s.h, Received(data), admitted).1 == DueRead(Chunks(maxBody), chunkSize, s, Received(data), admitted)
  {
    hide FeedAll, Brought, StandingOf, Concat, AnswersKept, Due, Inv, ReadBody;
    ArrivalAllowed(s, Arrival(Received(data), admitted), maxBody);
    var r := s.run;
    OneMoreBrings(maxBody, r, data);
    var f := FeedAll(r.s.decoder, r.s.raw + data);
    var buffer := r.s.buffer + f.out;
    assert Concat(r.served) + buffer == Concat(r.served) + r.s.buffer + f.out;
    DueIs(Chunks(maxBody), chunkSize, r.pulls + [data], r.served, buffer);
    ChunkedOutcome(s.h, data, admitted);
  }

  lemma {:induction false} DecodingIs(b: Inbound, result: Result)
    requires b.Valid() && b.chunked
    ensures AfterDecoding(b, result).1
         == if result.Failed? then Reply(ReadError)
            else if b.buffer != [] then Reply(Chunk(b.buffer[..Min(b.chunkSize, |b.buffer|)]))
            else if result.Complete? then Reply(Eof)
            else Read(match b.decoder.phase case Data(n) => Max(Min(n, Min(4096, b.chunkSize)), 1) case _ => 1)
  {
  }

  /** Neither framing nor chunk size ever changes. */
  lemma {:induction false} PullStaysOf(framing: Framing, chunkSize: nat, b: Inbound)
    requires b.Valid() && Of(framing, chunkSize, b)
    ensures Of(framing, chunkSize, BodyNext(b).0)
  {
  }

  lemma {:induction false} ReadStaysOf(framing: Framing, chunkSize: nat, b: Inbound, result: ReadResult)
    requires b.Valid() && ReadAllowed(b, result) && Of(framing, chunkSize, b)
    ensures Of(framing, chunkSize, BodyRead(b, result).0)
  {
    hide FeedAll;
  }

  lemma {:induction false} StepStaysOf(framing: Framing, chunkSize: nat, r: Run, e: Event)
    requires r.s.Valid() && Enabled(r, e) && (e.Arrive? ==> ReadAllowed(r.s, e.result)) && Of(framing, chunkSize, r.s)
    ensures Of(framing, chunkSize, Step(r, e).s)
  {
    hide BodyNext, BodyRead, Of;
    if e.Next? {
      PullStaysOf(framing, chunkSize, r.s);
    } else {
      ReadStaysOf(framing, chunkSize, r.s, e.result);
    }
  }

  lemma {:induction false} RunStaysOf(framing: Framing, chunkSize: nat, start: System, turns: seq<Turn>)
    requires Kept(start, CapOf(framing)) && Of(framing, chunkSize, start.run.s)
    ensures Of(framing, chunkSize, RunTurns(start, turns, CapOf(framing)).run.s)
    decreases |turns|
  {
    if turns != [] {
      hide Kept, Go, Step, Enabled, ReadAllowed;
      var cap, last := CapOf(framing), |turns| - 1;
      RunStaysOf(framing, chunkSize, start, turns[..last]);
      var s := RunTurns(start, turns[..last], cap);
      if Possible(s, turns[last]) {
        TurnIsReady(s, turns[last], cap);
        if turns[last].Pull? {
          PullKeeps(s, cap);
          if Enabled(s.run, Next) {
            StepStaysOf(framing, chunkSize, s.run, Next);
          }
        } else {
          ArrivalKeeps(s, turns[last], cap);
          StepStaysOf(framing, chunkSize, s.run, Bare(turns[last]));
        }
      }
    }
  }

  // --- Theorems ---------------------------------------------------------------------------

  function Dispatch(framing: Framing, chunkSize: nat, early: seq<Byte>, metered: bool, admitted: bool): Dispatched {
    match framing
    case Length(total) => HoldLength(total, chunkSize, early, metered, admitted)
    case Chunks(maxBody) => HoldChunked(maxBody, chunkSize, early, metered, admitted)
  }

  /** The body bytes that came with the head; past a Content-Length nothing is the body's. */
  function Early(framing: Framing, early: seq<Byte>): seq<Byte> {
    match framing
    case Length(total) => early[..Min(|early|, total)]
    case Chunks(_) => early
  }

  /** A body is dispatched unless it has early bytes the caps refuse or its framing is wrong. */
  lemma {:induction false} DispatchIsDue(framing: Framing, chunkSize: nat, early: seq<Byte>, metered: bool, admitted: bool)
    ensures var pulls := [Early(framing, early)];
            match Dispatch(framing, chunkSize, early, metered, admitted)
            case TooLarge => metered && !admitted && Brought(framing, pulls) != []
            case BadFraming => !(metered && !admitted && Brought(framing, pulls) != []) && StandingOf(framing, pulls).Wrong?
            case Serving(held) =>
              && !(metered && !admitted && Brought(framing, pulls) != []) && !StandingOf(framing, pulls).Wrong?
              && held.body.buffer == Brought(framing, pulls) && held.metered == metered && !held.caller
  {
    hide FeedAll, FeedParts;
    var first := Early(framing, early);
    assert Concat([first]) == first + Concat<Byte>([]) && first + [] == first;
    if framing.Chunks? {
      FeedOnePart(New(framing.maxBody), [], early);
      assert [] + early == early;
    }
  }

  lemma {:induction false} DispatchIsOf(framing: Framing, chunkSize: nat, early: seq<Byte>, metered: bool, admitted: bool)
    requires Dispatch(framing, chunkSize, early, metered, admitted).Serving?
    ensures var start := DispatchBegins(Dispatch(framing, chunkSize, early, metered, admitted), early);
            && Kept(start, CapOf(framing)) && Of(framing, Max(chunkSize, 1), start.run.s)
            && start.answers == [] && !start.refused
            && start.run.pulls == [Early(framing, early)]
  {
    match framing
    case Length(total) =>
      LengthBegins(total, chunkSize, early, metered, admitted);
      hide Kept;
    case Chunks(maxBody) =>
      ChunkedBegins(maxBody, chunkSize, early, metered, admitted);
      hide Kept, FeedAll;
  }

  /**
    From every dispatch, over every run: a pull and a read that may come next have exactly the
    outcome that is due by the bytes read and the chunks answered so far.
   */
  lemma {:induction false} OutcomesAreDue(
    framing: Framing, chunkSize: nat, early: seq<Byte>, metered: bool, admitted: bool, turns: seq<Turn>, t: Turn)
    requires Dispatch(framing, chunkSize, early, metered, admitted).Serving?
    ensures var start := DispatchBegins(Dispatch(framing, chunkSize, early, metered, admitted), early);
            && Kept(start, CapOf(framing)) && (start.run.s.chunked <==> framing.Chunks?)
            && var s := RunTurns(start, turns, CapOf(framing));
               && s.h.body.Valid()
               && PullBody(s.h).1 == DuePull(framing, Max(chunkSize, 1), s)
               && (t.Arrival? && Possible(s, t) ==>
                     && ReadAllowed(s.h.body, t.result)
                     && ReadBody(s.h, t.result, t.admitted).1
                        == DueRead(framing, Max(chunkSize, 1), s, t.result, t.admitted))
  {
    hide Dispatch, Kept, RunTurns, PullBody, ReadBody, DuePull, DueRead, Possible, ReadAllowed;
    DispatchIsOf(framing, chunkSize, early, metered, admitted);
    var start := DispatchBegins(Dispatch(framing, chunkSize, early, metered, admitted), early);
    RunStaysOf(framing, Max(chunkSize, 1), start, turns);
    var s := RunTurns(start, turns, CapOf(framing));
    PullIsDue(framing, Max(chunkSize, 1), s);
    if t.Arrival? && Possible(s, t) {
      ReadIsDue(framing, Max(chunkSize, 1), s, t);
    }
  }

  lemma {:induction false} ReadIsDue(framing: Framing, chunkSize: nat, s: System, t: Turn)
    requires Kept(s, CapOf(framing)) && Of(framing, chunkSize, s.run.s) && t.Arrival? && Possible(s, t)
    ensures s.h.body.Valid() && ReadAllowed(s.h.body, t.result)
    ensures ReadBody(s.h, t.result, t.admitted).1 == DueRead(framing, chunkSize, s, t.result, t.admitted)
  {
    TurnIsReady(s, t, CapOf(framing));
    if t.result.IoError? || t.result.data == [] {
      hide Kept;
    } else {
      hide Kept, ReadBody, DueRead, Possible;
      match framing
      case Length(total) => LengthReadIsDue(total, chunkSize, s, t.result.data, t.admitted);
      case Chunks(maxBody) => ChunkedReadIsDue(maxBody, chunkSize, s, t.result.data, t.admitted);
    }
  }

  /** The data of the chunks among some answers. */
  function ChunksOf(answers: seq<ChunkReply>): seq<seq<Byte>> {
    if answers == [] then []
    else
      var last := answers[|answers| - 1];
      ChunksOf(answers[..|answers| - 1]) + if last.Chunk? then [last.data] else []
  }

  lemma {:induction false} AnswersAreServed(r: Run, answers: seq<ChunkReply>)
    requires AnswersKept(r, answers)
    ensures ChunksOf(answers) == r.served
    decreases |answers|
  {
    if answers != [] {
      var last := |answers| - 1;
      if last >= |r.served| {
        AnswersAreServed(r.(ending := if last == |r.served| then Open else r.ending), answers[..last]);
      } else {
        AnswersAreServed(r.(served := r.served[..last]), answers[..last]);
        assert r.served == r.served[..last] + [r.served[last]];
      }
    }
  }

  /**
    From every dispatch, over every run: the chunks a caller was answered with are a prefix of
    the bytes the body brought, in order; a caller is told of the end only after them, as an
    error exactly when the run broke; a clean end comes with all of the body.
   */
  lemma {:induction false} CallersGetTheBody(
    framing: Framing, chunkSize: nat, early: seq<Byte>, metered: bool, admitted: bool, turns: seq<Turn>)
    requires Dispatch(framing, chunkSize, early, metered, admitted).Serving?
    ensures var start := DispatchBegins(Dispatch(framing, chunkSize, early, metered, admitted), early);
            && Kept(start, CapOf(framing)) && (start.run.s.chunked <==> framing.Chunks?)
            && var s := RunTurns(start, turns, CapOf(framing));
               var got := ChunksOf(s.answers);
               && got == s.run.served && Concat(got) <= Brought(framing, s.run.pulls)
               && (Eof in s.answers || ReadError in s.answers <==> !s.run.ending.Open?)
               && (ReadError in s.answers <==> s.run.ending.Broken?)
               && (s.run.ending.WholeBody? ==>
                     Concat(got) == Brought(framing, s.run.pulls) && StandingOf(framing, s.run.pulls).Whole?)
  {
    hide Dispatch;
    DispatchIsOf(framing, chunkSize, early, metered, admitted);
    var start := DispatchBegins(Dispatch(framing, chunkSize, early, metered, admitted), early);
    RunStaysOf(framing, Max(chunkSize, 1), start, turns);
    hide RunTurns;
    var s := RunTurns(start, turns, CapOf(framing));
    AnswersAreServed(s.run, s.answers);
    EndsAreAnswered(s.run, s.answers);
    hide AnswersKept, FeedAll, FeedParts, ChunksOf, Waiting;
    RunBrings(framing, Max(chunkSize, 1), s.run);
  }

  lemma {:induction false} EndsAreAnswered(r: Run, answers: seq<ChunkReply>)
    requires AnswersKept(r, answers)
    ensures Eof in answers || ReadError in answers <==> !r.ending.Open?
    ensures ReadError in answers <==> r.ending.Broken?
  {
    if !r.ending.Open? {
      assert answers[|r.served|] in answers;
    }
  }

  lemma {:induction false} RunBrings(framing: Framing, chunkSize: nat, r: Run)
    requires Inv(r, CapOf(framing)) && Of(framing, chunkSize, r.s)
    ensures Concat(r.served) <= Brought(framing, r.pulls)
    ensures r.ending.WholeBody? ==>
              Concat(r.served) == Brought(framing, r.pulls) && StandingOf(framing, r.pulls).Whole?
  {
    hide FeedAll, FeedParts, Concat, Waiting;
    assert Concat(r.served) + r.s.buffer == Brought(framing, r.pulls);
    assert |Concat(r.served) + r.s.buffer| == |Concat(r.served)| + |r.s.buffer|;
    assert r.s.buffer == [] ==> Concat(r.served) + r.s.buffer == Concat(r.served);
  }
}
