/**
  What the chunked decoder makes of every wire: the well-formed chunks at its front, and the
  tail behind them that is unfinished, malformed, over the cap, or the end of the body.
 */
module ChunkedVerdicts {
  import opened Bytes
  import opened ChunkedSpec
  import opened ChunkedPartition
  import opened ChunkedEncoding
  import opened ChunkedGrammar
  import opened ChunkSizeLine

  /** What can stand behind the last whole chunk. */
  datatype Tail =
    | OpenLine(text: seq<Byte>)
    | BadLine(line: seq<Byte>, after: seq<Byte>)
    | OverCap(line: seq<Byte>, size: nat, after: seq<Byte>)
    | OpenData(line: seq<Byte>, size: nat, part: seq<Byte>)
    | BadEnd(line: seq<Byte>, data: seq<Byte>, after: seq<Byte>)
    | OpenEnd(line: seq<Byte>, part: seq<Byte>)
    | BadTrailer(line: seq<Byte>, after: seq<Byte>)
    | Ended(line: seq<Byte>, after: seq<Byte>)

  predicate NoCrlf(s: seq<Byte>) {
    forall j :: 0 <= j < |s| ==> !CrlfAt(s, j)
  }

  ghost predicate AnnouncesNothing(line: seq<Byte>) {
    forall n: nat :: !Announces(line, n)
  }

  /** The tail is of its kind, with `room` bytes left under the cap. */
  ghost predicate IsTail(t: Tail, room: int) {
    match t
    case OpenLine(text) => NoCrlf(text)
    case BadLine(line, _) => NoCrlf(line) && AnnouncesNothing(line)
    case OverCap(line, n, _) => Announces(line, n) && n > 0 && n > room
    case OpenData(line, n, part) => Announces(line, n) && 0 < n <= room && |part| < n + 2
    case BadEnd(line, data, after) =>
      Announces(line, |data|) && 0 < |data| <= room && 2 <= |after| && !(CRLF <= after)
    case OpenEnd(line, part) => Announces(line, 0) && (part == [] || part == [CR])
    case BadTrailer(line, after) => Announces(line, 0) && after != [] && after != [CR] && !(CRLF <= after)
    case Ended(line, _) => Announces(line, 0)
  }

  function TailWire(t: Tail): seq<Byte> {
    match t
    case OpenLine(text) => text
    case BadLine(line, after) => line + CRLF + after
    case OverCap(line, _, after) => line + CRLF + after
    case OpenData(line, _, part) => line + CRLF + part
    case BadEnd(line, data, after) => line + CRLF + (data + after)
    case OpenEnd(line, part) => line + CRLF + part
    case BadTrailer(line, after) => line + CRLF + after
    case Ended(line, after) => line + CRLF + (CRLF + after)
  }

  /** The verdict on a wire that ends like this. */
  function TailResult(t: Tail): Result {
    match t
    case OpenLine(text) => if |text| >= 64 then Failed(BadChunkSize) else NeedMore
    case BadLine(_, _) => Failed(BadChunkSize)
    case OverCap(_, _, _) => Failed(BodyTooLarge)
    case OpenData(_, _, _) => NeedMore
    case BadEnd(_, _, _) => Failed(MissingCrlf)
    case OpenEnd(_, _) => NeedMore
    case BadTrailer(_, _) => Failed(TrailersNotSupported)
    case Ended(_, _) => Complete
  }

  /** The data of an unfinished chunk that is handed out all the same. */
  function TailData(t: Tail): seq<Byte> {
    match t
    case OpenData(_, n, part) => part[..Min(n, |part|)]
    case BadEnd(_, data, _) => data
    case _ => []
  }

  // --- What the decoder does with a tail --------------------------------------------------

  lemma {:induction false} OpenLineDecides(d: Decoder, text: seq<Byte>)
    requires Between(d) && NoCrlf(text)
    ensures FeedAll(d, text).out == [] && FeedAll(d, text).result == TailResult(OpenLine(text))
  {
    hide Parse;
    assert FirstCrlf(text) == |text|;
    assert [] + text == text;
  }

  lemma {:induction false} BadLineDecides(d: Decoder, line: seq<Byte>, after: seq<Byte>)
    requires Between(d) && NoCrlf(line) && AnnouncesNothing(line)
    ensures FeedAll(d, line + CRLF + after).out == []
    ensures FeedAll(d, line + CRLF + after).result == Failed(BadChunkSize)
  {
    hide Parse, Announces;
    LineEnds(line, after);
    assert [] + (line + CRLF + after)[..|line|] == line;
    if Parse(line).Some? {
      AnnouncesIsParse(line, Parse(line).value);
    }
  }

  lemma {:induction false} OverCapDecides(d: Decoder, line: seq<Byte>, n: nat, after: seq<Byte>)
    requires Between(d) && Announces(line, n) && n > 0 && d.decodedTotal + n > d.maxBody
    ensures FeedAll(d, line + CRLF + after).out == []
    ensures FeedAll(d, line + CRLF + after).result == Failed(BodyTooLarge)
  {
    AnnouncesIsParse(line, n);
    hide Parse, Announces;
    LineEnds(line, after);
    assert [] + (line + CRLF + after)[..|line|] == line;
  }

  /** From inside a chunk: its data so far, and whether what follows is its CRLF. */
  lemma {:induction false} DataDecides(d: Decoder, part: seq<Byte>)
    requires d.Valid() && d.phase.Data?
    ensures var n := d.phase.remaining;
            && (|part| < n + 2 ==> FeedAll(d, part).result.NeedMore? && FeedAll(d, part).out == part[..Min(n, |part|)])
            && (|part| >= n + 2 && !(CRLF <= part[n..]) ==>
                  FeedAll(d, part).result == Failed(MissingCrlf) && FeedAll(d, part).out == part[..n])
  {
    hide FeedSize;
    var n := d.phase.remaining;
    if part != [] {
      var t := NextTurn(d, part);
      var rest := part[t.consumed..];
      assert |part| >= n ==> rest == part[n..] && t.dec.phase.DataCrlf?;
      assert |part| < n ==> rest == [];
      var u := NextTurn(t.dec, rest);
      assert |part| < n + 2 ==> u == Halt(t.dec, NeedMore, 0);
      assert |part| >= n + 2 && !(CRLF <= rest) ==> !CrlfAt(rest, 0);
      assert part[..t.consumed] + [] == part[..t.consumed];
    }
  }

  lemma {:induction false} TrailerDecides(d: Decoder, rest: seq<Byte>)
    requires d.Valid() && d.phase.Trailers? && !d.trailerCr
    ensures FeedAll(d, rest).out == []
    ensures FeedAll(d, rest).result
         == if rest == [] || rest == [CR] then NeedMore
            else if CRLF <= rest then Complete
            else Failed(TrailersNotSupported)
  {
    assert CRLF <= rest <==> CrlfAt(rest, 0);
  }

  lemma {:induction false} AfterLine(d: Decoder, line: seq<Byte>, n: nat, rest: seq<Byte>)
    requires Between(d) && Announces(line, n) && d.decodedTotal + n <= d.maxBody
    ensures var e := d.(phase := if n == 0 then Trailers else Data(n));
            && FeedAll(d, line + CRLF + rest).out == FeedAll(e, rest).out
            && FeedAll(d, line + CRLF + rest).result == FeedAll(e, rest).result
  {
    hide FeedAll, Announces, Robust;
    LineDecodes(d, line, n, rest);
  }

  lemma {:induction false} TailDecides(d: Decoder, t: Tail)
    requires Between(d) && IsTail(t, d.maxBody - d.decodedTotal)
    ensures FeedAll(d, TailWire(t)).result == TailResult(t) && FeedAll(d, TailWire(t)).out == TailData(t)
  {
    hide FeedAll, Announces;
    match t
    case OpenLine(text) => OpenLineDecides(d, text);
    case BadLine(line, after) => BadLineDecides(d, line, after);
    case OverCap(line, n, after) => OverCapDecides(d, line, n, after);
    case OpenData(line, n, part) =>
      AfterLine(d, line, n, part);
      DataDecides(d.(phase := Data(n)), part);
    case BadEnd(line, data, after) =>
      AfterLine(d, line, |data|, data + after);
      DataDecides(d.(phase := Data(|data|)), data + after);
      assert (data + after)[|data|..] == after && (data + after)[..|data|] == data;
    case OpenEnd(line, part) =>
      AfterLine(d, line, 0, part);
      TrailerDecides(d.(phase := Trailers), part);
    case BadTrailer(line, after) =>
      AfterLine(d, line, 0, after);
      TrailerDecides(d.(phase := Trailers), after);
    case Ended(line, after) =>
      AfterLine(d, line, 0, CRLF + after);
      TrailerDecides(d.(phase := Trailers), CRLF + after);
  }

  /** Whole chunks within the cap, then a tail. */
  ghost predicate Reads(room: int, frames: seq<Frame>, t: Tail) {
    WellFormed(frames) && |Payload(frames)| <= room && IsTail(t, room - |Payload(frames)|)
  }

  lemma {:induction false} ReadsFirst(room: int, frames: seq<Frame>, t: Tail)
    requires frames != []
    ensures var rest := frames[1..];
            && Wire(frames) + TailWire(t)
               == frames[0].line + CRLF + (frames[0].data + (CRLF + (Wire(rest) + TailWire(t))))
            && Payload(frames) == frames[0].data + Payload(rest)
            && (Reads(room, frames, t) <==>
                  && frames[0].data != [] && Announces(frames[0].line, |frames[0].data|)
                  && |frames[0].data| <= room && Reads(room - |frames[0].data|, rest, t))
  {
    hide Announces, IsTail, TailWire;
    var line, data, wire := frames[0].line, frames[0].data, Wire(frames[1..]);
    assert line + CRLF + (data + (CRLF + wire)) + TailWire(t) == line + CRLF + (data + (CRLF + (wire + TailWire(t))));
    assert frames == [frames[0]] + frames[1..];
  }

  lemma {:induction false} TailAlone(d: Decoder, t: Tail)
    requires Between(d) && Reads(d.maxBody - d.decodedTotal, [], t)
    ensures var r := FeedAll(d, Wire([]) + TailWire(t)); r.result == TailResult(t) && r.out == Payload([]) + TailData(t)
  {
    hide FeedAll, IsTail, TailWire, TailResult, TailData;
    assert Wire([]) + TailWire(t) == TailWire(t) && Payload([]) + TailData(t) == TailData(t);
    TailDecides(d, t);
  }

  /** A whole chunk in front adds its data to what the rest of the wire gives. */
  lemma {:induction false} ChunkInFront(d: Decoder, line: seq<Byte>, data: seq<Byte>, later: seq<Byte>)
    requires Between(d) && data != [] && Announces(line, |data|) && d.decodedTotal + |data| <= d.maxBody
    ensures var e := d.(decodedTotal := d.decodedTotal + |data|);
            var r := FeedAll(d, line + CRLF + (data + (CRLF + later)));
            Between(e) && r.result == FeedAll(e, later).result && r.out == data + FeedAll(e, later).out
  {
    hide FeedAll, Announces, Robust, Plain;
    ChunkDecodes(d, line, data, later);
  }

  lemma {:induction false} ReadsDecides(d: Decoder, frames: seq<Frame>, t: Tail)
    requires Between(d) && Reads(d.maxBody - d.decodedTotal, frames, t)
    ensures var r := FeedAll(d, Wire(frames) + TailWire(t));
            r.result == TailResult(t) && r.out == Payload(frames) + TailData(t)
    decreases |frames|
  {
    hide FeedAll, Announces, Reads, Wire, Payload, TailWire, TailResult, TailData;
    if frames == [] {
      TailAlone(d, t);
    } else {
      var data, rest := frames[0].data, frames[1..];
      ReadsFirst(d.maxBody - d.decodedTotal, frames, t);
      ChunkInFront(d, frames[0].line, data, Wire(rest) + TailWire(t));
      ReadsDecides(d.(decodedTotal := d.decodedTotal + |data|), rest, t);
      assert data + (Payload(rest) + TailData(t)) == data + Payload(rest) + TailData(t);
    }
  }

  // --- Every wire is read in one way ------------------------------------------------------

  lemma {:induction false} LineOrNothing(line: seq<Byte>) returns (n: Option<nat>)
    ensures if n.Some? then Announces(line, n.value) else AnnouncesNothing(line)
  {
    hide Announces;
    if m: nat :| Announces(line, m) {
      n := Some(m);
    } else {
      n := None;
    }
  }

  /** The kind of the tail behind a size line. */
  function Behind(line: seq<Byte>, n: nat, rest: seq<Byte>, room: int): Tail {
    if n == 0 then
      if rest == [] || rest == [CR] then OpenEnd(line, rest)
      else if CRLF <= rest then Ended(line, rest[2..])
      else BadTrailer(line, rest)
    else if n > room then OverCap(line, n, rest)
    else if |rest| < n + 2 then OpenData(line, n, rest)
    else BadEnd(line, rest[..n], rest[n..])
  }

  lemma {:induction false} BehindIsTail(line: seq<Byte>, n: nat, rest: seq<Byte>, room: int)
    requires Announces(line, n) && !(0 < n <= room && n + 2 <= |rest| && CRLF <= rest[n..])
    ensures IsTail(Behind(line, n, rest, room), room) && TailWire(Behind(line, n, rest, room)) == line + CRLF + rest
  {
    hide Announces;
    assert |rest| >= n ==> rest == rest[..n] + rest[n..];
    assert CRLF <= rest ==> rest == CRLF + rest[2..];
  }

  lemma {:induction false} EveryWireIsRead(w: seq<Byte>, room: int) returns (frames: seq<Frame>, t: Tail)
    requires room >= 0
    ensures Reads(room, frames, t) && Wire(frames) + TailWire(t) == w
    decreases |w|
  {
    hide Announces, FirstCrlf, IsTail, TailWire;
    var i := FirstCrlf(w);
    if i == |w| {
      frames, t := [], OpenLine(w);
      OpenLineIs(w);
      ReadsNone(room, t);
    } else {
      var line, rest := w[..i], w[i + 2..];
      assert w == line + CRLF + rest;
      LineHasNone(w, i);
      var n := LineOrNothing(line);
      if n.None? {
        frames, t := [], BadLine(line, rest);
        BadLineIs(line, rest, room);
        ReadsNone(room, t);
      } else if 0 < n.value <= room && n.value + 2 <= |rest| && CRLF <= rest[n.value..] {
        var data, later := rest[..n.value], rest[n.value + 2..];
        assert rest == data + (CRLF + later);
        var more;
        more, t := EveryWireIsRead(later, room - n.value);
        frames := [Frame(line, data)] + more;
        assert frames[1..] == more;
        ReadsFirst(room, frames, t);
      } else {
        frames, t := [], Behind(line, n.value, rest, room);
        BehindIsTail(line, n.value, rest, room);
        ReadsNone(room, t);
      }
    }
  }

  lemma {:induction false} ReadsNone(room: int, t: Tail)
    requires room >= 0 && IsTail(t, room)
    ensures Reads(room, [], t) && Wire([]) + TailWire(t) == TailWire(t)
  {
    hide IsTail, TailWire;
  }

  lemma {:induction false} OpenLineIs(w: seq<Byte>)
    requires FirstCrlf(w) == |w|
    ensures forall room: int :: IsTail(OpenLine(w), room)
    ensures TailWire(OpenLine(w)) == w
  {
    hide FirstCrlf;
  }

  lemma {:induction false} BadLineIs(line: seq<Byte>, rest: seq<Byte>, room: int)
    requires NoCrlf(line) && AnnouncesNothing(line)
    ensures IsTail(BadLine(line, rest), room) && TailWire(BadLine(line, rest)) == line + CRLF + rest
  {
  }

  lemma {:induction false} LineHasNone(w: seq<Byte>, i: nat)
    requires FirstCrlf(w) == i < |w|
    ensures NoCrlf(w[..i])
  {
    hide FirstCrlf;
    assert forall j :: 0 <= j < i && CrlfAt(w[..i], j) ==> CrlfAt(w, j);
  }

  // --- Theorem ----------------------------------------------------------------------------

  /**
    Every wire is whole chunks within the cap and a tail, and whichever way it is read so, the
    decoder's verdict is that of the tail, and it has handed out exactly the chunks' data and
    what the tail has of an unfinished one.
   */
  lemma {:induction false} VerdictIsExact(maxBody: nat, w: seq<Byte>)
    requires maxBody <= USIZE_MAX
    ensures exists frames, t :: Reads(maxBody, frames, t) && Wire(frames) + TailWire(t) == w
    ensures forall frames, t :: Reads(maxBody, frames, t) && Wire(frames) + TailWire(t) == w ==>
              && FeedAll(New(maxBody), w).result == TailResult(t)
              && FeedAll(New(maxBody), w).out == Payload(frames) + TailData(t)
  {
    hide FeedAll, Reads, Wire, TailWire, TailResult, TailData, Payload;
    var frames, t := EveryWireIsRead(w, maxBody);
    forall frames, t | Reads(maxBody, frames, t) && Wire(frames) + TailWire(t) == w
      ensures && FeedAll(New(maxBody), w).result == TailResult(t)
              && FeedAll(New(maxBody), w).out == Payload(frames) + TailData(t)
    {
      ReadsDecides(New(maxBody), frames, t);
    }
  }
}
