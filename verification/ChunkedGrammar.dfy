/** The language the chunked decoder accepts, and which of its bodies survive every cut. */
module ChunkedGrammar {
  import opened Bytes
  import opened ChunkedSpec
  import opened ChunkedPartition
  import opened ChunkedEncoding
  import opened ChunkSizeLine

  /** A chunk as it stands on the wire: its size line, extensions included, and its data. */
  datatype Frame = Frame(line: seq<Byte>, data: seq<Byte>)

  /** A size line that announces `n`: at most 63 bytes, with no CRLF of its own. */
  ghost predicate Announces(line: seq<Byte>, n: nat) {
    && |line| <= 63 && n <= USIZE_MAX
    && (forall j :: 0 <= j < |line| ==> !CrlfAt(line, j))
    && exists digits, blanks, ext :: SizeLine(line, digits, blanks, ext) && HexValue(digits) == n
  }

  /** The decoder's parser and limit agree with the grammar. */
  lemma {:induction false} AnnouncesIsParse(line: seq<Byte>, n: nat)
    ensures Announces(line, n)
       <==> |line| < MAX_SIZE_LINE_LEN && (forall j :: 0 <= j < |line| ==> !CrlfAt(line, j)) && Parse(line) == Some(n)
  {
    hide Parse, HexValue;
    forall digits, blanks, ext | SizeLine(line, digits, blanks, ext)
      ensures Parse(line) == if HexValue(digits) <= USIZE_MAX then Some(HexValue(digits)) else None
    {
      ParseAccepts(line, digits, blanks, ext);
    }
    if Parse(line).Some? {
      var digits, blanks, ext := ParseIsSound(line);
    }
  }

  ghost predicate WellFormed(frames: seq<Frame>) {
    forall i :: 0 <= i < |frames| ==> frames[i].data != [] && Announces(frames[i].line, |frames[i].data|)
  }

  function Wire(frames: seq<Frame>): seq<Byte> {
    if frames == [] then []
    else frames[0].line + CRLF + (frames[0].data + (CRLF + Wire(frames[1..])))
  }

  function Payload(frames: seq<Frame>): seq<Byte> {
    if frames == [] then [] else frames[0].data + Payload(frames[1..])
  }

  /** A whole body: frames, a line that announces zero, and the empty trailer section. */
  function Body(frames: seq<Frame>, last: seq<Byte>): seq<Byte> {
    Wire(frames) + (last + CRLF + CRLF)
  }

  ghost predicate IsBody(maxBody: nat, frames: seq<Frame>, last: seq<Byte>) {
    WellFormed(frames) && Announces(last, 0) && |Payload(frames)| <= maxBody
  }

  // --- One size line ----------------------------------------------------------------------

  lemma {:induction false} LineEnds(line: seq<Byte>, after: seq<Byte>)
    requires forall j :: 0 <= j < |line| ==> !CrlfAt(line, j)
    ensures FirstCrlf(line + CRLF + after) == |line|
  {
    hide FirstCrlf;
    var w := line + CRLF + after;
    assert CrlfAt(w, |line|);
    forall j | 0 <= j < |line|
      ensures !CrlfAt(w, j)
    {
      assert w[j] == line[j];
      assert j + 1 < |line| ==> w[j + 1] == line[j + 1];
      assert j + 1 == |line| ==> w[j + 1] == CR;
      assert !CrlfAt(line, j);
    }
    FirstCrlfIs(w, |line|);
  }

  /** A size line no cut can spoil: short enough with its CR, and with no CR of its own. */
  predicate Plain(line: seq<Byte>) {
    |line| <= 62 && CR !in line
  }

  lemma {:induction false} PlainIsRobust(line: seq<Byte>, n: nat, after: seq<Byte>)
    requires Announces(line, n)
    ensures LineRobust([], line + CRLF + after) <==> Plain(line)
  {
    AnnouncesIsParse(line, n);
    hide FirstCrlf, Parse, Announces;
    LineEnds(line, after);
    var w := line + CRLF + after;
    assert [] + w[..|line|] == line;
    assert forall j :: 0 <= j < |line| ==> w[j] == line[j];
  }

  lemma {:induction false} LineTurn(d: Decoder, line: seq<Byte>, n: nat, after: seq<Byte>)
    requires Between(d) && Announces(line, n) && d.decodedTotal + n <= d.maxBody
    ensures NextTurn(d, line + CRLF + after) == Continue(d.(phase := if n == 0 then Trailers else Data(n)), |line| + 2)
  {
    AnnouncesIsParse(line, n);
    hide Parse, FirstCrlf, Announces;
    LineEnds(line, after);
    var w := line + CRLF + after;
    assert [] + w[..|line|] == line;
  }

  lemma {:induction false} LineDecodes(d: Decoder, line: seq<Byte>, n: nat, after: seq<Byte>)
    requires Between(d) && Announces(line, n) && d.decodedTotal + n <= d.maxBody
    ensures var e := d.(phase := if n == 0 then Trailers else Data(n));
            var w := line + CRLF + after;
            && FeedAll(d, w) == After([], |line| + 2, FeedAll(e, after))
            && (Robust(d, w) <==> Plain(line) && Robust(e, after))
  {
    hide NextTurn, LineRobust, Announces, Plain;
    LineTurn(d, line, n, after);
    PlainIsRobust(line, n, after);
    assert (line + CRLF + after)[|line| + 2..] == after;
  }

  /** A turn between two chunks that goes on has read a size line that announces something. */
  lemma {:induction false} TurnFound(d: Decoder, w: seq<Byte>)
    requires Between(d) && NextTurn(d, w).Continue?
    ensures var i := FirstCrlf(w);
            && i + 1 < |w| && i < MAX_SIZE_LINE_LEN && Parse(w[..i]).Some?
            && d.decodedTotal + Parse(w[..i]).value <= d.maxBody
  {
    hide Parse, FirstCrlf;
    var i := FirstCrlf(w);
    assert [] + w[..i] == w[..i];
  }

  /** Completing from between two chunks takes a turn that goes on. */
  lemma {:induction false} TurnContinues(d: Decoder, w: seq<Byte>)
    requires Between(d) && FeedAll(d, w).result.Complete?
    ensures NextTurn(d, w).Continue?
  {
    hide FeedSize;
  }

  lemma {:induction false} LineFound(d: Decoder, w: seq<Byte>)
    requires Between(d) && FeedAll(d, w).result.Complete?
    ensures var i := FirstCrlf(w);
            && i + 1 < |w| && w == w[..i] + CRLF + w[i + 2..] && Parse(w[..i]).Some?
            && Announces(w[..i], Parse(w[..i]).value)
            && d.decodedTotal + Parse(w[..i]).value <= d.maxBody
  {
    hide FeedAll, NextTurn, Parse, FirstCrlf, Announces;
    TurnContinues(d, w);
    TurnFound(d, w);
    var i := FirstCrlf(w);
    assert forall j :: 0 <= j < i && CrlfAt(w[..i], j) ==> CrlfAt(w, j);
    AnnouncesIsParse(w[..i], Parse(w[..i]).value);
  }

  // --- Data and trailers ------------------------------------------------------------------

  /** Completing from inside a chunk finds all of its data and the CRLF behind it. */
  lemma {:induction false} DataFound(d: Decoder, w: seq<Byte>)
    requires d.Valid() && d.phase.Data? && FeedAll(d, w).result.Complete?
    ensures var n := d.phase.remaining;
            n + 2 <= |w| && w == w[..n] + (CRLF + w[n + 2..])
  {
    hide FeedSize;
    var n := d.phase.remaining;
    var t := NextTurn(d, w);
    TurnShape(t.dec, w[t.consumed..]);
    assert t.Emit? && |w| >= n;
    var rest := w[n..];
    assert NextTurn(t.dec, rest).Continue?;
    assert CrlfAt(rest, 0);
  }

  // --- Both directions --------------------------------------------------------------------

  lemma {:induction false} ChunkDecodes(d: Decoder, line: seq<Byte>, data: seq<Byte>, later: seq<Byte>)
    requires Between(d) && data != [] && Announces(line, |data|) && d.decodedTotal + |data| <= d.maxBody
    ensures var e := d.(decodedTotal := d.decodedTotal + |data|);
            var w := line + CRLF + (data + (CRLF + later));
            && FeedAll(d, w) == After(data, |line| + |data| + 4, FeedAll(e, later))
            && (Robust(d, w) <==> Plain(line) && Robust(e, later))
  {
    hide FeedAll, Announces, Robust, Plain;
    var e := d.(decodedTotal := d.decodedTotal + |data|);
    LineDecodes(d, line, |data|, data + (CRLF + later));
    DecodeData(d.(phase := Data(|data|)), data, later);
    AfterAfter([], |line| + 2, data, |data| + 2, FeedAll(e, later));
    assert [] + data == data;
  }

  lemma {:induction false} BodyLayout(frames: seq<Frame>, last: seq<Byte>, after: seq<Byte>)
    requires frames != []
    ensures var rest := frames[1..];
            && Body(frames, last) + after
            == frames[0].line + CRLF + (frames[0].data + (CRLF + (Body(rest, last) + after)))
            && |Body(frames, last)| == |frames[0].line| + |frames[0].data| + 4 + |Body(rest, last)|
            && Payload(frames) == frames[0].data + Payload(rest)
  {
    var line, data, wire, end := frames[0].line, frames[0].data, Wire(frames[1..]), last + CRLF + CRLF;
    assert CRLF + (wire + end + after) == CRLF + wire + end + after;
  }

  /** Every well-formed body within the cap is accepted, wherever the wire goes on. */
  lemma {:induction false} BodyAccepted(d: Decoder, frames: seq<Frame>, last: seq<Byte>, after: seq<Byte>)
    requires Between(d) && IsBody(d.maxBody - d.decodedTotal, frames, last)
    ensures FeedAll(d, Body(frames, last) + after)
         == Outcome(d.(phase := Done, decodedTotal := d.decodedTotal + |Payload(frames)|),
                    Payload(frames), Complete, |Body(frames, last)|)
    decreases |frames|
  {
    hide FeedAll, Announces;
    if frames == [] {
      assert Body(frames, last) + after == last + CRLF + (CRLF + after);
      LineDecodes(d, last, 0, CRLF + after);
      TrailersFound(d.(phase := Trailers), CRLF + after);
    } else {
      var line, data, rest := frames[0].line, frames[0].data, frames[1..];
      assert IsBody(d.maxBody - d.decodedTotal - |data|, rest, last);
      hide Body, Payload;
      BodyLayout(frames, last, after);
      ChunkDecodes(d, line, data, Body(rest, last) + after);
      BodyAccepted(d.(decodedTotal := d.decodedTotal + |data|), rest, last, after);
    }
  }

  predicate PlainBody(frames: seq<Frame>, last: seq<Byte>) {
    (forall i :: 0 <= i < |frames| ==> Plain(frames[i].line)) && Plain(last)
  }

  /** A well-formed body is robust exactly when its size lines are plain. */
  lemma {:induction false} BodyRobust(d: Decoder, frames: seq<Frame>, last: seq<Byte>, after: seq<Byte>)
    requires Between(d) && IsBody(d.maxBody - d.decodedTotal, frames, last)
    ensures Robust(d, Body(frames, last) + after) <==> PlainBody(frames, last)
    decreases |frames|
  {
    hide FeedAll, Announces, Robust, Plain;
    if frames == [] {
      assert Body(frames, last) + after == last + CRLF + (CRLF + after);
      LineDecodes(d, last, 0, CRLF + after);
      TrailersFound(d.(phase := Trailers), CRLF + after);
    } else {
      var line, data, rest := frames[0].line, frames[0].data, frames[1..];
      assert IsBody(d.maxBody - d.decodedTotal - |data|, rest, last);
      assert PlainBody(frames, last) <==> Plain(line) && PlainBody(rest, last) by {
        assert frames == [frames[0]] + rest;
      }
      hide Body, Payload, PlainBody;
      BodyLayout(frames, last, after);
      ChunkDecodes(d, line, data, Body(rest, last) + after);
      BodyRobust(d.(decodedTotal := d.decodedTotal + |data|), rest, last, after);
    }
  }

  lemma {:induction false} OneMoreFrame(max: nat, line: seq<Byte>, data: seq<Byte>, more: seq<Frame>, last: seq<Byte>, later: seq<Byte>)
    requires data != [] && Announces(line, |data|) && |data| <= max && IsBody(max - |data|, more, last)
    requires Body(more, last) <= later
    ensures var frames := [Frame(line, data)] + more;
            IsBody(max, frames, last) && Body(frames, last) <= line + CRLF + (data + (CRLF + later))
  {
    hide Announces;
    var frames := [Frame(line, data)] + more;
    assert frames[1..] == more;
    var after := later[|Body(more, last)|..];
    assert later == Body(more, last) + after;
    hide Body, Payload;
    BodyLayout(frames, last, after);
  }

  lemma {:induction false} NoFrames(max: nat, last: seq<Byte>, rest: seq<Byte>)
    requires Announces(last, 0) && CRLF <= rest
    ensures IsBody(max, [], last) && Body([], last) <= last + CRLF + rest
  {
    assert rest == CRLF + rest[2..];
    assert last + CRLF + rest == last + CRLF + CRLF + rest[2..];
    assert Body([], last) == last + CRLF + CRLF;
  }

  /** Whatever is accepted is a well-formed body within the cap. */
  lemma {:induction false} AcceptedBody(d: Decoder, w: seq<Byte>) returns (frames: seq<Frame>, last: seq<Byte>)
    requires Between(d) && FeedAll(d, w).result.Complete?
    ensures IsBody(d.maxBody - d.decodedTotal, frames, last) && Body(frames, last) <= w
    decreases |w|
  {
    hide FeedAll, FirstCrlf, Parse, Announces, Robust, IsBody, Body;
    LineFound(d, w);
    var i := FirstCrlf(w);
    var line, rest := w[..i], w[i + 2..];
    var n := Parse(line).value;
    LineDecodes(d, line, n, rest);
    if n == 0 {
      TrailersFound(d.(phase := Trailers), rest);
      frames, last := [], line;
      NoFrames(d.maxBody - d.decodedTotal, line, rest);
    } else {
      DataFound(d.(phase := Data(n)), rest);
      var data, later := rest[..n], rest[n + 2..];
      ChunkDecodes(d, line, data, later);
      var more;
      more, last := AcceptedBody(d.(decodedTotal := d.decodedTotal + n), later);
      frames := [Frame(line, data)] + more;
      OneMoreFrame(d.maxBody - d.decodedTotal, line, data, more, last, later);
    }
  }

  /** The decoder completes exactly on the wires that begin with a well-formed body. */
  lemma {:induction false} AcceptsExactly(maxBody: nat, w: seq<Byte>)
    requires maxBody <= USIZE_MAX
    ensures FeedAll(New(maxBody), w).result.Complete?
       <==> exists frames, last :: IsBody(maxBody, frames, last) && Body(frames, last) <= w
    ensures forall frames, last :: IsBody(maxBody, frames, last) && Body(frames, last) <= w ==>
              && FeedAll(New(maxBody), w).out == Payload(frames)
              && FeedAll(New(maxBody), w).consumed == |Body(frames, last)|
  {
    hide FeedAll, Body, Payload, WellFormed, Announces;
    if FeedAll(New(maxBody), w).result.Complete? {
      var frames, last := AcceptedBody(New(maxBody), w);
    }
    forall frames, last | IsBody(maxBody, frames, last) && Body(frames, last) <= w
      ensures && FeedAll(New(maxBody), w).result.Complete?
              && FeedAll(New(maxBody), w).out == Payload(frames)
              && FeedAll(New(maxBody), w).consumed == |Body(frames, last)|
    {
      var after := w[|Body(frames, last)|..];
      assert w == Body(frames, last) + after;
      BodyAccepted(New(maxBody), frames, last, after);
    }
  }

  // --- Cuts -------------------------------------------------------------------------------

  /**
    For any well-formed body within the cap, whatever follows it: every cut into reads decodes
    alike if and only if each of its size lines is at most 62 bytes long and holds no CR.
   */
  lemma {:induction false} BodyInPartsExactly(maxBody: nat, frames: seq<Frame>, last: seq<Byte>, after: seq<Byte>)
    requires maxBody <= USIZE_MAX && IsBody(maxBody, frames, last)
    ensures PlainBody(frames, last)
       <==> forall parts: seq<seq<Byte>> :: Concat(parts) == Body(frames, last) + after ==>
              SameDecoding(FeedParts(New(maxBody), [], parts), FeedAll(New(maxBody), Body(frames, last) + after))
  {
    hide FeedAll, FeedParts, Robust, IsBody, Body, PlainBody, SameDecoding, Concat;
    BodyRobust(New(maxBody), frames, last, after);
    PartitionInvarianceExactly(maxBody, Body(frames, last) + after);
  }

  const ONE_BYTE: seq<Byte> := [65]
  const ZERO_LINE: seq<Byte> := [48]

  /** `1;` CR `x`: a bare CR inside the extension. */
  const BARE_CR: seq<Byte> := [49, SEMICOLON, CR, 120]

  /** `1;` and sixty-one more bytes: 63 in all. */
  const LONG_LINE: seq<Byte> := [49, SEMICOLON] + seq(61, _ => 120)

  lemma {:induction false} OneIsAnnounced(line: seq<Byte>)
    requires 2 <= |line| <= 63 && line[0] == 49 && line[1] == SEMICOLON && LF !in line
    ensures Announces(line, 1)
  {
    assert SizeLine(line, [49], [], line[1..]) by {
      assert line == [49] + [] + line[1..];
    }
    assert HexValue([49]) == 1 by {
      assert [49][..0] == [];
    }
  }

  lemma {:induction false} ZeroIsAnnounced()
    ensures Announces(ZERO_LINE, 0)
  {
    assert SizeLine(ZERO_LINE, ZERO_LINE, [], []) by {
      assert ZERO_LINE == ZERO_LINE + [] + [];
    }
    assert HexValue(ZERO_LINE) == 0 by {
      assert ZERO_LINE[..0] == [];
    }
  }

  /** The body of one chunk of one byte under the given size line. */
  function OneChunk(line: seq<Byte>): seq<Byte> {
    Body([Frame(line, ONE_BYTE)], ZERO_LINE)
  }

  lemma {:induction false} OneFrame(line: seq<Byte>)
    requires Announces(line, 1)
    ensures IsBody(10, [Frame(line, ONE_BYTE)], ZERO_LINE)
  {
    hide Announces;
    ZeroIsAnnounced();
    assert Payload([Frame(line, ONE_BYTE)]) == ONE_BYTE + Payload([]);
  }

  lemma {:induction false} OneChunkDecodes(line: seq<Byte>)
    requires Announces(line, 1)
    ensures FeedAll(New(10), OneChunk(line)).result.Complete? && FeedAll(New(10), OneChunk(line)).out == ONE_BYTE
    ensures Robust(New(10), OneChunk(line)) <==> Plain(line)
  {
    OneFrame(line);
    hide FeedAll, Robust, Announces, Body, IsBody, Plain;
    var frames := [Frame(line, ONE_BYTE)];
    assert OneChunk(line) + [] == OneChunk(line);
    BodyAccepted(New(10), frames, ZERO_LINE, []);
    BodyRobust(New(10), frames, ZERO_LINE, []);
    ZeroIsPlain();
    assert Payload(frames) == ONE_BYTE + Payload([]);
    assert PlainBody(frames, ZERO_LINE) <==> Plain(frames[0].line);
  }

  lemma {:induction false} ZeroIsPlain()
    ensures Plain(ZERO_LINE)
  {
  }

  lemma {:induction false} OneChunkLayout(line: seq<Byte>)
    requires Announces(line, 1)
    ensures line + CRLF <= OneChunk(line) && FirstCrlf(OneChunk(line)) == |line|
  {
    BodyLayout([Frame(line, ONE_BYTE)], ZERO_LINE, []);
    var after := ONE_BYTE + (CRLF + (Body([], ZERO_LINE) + []));
    assert OneChunk(line) + [] == OneChunk(line);
    hide Announces, FirstCrlf, Body;
    AnnouncesIsParse(line, 1);
    LineEnds(line, after);
  }

  /** Read at once this body decodes to its one byte; cut behind the bare CR it is refused. */
  lemma {:induction false} BareCrIsFragile()
    ensures var w := OneChunk(BARE_CR);
            && FeedAll(New(10), w).result.Complete? && FeedAll(New(10), w).out == ONE_BYTE
            && 3 <= |w| && FeedParts(New(10), [], [w[..3], w[3..]]).result == Failed(MissingCrlf)
            && !Robust(New(10), w)
  {
    OneIsAnnounced(BARE_CR);
    OneChunkDecodes(BARE_CR);
    OneChunkLayout(BARE_CR);
    hide FeedAll, FeedParts, OneChunk, FirstCrlf, Announces, Robust, SameDecoding;
    var w := OneChunk(BARE_CR);
    assert w[2] == (BARE_CR + CRLF)[2];
    CutAtBareCr(New(10), w, 2);
  }

  /** Read at once this body decodes to its one byte; cut between CR and LF it is refused. */
  lemma {:induction false} LongLineIsFragile()
    ensures var w := OneChunk(LONG_LINE);
            && FeedAll(New(10), w).result.Complete? && FeedAll(New(10), w).out == ONE_BYTE
            && 64 <= |w| && FeedParts(New(10), [], [w[..64], w[64..]]).result == Failed(BadChunkSize)
            && !Robust(New(10), w)
  {
    OneIsAnnounced(LONG_LINE);
    AnnouncesIsParse(LONG_LINE, 1);
    OneChunkDecodes(LONG_LINE);
    OneChunkLayout(LONG_LINE);
    hide FeedAll, FeedParts, OneChunk, FirstCrlf, Announces, Robust, SameDecoding, Parse;
    var w := OneChunk(LONG_LINE);
    assert [] + w[..63] == LONG_LINE;
    CutLongLine(New(10), w);
  }
}
