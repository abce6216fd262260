/** The framing the server writes, and that decoding it gives the data back. */
module ChunkedEncoding {
  import opened Bytes
  import opened ChunkedSpec
  import opened ChunkedPartition
  import opened ChunkSizeLine

  /** `write_chunked_data`: size in hex, CRLF, the data, CRLF. */
  function EncodeChunk(data: seq<Byte>): seq<Byte> {
    Hex(|data|) + CRLF + data + CRLF
  }

  /** `finish_stream_eof`: the zero chunk and the empty trailer section. */
  const TERMINATOR: seq<Byte> := [48, CR, LF, CR, LF]

  function EncodeChunks(chunks: seq<seq<Byte>>): seq<Byte> {
    if chunks == [] then [] else EncodeChunk(chunks[0]) + EncodeChunks(chunks[1..])
  }

  function EncodeBody(chunks: seq<seq<Byte>>): seq<Byte> {
    EncodeChunks(chunks) + TERMINATOR
  }

  /** The framing byte by byte. */
  lemma {:induction false} WireFormat(data: seq<Byte>)
    ensures EncodeChunk(data) == Hex(|data|) + [13, 10] + data + [13, 10]
    ensures EncodeBody([]) == [48, 13, 10, 13, 10]
  {
    assert [] + TERMINATOR == TERMINATOR;
  }

  predicate NonEmpty(chunks: seq<seq<Byte>>) {
    forall i :: 0 <= i < |chunks| ==> chunks[i] != []
  }

  lemma {:induction false} EncodeChunksSnoc(chunks: seq<seq<Byte>>, last: seq<Byte>)
    ensures EncodeChunks(chunks + [last]) == EncodeChunks(chunks) + EncodeChunk(last)
  {
    if chunks == [] {
      assert EncodeChunks([last]) == EncodeChunk(last) + EncodeChunks([]);
    } else {
      assert (chunks + [last])[1..] == chunks[1..] + [last];
      EncodeChunksSnoc(chunks[1..], last);
    }
  }

  // --- Decoding one chunk -----------------------------------------------------------------

  /** A printed size followed by CRLF is read back by the size phase in one turn. */
  lemma {:induction false} SizeLineTurn(d: Decoder, n: nat, after: seq<Byte>)
    requires d.Valid() && d.phase.Size? && d.sizeLine == [] && d.decodedTotal + n <= d.maxBody
    ensures NextTurn(d, Hex(n) + CRLF + after)
         == Continue(d.(phase := if n == 0 then Trailers else Data(n)), |Hex(n)| + 2)
    ensures LineRobust([], Hex(n) + CRLF + after)
  {
    hide Parse;
    var w := Hex(n) + CRLF + after;
    var i := |Hex(n)|;
    assert forall j :: 0 <= j < i ==> w[j] == Hex(n)[j] && w[j] in Hex(n);
    assert CrlfAt(w, i);
    FirstCrlfIs(w, i);
    WordHexLength(n);
    HexRoundTrip(n, []);
    assert [] + w[..i] == Hex(n) + [];
  }

  lemma {:induction false} DataTurn(d: Decoder, data: seq<Byte>, after: seq<Byte>)
    requires d.Valid() && d.phase == Data(|data|)
    ensures NextTurn(d, data + after)
         == Emit(d.(phase := DataCrlf, decodedTotal := d.decodedTotal + |data|), |data|)
  {
  }

  lemma {:induction false} DataCrlfTurn(d: Decoder, after: seq<Byte>)
    requires d.Valid() && d.phase.DataCrlf?
    ensures NextTurn(d, CRLF + after) == Continue(d.(phase := Size), 2)
  {
    assert CrlfAt(CRLF + after, 0);
  }

  /** A decoder between two chunks. */
  ghost predicate Between(d: Decoder) {
    d.Valid() && d.phase.Size? && d.sizeLine == []
  }

  lemma {:induction false} DecodeData(d: Decoder, data: seq<Byte>, after: seq<Byte>)
    requires d.Valid() && d.phase == Data(|data|)
    ensures var e := d.(phase := Size, decodedTotal := d.decodedTotal + |data|);
            var w := data + (CRLF + after);
            && FeedAll(d, w) == After(data, |data| + 2, FeedAll(e, after))
            && (Robust(d, w) <==> Robust(e, after))
  {
    hide NextTurn, LineRobust;
    var n := |data|;
    var w := data + (CRLF + after);
    DataTurn(d, data, CRLF + after);
    assert w[n..] == CRLF + after && w[..n] == data;
    var d1 := d.(phase := DataCrlf, decodedTotal := d.decodedTotal + n);
    DataCrlfTurn(d1, after);
    assert (CRLF + after)[2..] == after;
    var rest := FeedAll(d1.(phase := Size), after);
    assert FeedAll(d1, CRLF + after) == After([], 2, rest);
    AfterAfter(data, n, [], 2, rest);
    assert data + [] == data;
  }

  lemma {:induction false} DecodeChunk(d: Decoder, data: seq<Byte>, after: seq<Byte>)
    requires Between(d) && data != [] && d.decodedTotal + |data| <= d.maxBody
    ensures var e := d.(decodedTotal := d.decodedTotal + |data|);
            var w := EncodeChunk(data) + after;
            && FeedAll(d, w) == After(data, |EncodeChunk(data)|, FeedAll(e, after))
            && (Robust(d, w) <==> Robust(e, after))
  {
    hide FeedAll, Robust, Hex, EncodeChunk;
    var n, w1 := |data|, data + (CRLF + after);
    ChunkLayout(data, after);
    DecodeSizeLine(d, n, w1);
    DecodeData(d.(phase := Data(n)), data, after);
    AfterAfter([], |Hex(n)| + 2, data, n + 2, FeedAll(d.(decodedTotal := d.decodedTotal + n), after));
    assert [] + data == data;
  }

  lemma {:induction false} DecodeSizeLine(d: Decoder, n: nat, after: seq<Byte>)
    requires Between(d) && d.decodedTotal + n <= d.maxBody
    ensures var e := d.(phase := if n == 0 then Trailers else Data(n));
            var w := Hex(n) + CRLF + after;
            && FeedAll(d, w) == After([], |Hex(n)| + 2, FeedAll(e, after))
            && (Robust(d, w) <==> Robust(e, after))
  {
    hide NextTurn, LineRobust, Hex;
    SizeLineTurn(d, n, after);
    assert (Hex(n) + CRLF + after)[|Hex(n)| + 2..] == after;
  }

  lemma {:induction false} ChunkLayout(data: seq<Byte>, after: seq<Byte>)
    ensures var w := EncodeChunk(data) + after;
            var w1 := data + (CRLF + after);
            && w == Hex(|data|) + CRLF + w1
            && |EncodeChunk(data)| == |Hex(|data|)| + 2 + (|data| + 2)
  {
  }

  /** The trailer section is complete exactly when the wire goes on with CRLF. */
  lemma {:induction false} TrailersFound(d: Decoder, w: seq<Byte>)
    requires d.Valid() && d.phase.Trailers? && !d.trailerCr
    ensures FeedAll(d, w).result.Complete? <==> CRLF <= w
    ensures CRLF <= w ==> FeedAll(d, w) == Outcome(d.(phase := Done), [], Complete, 2)
    ensures Robust(d, w)
  {
  }

  lemma {:induction false} DecodeTerminator(d: Decoder, after: seq<Byte>)
    requires Between(d)
    ensures FeedAll(d, TERMINATOR + after) == Outcome(d.(phase := Done), [], Complete, 5)
    ensures Robust(d, TERMINATOR + after)
  {
    hide FeedAll, Robust;
    var w1 := CRLF + after;
    assert Hex(0) == [48];
    assert TERMINATOR + after == Hex(0) + CRLF + w1;
    DecodeSizeLine(d, 0, w1);
    TrailersFound(d.(phase := Trailers), w1);
  }

  // --- The round trip ---------------------------------------------------------------------

  lemma {:induction false} DecodeFrom(d: Decoder, chunks: seq<seq<Byte>>, after: seq<Byte>)
    requires Between(d) && NonEmpty(chunks) && d.decodedTotal + |Concat(chunks)| <= d.maxBody
    ensures var total := d.decodedTotal + |Concat(chunks)|;
            var w := EncodeBody(chunks) + after;
            && FeedAll(d, w)
            == Outcome(d.(phase := Done, decodedTotal := total), Concat(chunks), Complete, |EncodeBody(chunks)|)
            && Robust(d, w)
    decreases |chunks|
  {
    hide FeedAll, Robust;
    if chunks == [] {
      assert EncodeBody(chunks) + after == TERMINATOR + after;
      DecodeTerminator(d, after);
    } else {
      var data, rest := chunks[0], chunks[1..];
      var e := d.(decodedTotal := d.decodedTotal + |data|);
      assert NonEmpty(rest);
      DecodeFrom(e, rest, after);
      assert EncodeBody(chunks) + after == EncodeChunk(data) + (EncodeBody(rest) + after);
      DecodeChunk(d, data, EncodeBody(rest) + after);
    }
  }

  /**
    Any list of non-empty chunks within the cap, framed by the server, decodes to the
    concatenated data, ends at the encoded length whatever follows, and is robust.
   */
  lemma {:induction false} RoundTrip(maxBody: nat, chunks: seq<seq<Byte>>, after: seq<Byte>)
    requires NonEmpty(chunks) && |Concat(chunks)| <= maxBody <= USIZE_MAX
    ensures var r := FeedAll(New(maxBody), EncodeBody(chunks) + after);
            r.result == Complete && r.out == Concat(chunks) && r.consumed == |EncodeBody(chunks)|
    ensures Robust(New(maxBody), EncodeBody(chunks) + after)
  {
    DecodeFrom(New(maxBody), chunks, after);
  }

  /** The round trip survives every partition of the wire into reads. */
  lemma {:induction false} RoundTripInParts(maxBody: nat, chunks: seq<seq<Byte>>, parts: seq<seq<Byte>>)
    requires NonEmpty(chunks) && |Concat(chunks)| <= maxBody <= USIZE_MAX
    requires EncodeBody(chunks) <= Concat(parts)
    ensures var r := FeedParts(New(maxBody), [], parts);
            r.result == Complete && r.out == Concat(chunks) && r.consumed == |EncodeBody(chunks)|
  {
    var after := Concat(parts)[|EncodeBody(chunks)|..];
    assert Concat(parts) == EncodeBody(chunks) + after;
    assert [] + Concat(parts) == Concat(parts);
    RoundTrip(maxBody, chunks, after);
    PartsAgree(New(maxBody), [], parts);
  }
}
