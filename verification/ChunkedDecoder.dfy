/** The decoder object: a fixed size-line buffer and flags updated in place by `feed`. */
module ChunkedDecoder {
  import opened Bytes
  import opened ChunkedSpec
  import ChunkSizeLine

  class ChunkedDecoder {
    const maxBodyBytes: nat
    var decodedTotal: nat
    var phase: Phase
    const sizeBuf: array<Byte>
    var sizeLen: nat
    var trailerPartial: Byte
    var hasTrailerPartial: bool

    ghost predicate Valid()
      reads this, sizeBuf
    {
      && sizeBuf.Length == MAX_SIZE_LINE_LEN
      && sizeLen < MAX_SIZE_LINE_LEN
      && (hasTrailerPartial ==> trailerPartial == CR)
      && State().Valid()
    }

    ghost function State(): Decoder
      requires sizeBuf.Length == MAX_SIZE_LINE_LEN && sizeLen < MAX_SIZE_LINE_LEN
      reads this, sizeBuf
    {
      Decoder(maxBodyBytes, decodedTotal, phase, sizeBuf[..sizeLen], hasTrailerPartial)
    }

    constructor (maxBodyBytes: nat)
      requires maxBodyBytes <= USIZE_MAX
      ensures Valid() && fresh(sizeBuf)
      ensures State() == New(maxBodyBytes)
    {
      this.maxBodyBytes := maxBodyBytes;
      decodedTotal, phase := 0, Size;
      sizeBuf := new Byte[MAX_SIZE_LINE_LEN](_ => 0);
      sizeLen, trailerPartial, hasTrailerPartial := 0, 0, false;
    }

    predicate IsComplete()
      reads this
    {
      phase.Done?
    }

    /** Appends `bytes` to the saved size line. */
    method SaveSizeBytes(bytes: seq<Byte>)
      requires Valid() && phase.Size?
      requires sizeLen + |bytes| < MAX_SIZE_LINE_LEN
      modifies this`sizeLen, sizeBuf
      ensures Valid()
      ensures State() == old(State()).(sizeLine := old(State()).sizeLine + bytes)
    {
      var k := 0;
      while k < |bytes|
        invariant 0 <= k <= |bytes| && sizeLen == old(sizeLen)
        invariant sizeBuf[..sizeLen + k] == old(sizeBuf[..sizeLen]) + bytes[..k]
      {
        sizeBuf[sizeLen + k] := bytes[k];
        assert sizeBuf[..sizeLen + k + 1] == sizeBuf[..sizeLen + k] + [bytes[k]];
        assert bytes[..k + 1] == bytes[..k] + [bytes[k]];
        k := k + 1;
      }
      assert bytes[..k] == bytes;
      sizeLen := sizeLen + |bytes|;
    }

    /** Clears the saved line and classifies a whole one. */
    method FinishSizeLine(line: seq<Byte>, consumed: nat) returns (r: SizeResult)
      requires Valid() && phase.Size?
      modifies this`sizeLen
      ensures Valid()
      ensures State() == old(State()).(sizeLine := [])
      ensures r == SizeOf(line, consumed)
    {
      sizeLen := 0;
      assert sizeBuf[..0] == [];
      match ChunkSizeLine.Parse(line)
      case Some(size) => r := SizeComplete(size, consumed);
      case None => r := SizeError(BadChunkSize, consumed);
    }

    method ScanForCrlf(input: seq<Byte>) returns (i: nat)
      ensures i == FirstCrlf(input)
    {
      i := 0;
      while i + 1 < |input|
        invariant i <= |input| && FirstCrlf(input) == i + FirstCrlf(input[i..])
      {
        if input[i] == CR && input[i + 1] == LF {
          return;
        }
        assert input[i..][1..] == input[i + 1..];
        i := i + 1;
      }
      i := |input|;
    }

    method FeedSize(input: seq<Byte>) returns (r: SizeResult)
      requires Valid() && phase.Size?
      modifies this`sizeLen, sizeBuf
      ensures Valid()
      ensures r == ChunkedSpec.FeedSize(old(State()).sizeLine, input)
      ensures State() == old(State()).(sizeLine := if r.SizeNeedMore? then r.saved else [])
    {
      ghost var saved := State().sizeLine;
      if sizeLen > 0 && sizeBuf[sizeLen - 1] == CR {
        if input == [] {
          r := SizeNeedMore(sizeBuf[..sizeLen], 0);
        } else if input[0] == LF {
          assert saved[..sizeLen - 1] == sizeBuf[..sizeLen - 1];
          r := FinishSizeLine(sizeBuf[..sizeLen - 1], 1);
        } else {
          sizeLen := 0;
          r := SizeError(MissingCrlf, 0);
        }
        return;
      }
      var i := ScanForCrlf(input);
      if i < |input| {
        if sizeLen + i >= sizeBuf.Length {
          sizeLen := 0;
          r := SizeError(BadChunkSize, i + 2);
        } else if sizeLen == 0 {
          assert saved + input[..i] == input[..i];
          r := FinishSizeLine(input[..i], i + 2);
        } else {
          SaveSizeBytes(input[..i]);
          r := FinishSizeLine(sizeBuf[..sizeLen], i + 2);
        }
      } else if |input| >= sizeBuf.Length - sizeLen {
        sizeLen := 0;
        r := SizeError(BadChunkSize, |input|);
      } else {
        SaveSizeBytes(input);
        r := SizeNeedMore(sizeBuf[..sizeLen], |input|);
      }
    }

    /** One turn of the loop in the final line: the CRLF that ends the body. */
    method FeedTrailers(input: seq<Byte>) returns (result: Result, consumed: nat)
      requires Valid() && phase.Trailers? && input != []
      modifies this`phase, this`trailerPartial, this`hasTrailerPartial
      ensures Valid()
      ensures Halt(State(), result, consumed) == TrailersTurn(old(State()), input)
    {
      if hasTrailerPartial && trailerPartial == CR {
        hasTrailerPartial := false;
        if input[0] == LF {
          phase := Done;
          return Complete, 1;
        }
        return Failed(TrailersNotSupported), 0;
      }
      if |input| < 2 {
        if input[0] != CR {
          return Failed(TrailersNotSupported), 0;
        }
        trailerPartial, hasTrailerPartial := CR, true;
        return NeedMore, 1;
      }
      if input[..2] == CRLF {
        phase := Done;
        return Complete, 2;
      }
      return Failed(TrailersNotSupported), 0;
    }

    /** One turn of the loop; `None` goes round again with the rest of the input. */
    method RunTurn(input: seq<Byte>) returns (stop: Option<Progress>, n: nat)
      requires Valid()
      modifies this, sizeBuf
      ensures Valid() && n <= |input|
      ensures NextTurn(old(State()), input) == match stop
                                            case None => Continue(State(), n)
                                            case Some(ProgressChunk(_)) => Emit(State(), n)
                                            case Some(ProgressEnd(result)) => Halt(State(), result, n)
      ensures stop.Some? && stop.value.ProgressChunk? ==> stop.value.data == input[..n]
    {
      if input == [] && !phase.Done? {
        return Some(ProgressEnd(NeedMore)), 0;
      }
      match phase
      case Size =>
        var r := FeedSize(input);
        n := r.consumed;
        match r {
          case SizeComplete(size, _) =>
            if size == 0 {
              phase := Trailers;
              return None, n;
            }
            if decodedTotal + size > USIZE_MAX || decodedTotal + size > maxBodyBytes {
              return Some(ProgressEnd(Failed(BodyTooLarge))), n;
            }
            phase := Data(size);
            return None, n;
          case SizeNeedMore(_, _) =>
            return Some(ProgressEnd(NeedMore)), n;
          case SizeError(error, _) =>
            return Some(ProgressEnd(Failed(error))), n;
        }
      case Data(remaining) =>
        var take := Min(remaining, |input|);
        decodedTotal := decodedTotal + take;
        phase := if take == remaining then DataCrlf else Data(remaining - take);
        return Some(ProgressChunk(input[..take])), take;
      case DataCrlf =>
        if |input| < 2 {
          return Some(ProgressEnd(NeedMore)), 0;
        }
        if input[..2] != CRLF {
          return Some(ProgressEnd(Failed(MissingCrlf))), 0;
        }
        phase := Size;
        return None, 2;
      case Trailers =>
        var result, taken := FeedTrailers(input);
        return Some(ProgressEnd(result)), taken;
      case Done =>
        return Some(ProgressEnd(Complete)), 0;
    }

    method Feed(input: seq<Byte>) returns (progress: Progress, consumed: nat)
      requires Valid()
      modifies this, sizeBuf
      ensures Valid()
      ensures (State(), progress, consumed) == ChunkedSpec.Feed(old(State()), input)
    {
      hide NextTurn;
      consumed := 0;
      while true
        invariant Valid() && consumed <= |input|
        invariant var r := ChunkedSpec.Feed(State(), input[consumed..]);
                  ChunkedSpec.Feed(old(State()), input) == (r.0, r.1, consumed + r.2)
        decreases |input| - consumed
      {
        var remaining := input[consumed..];
        var stop, n := RunTurn(remaining);
        assert input[consumed..][n..] == input[consumed + n..];
        consumed := consumed + n;
        if stop.Some? {
          return stop.value, consumed;
        }
      }
    }

    method FeedAll(input: seq<Byte>, accumulator: seq<Byte>)
      returns (result: Result, totalConsumed: nat, grown: seq<Byte>)
      requires Valid()
      modifies this, sizeBuf
      ensures Valid()
      ensures var spec := ChunkedSpec.FeedAll(old(State()), input);
              && grown == accumulator + spec.out
              && Outcome(State(), spec.out, result, totalConsumed) == spec
    {
      hide NextTurn, ChunkedSpec.Feed, ChunkedSpec.FeedAll;
      totalConsumed, grown := 0, accumulator;
      ghost var out: seq<Byte> := [];
      ghost var spec := ChunkedSpec.FeedAll(State(), input);
      assert input[0..] == input;
      while true
        invariant Valid() && totalConsumed <= |input| && grown == accumulator + out
        invariant spec == After(out, totalConsumed, ChunkedSpec.FeedAll(State(), input[totalConsumed..]))
        decreases |input| - totalConsumed
      {
        ghost var rest := input[totalConsumed..];
        FeedAllIsRepeatedFeed(State(), rest);
        var progress, consumed := Feed(input[totalConsumed..]);
        assert rest[consumed..] == input[totalConsumed + consumed..];
        match progress
        case ProgressChunk(data) =>
          AfterAfter(out, totalConsumed, data, consumed, ChunkedSpec.FeedAll(State(), rest[consumed..]));
          grown, totalConsumed := grown + data, totalConsumed + consumed;
          out := out + data;
        case ProgressEnd(r) =>
          return r, totalConsumed + consumed, grown;
      }
    }
  }
}
