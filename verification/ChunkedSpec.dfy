/**
  The chunked body decoder as functions of its state and one input slice:
  one turn of the decoding loop, `feed`, and `feed_all`.
 */
module ChunkedSpec {
  import opened Bytes
  import ChunkSizeLine

  const MAX_SIZE_LINE_LEN: nat := 64

  datatype ChunkedError = BadChunkSize | MissingCrlf | BodyTooLarge | TrailersNotSupported

  datatype Phase = Size | Data(remaining: nat) | DataCrlf | Trailers | Done

  /** `sizeLine` is the saved part of a size line, `trailerCr` the saved CR of the final line. */
  datatype Decoder = Decoder(
    maxBody: nat,
    decodedTotal: nat,
    phase: Phase,
    sizeLine: seq<Byte>,
    trailerCr: bool)
  {
    ghost predicate Valid() {
      && decodedTotal <= maxBody <= USIZE_MAX
      && |sizeLine| < MAX_SIZE_LINE_LEN
      && (sizeLine != [] ==> phase.Size?)
      && (trailerCr ==> phase.Trailers?)
      && (phase.Data? ==> 0 < phase.remaining && decodedTotal + phase.remaining <= maxBody)
    }
  }

  datatype Result = Complete | Failed(error: ChunkedError) | NeedMore

  function New(maxBody: nat): (d: Decoder) {
    Decoder(maxBody, 0, Size, [], false)
  }

  /** `preferred_read_size`: never more than the current chunk still owes, one byte elsewhere. */
  function PreferredReadSize(phase: Phase, max: nat): nat {
    match phase
    case Data(remaining) => Max(Min(remaining, max), 1)
    case _ => 1
  }

  // --- Finding a line end -----------------------------------------------------------------

  predicate CrlfAt(s: seq<Byte>, i: int) {
    0 <= i && i + 1 < |s| && s[i] == CR && s[i + 1] == LF
  }

  /** Index of the first CRLF, or `|s|` when there is none. */
  function FirstCrlf(s: seq<Byte>): (i: nat)
    ensures i == |s| || (i + 1 < |s| && CrlfAt(s, i))
    ensures forall j :: 0 <= j < i ==> !CrlfAt(s, j)
  {
    if |s| < 2 then |s|
    else if CrlfAt(s, 0) then 0
    else
      var k := FirstCrlf(s[1..]);
      assert forall j :: 0 < j && CrlfAt(s, j) ==> CrlfAt(s[1..], j - 1);
      1 + k
  }

  predicate EndsWithCr(s: seq<Byte>) {
    s != [] && s[|s| - 1] == CR
  }

  // --- The size line ----------------------------------------------------------------------

  datatype SizeResult =
    | SizeComplete(size: nat, consumed: nat)
    | SizeNeedMore(saved: seq<Byte>, consumed: nat)
    | SizeError(error: ChunkedError, consumed: nat)

  function SizeOf(line: seq<Byte>, consumed: nat): SizeResult {
    match ChunkSizeLine.Parse(line)
    case Some(size) => SizeComplete(size, consumed)
    case None => SizeError(BadChunkSize, consumed)
  }

  /** `feed_size`: only `SizeNeedMore` leaves a saved line behind. */
  function FeedSize(saved: seq<Byte>, input: seq<Byte>): (r: SizeResult)
    requires |saved| < MAX_SIZE_LINE_LEN
    ensures r.consumed <= |input|
    ensures r.SizeComplete? ==> 0 < r.consumed && r.size <= USIZE_MAX
    ensures r.SizeNeedMore? ==> |r.saved| < MAX_SIZE_LINE_LEN && r.saved == saved + input
    ensures r.SizeNeedMore? ==> r.consumed == |input|
  {
    if EndsWithCr(saved) then
      if input == [] then SizeNeedMore(saved, 0)
      else if input[0] == LF then SizeOf(saved[..|saved| - 1], 1)
      else SizeError(MissingCrlf, 0)
    else
      var i := FirstCrlf(input);
      if i < |input| then
        if |saved| + i >= MAX_SIZE_LINE_LEN then SizeError(BadChunkSize, i + 2)
        else SizeOf(saved + input[..i], i + 2)
      else if |input| >= MAX_SIZE_LINE_LEN - |saved| then SizeError(BadChunkSize, |input|)
      else SizeNeedMore(saved + input, |input|)
  }

  // --- One turn of the loop ---------------------------------------------------------------

  /** `Emit` hands out the `consumed` bytes it took as decoded data. */
  datatype DecodeTurn =
    | Continue(dec: Decoder, consumed: nat)
    | Emit(dec: Decoder, consumed: nat)
    | Halt(dec: Decoder, result: Result, consumed: nat)

  function SizeTurn(d: Decoder, input: seq<Byte>): (t: DecodeTurn)
    requires d.Valid() && d.phase.Size?
    ensures t.dec.Valid() && t.dec.maxBody == d.maxBody && t.consumed <= |input|
    ensures !t.Halt? ==> 0 < t.consumed
  {
    match FeedSize(d.sizeLine, input)
    case SizeComplete(size, n) =>
      var e := d.(sizeLine := []);
      if size == 0 then Continue(e.(phase := Trailers), n)
      else if d.decodedTotal + size > USIZE_MAX || d.decodedTotal + size > d.maxBody then
        Halt(e, Failed(BodyTooLarge), n)
      else Continue(e.(phase := Data(size)), n)
    case SizeNeedMore(saved, n) => Halt(d.(sizeLine := saved), NeedMore, n)
    case SizeError(error, n) => Halt(d.(sizeLine := []), Failed(error), n)
  }

  function TrailersTurn(d: Decoder, input: seq<Byte>): (t: DecodeTurn)
    requires d.Valid() && d.phase.Trailers? && input != []
    ensures t.dec.Valid() && t.dec.maxBody == d.maxBody && t.consumed <= |input|
    ensures t.Halt?
  {
    var done := d.(phase := Done, trailerCr := false);
    if d.trailerCr then
      if input[0] == LF then Halt(done, Complete, 1)
      else Halt(d.(trailerCr := false), Failed(TrailersNotSupported), 0)
    else if |input| == 1 then
      if input[0] == CR then Halt(d.(trailerCr := true), NeedMore, 1)
      else Halt(d, Failed(TrailersNotSupported), 0)
    else if CrlfAt(input, 0) then Halt(done, Complete, 2)
    else Halt(d, Failed(TrailersNotSupported), 0)
  }

  function NextTurn(d: Decoder, input: seq<Byte>): (t: DecodeTurn)
    requires d.Valid()
    ensures t.dec.Valid() && t.dec.maxBody == d.maxBody && t.consumed <= |input|
    ensures !t.Halt? ==> 0 < t.consumed
  {
    if d.phase.Done? then Halt(d, Complete, 0)
    else if input == [] then Halt(d, NeedMore, 0)
    else
      match d.phase
      case Size => SizeTurn(d, input)
      case Data(remaining) =>
        var take := Min(remaining, |input|);
        var phase := if take == remaining then DataCrlf else Data(remaining - take);
        Emit(d.(phase := phase, decodedTotal := d.decodedTotal + take), take)
      case DataCrlf =>
        if |input| < 2 then Halt(d, NeedMore, 0)
        else if !CrlfAt(input, 0) then Halt(d, Failed(MissingCrlf), 0)
        else Continue(d.(phase := Size), 2)
      case Trailers => TrailersTurn(d, input)
  }

  // --- feed and feed_all ------------------------------------------------------------------

  datatype Progress = ProgressChunk(data: seq<Byte>) | ProgressEnd(result: Result)

  /** `feed`: runs turns until one emits data or halts. */
  function Feed(d: Decoder, input: seq<Byte>): (r: (Decoder, Progress, nat))
    requires d.Valid()
    ensures r.0.Valid() && r.0.maxBody == d.maxBody && r.2 <= |input|
    ensures r.1.ProgressChunk? ==> 0 < r.2
    decreases |input|
  {
    match NextTurn(d, input)
    case Halt(e, result, n) => (e, ProgressEnd(result), n)
    case Emit(e, n) => (e, ProgressChunk(input[..n]), n)
    case Continue(e, n) =>
      var rest := Feed(e, input[n..]);
      (rest.0, rest.1, n + rest.2)
  }

  /** What `feed_all` leaves: decoder, appended data, result, bytes consumed. */
  datatype Outcome = Outcome(dec: Decoder, out: seq<Byte>, result: Result, consumed: nat)

  function After(out: seq<Byte>, consumed: nat, rest: Outcome): Outcome {
    Outcome(rest.dec, out + rest.out, rest.result, consumed + rest.consumed)
  }

  lemma {:induction false} AfterAfter(a: seq<Byte>, m: nat, b: seq<Byte>, n: nat, rest: Outcome)
    ensures After(a, m, After(b, n, rest)) == After(a + b, m + n, rest)
  {
    assert a + (b + rest.out) == a + b + rest.out;
  }

  function FeedAll(d: Decoder, input: seq<Byte>): (r: Outcome)
    requires d.Valid()
    ensures r.dec.Valid() && r.dec.maxBody == d.maxBody && r.consumed <= |input|
    decreases |input|
  {
    match NextTurn(d, input)
    case Halt(e, result, n) => Outcome(e, [], result, n)
    case Emit(e, n) => After(input[..n], n, FeedAll(e, input[n..]))
    case Continue(e, n) => After([], n, FeedAll(e, input[n..]))
  }

  /** `feed_all` is `feed` repeated until it yields something other than a chunk. */
  lemma {:induction false} FeedAllIsRepeatedFeed(d: Decoder, input: seq<Byte>)
    requires d.Valid()
    ensures var (e, progress, n) := Feed(d, input);
            FeedAll(d, input) == match progress
                                 case ProgressChunk(data) => After(data, n, FeedAll(e, input[n..]))
                                 case ProgressEnd(result) => Outcome(e, [], result, n)
    decreases |input|
  {
    hide NextTurn;
    var t := NextTurn(d, input);
    if t.Continue? {
      FeedAllIsRepeatedFeed(t.dec, input[t.consumed..]);
      var (e, progress, n) := Feed(t.dec, input[t.consumed..]);
      assert input[t.consumed..][n..] == input[t.consumed + n..];
    }
  }
}
