/** Newline-delimited framing, refined against a splitter that reads the whole stream. */
module LineCodec {
  import opened Bytes
  import opened SyncCodec

  datatype LineError = UnterminatedFinalLine | EmbeddedNul

  datatype Line = Line(
    maxLineLen: nat,
    rejectNul: bool,
    buffer: seq<Byte>,
    poisoned: bool,
    overflowed: bool)

  function NewLine(maxLineLen: nat, rejectNul: bool): Line {
    Line(maxLineLen, rejectNul, [], false, false)
  }

  /** The most the framer ever buffers: the line, a CR and the newline. */
  function Limit(maxLineLen: nat): nat {
    SaturatingAdd(maxLineLen, 2)
  }

  predicate EndsInLf(s: seq<Byte>) {
    s != [] && s[|s| - 1] == LF
  }

  function Stripped(line: seq<Byte>): (body: seq<Byte>)
    ensures body <= line
  {
    if line != [] && line[|line| - 1] == CR then line[..|line| - 1] else line
  }

  // --- The framer -------------------------------------------------------------------------

  function Feed(s: Line, chunk: seq<Byte>): (r: (Line, nat)) {
    if s.poisoned || s.overflowed || chunk == [] || EndsInLf(s.buffer) then (s, 0)
    else
      var room := SaturatingSub(Limit(s.maxLineLen), |s.buffer|);
      var newline := IndexOf(chunk, LF);
      var through := if newline < |chunk| then newline + 1 else |chunk|;
      var n := Min(room, through);
      var buffer := s.buffer + chunk[..n];
      (s.(buffer := buffer, overflowed := n == room && !EndsInLf(buffer)), n)
  }

  function Next(s: Line): (r: (Line, Decision<LineError>)) {
    if s.poisoned then (s, Malformed(EmbeddedNul))
    else
      var newline := IndexOf(s.buffer, LF);
      if s.rejectNul && 0 in s.buffer[..newline] then (s.(poisoned := true), Malformed(EmbeddedNul))
      else if newline < |s.buffer| then
        var body := Stripped(s.buffer[..newline]);
        if |body| > s.maxLineLen then (s.(overflowed := true), Full)
        else (s.(buffer := []), Frame(body))
      else (s, if s.overflowed then Full else NeedMore)
  }

  /** `finish`: what is left when the stream ends. */
  function Finish(s: Line, allowUnterminated: bool): (r: (Line, Decision<LineError>)) {
    if s.poisoned then (s, Malformed(EmbeddedNul))
    else if s.overflowed then (s, Full)
    else if s.buffer == [] then (s, NeedMore)
    else
      var body := Stripped(s.buffer);
      if |body| > s.maxLineLen then (s.(overflowed := true), Full)
      else if allowUnterminated then (s.(buffer := []), Frame(body))
      else (s, Malformed(UnterminatedFinalLine))
  }

  /** Holds after any history: at most one line end, only at the end, within the limit. */
  predicate Ok(s: Line) {
    && 0 < s.maxLineLen <= USIZE_MAX
    && |s.buffer| <= Limit(s.maxLineLen)
    && LF !in s.buffer[..SaturatingSub(|s.buffer|, 1)]
    && (EndsInLf(s.buffer) || s.poisoned || (s.overflowed <==> |s.buffer| == Limit(s.maxLineLen)))
    && (EndsInLf(s.buffer) && s.overflowed ==> |Stripped(s.buffer[..|s.buffer| - 1])| > s.maxLineLen)
    && (s.poisoned ==> s.rejectNul)
  }

  function Rank(s: Line): nat {
    if EndsInLf(s.buffer) then 1 else 0
  }

  const LINE_CODEC: Codec<Line, LineError> := Codec(Feed, Next, Ok, Rank)

  lemma {:induction false} FeedKeepsOk(s: Line, b: seq<Byte>)
    requires Ok(s)
    ensures Ok(Feed(s, b).0) && Feed(s, b).1 <= |b|
    ensures Next(s).1.NeedMore? && b != [] ==> 1 <= Feed(Next(s).0, b).1
  {
    var newline := IndexOf(b, LF);
    assert LF !in b[..newline];
    assert EndsInLf(s.buffer) ==> s.buffer[|s.buffer| - 1] == LF;
    IndexOfIs(s.buffer, LF, if EndsInLf(s.buffer) then |s.buffer| - 1 else |s.buffer|);
  }

  lemma {:induction false} NextKeepsOk(s: Line)
    requires Ok(s)
    ensures Ok(Next(s).0)
    ensures Next(s).1.Frame? ==> Rank(Next(s).0) < Rank(s)
  {
    var newline := IndexOf(s.buffer, LF);
    if newline < |s.buffer| {
      IndexOfIs(s.buffer, LF, newline);
    }
  }

  /** The framer keeps the codec contract: it never stalls, and its buffer stays in bounds. */
  lemma {:induction false} NextIsLawful()
    ensures forall s :: LINE_CODEC.ok(s) ==> LINE_CODEC.ok(LINE_CODEC.next(s).0)
    ensures forall s :: LINE_CODEC.ok(s) && LINE_CODEC.next(s).1.Frame? ==>
                          LINE_CODEC.rank(LINE_CODEC.next(s).0) < LINE_CODEC.rank(s)
  {
    hide Feed, Next, Ok, Rank;
    forall s | Ok(s)
      ensures Ok(Next(s).0) && (Next(s).1.Frame? ==> Rank(Next(s).0) < Rank(s))
    {
      NextKeepsOk(s);
    }
  }

  lemma {:induction false} FeedIsLawful()
    ensures forall s, b: seq<Byte> :: LINE_CODEC.ok(s) ==> LINE_CODEC.ok(LINE_CODEC.feed(s, b).0)
    ensures forall s, b: seq<Byte> :: LINE_CODEC.ok(s) && LINE_CODEC.next(s).1.NeedMore? && b != [] ==>
                                        1 <= LINE_CODEC.feed(LINE_CODEC.next(s).0, b).1 <= |b|
  {
    hide Feed, Next, Ok, Rank;
    forall s, b: seq<Byte> | Ok(s)
      ensures Ok(Feed(s, b).0)
    {
      FeedKeepsOk(s, b);
    }
    forall s, b: seq<Byte> | Ok(s) && Next(s).1.NeedMore? && b != []
      ensures 1 <= Feed(Next(s).0, b).1 <= |b|
    {
      NextKeepsOk(s);
      FeedKeepsOk(s, b);
      FeedKeepsOk(Next(s).0, b);
    }
  }

  lemma {:induction false} LineCodecIsLawful()
    ensures Lawful(LINE_CODEC)
  {
    hide Feed, Next, Ok, Rank;
    NextIsLawful();
    FeedIsLawful();
  }

  // --- The whole-stream splitter ----------------------------------------------------------

  /** Frames, status, and the unframed rest of the stream. */
  datatype Split = Split(frames: seq<seq<Byte>>, status: Status<LineError>, rest: seq<Byte>)

  function WithFrame(frame: seq<Byte>, r: Split): Split {
    r.(frames := [frame] + r.frames)
  }

  /** A terminated line is accepted if its body without the CR fits the cap. */
  predicate Accepted(maxLineLen: nat, line: seq<Byte>) {
    |line| < Limit(maxLineLen) && |Stripped(line)| <= maxLineLen
  }

  /** Only the part of a line that can be buffered is searched for NUL. */
  predicate ShowsNul(maxLineLen: nat, rejectNul: bool, line: seq<Byte>) {
    rejectNul && 0 in line[..Min(|line|, Limit(maxLineLen))]
  }

  function SplitLines(maxLineLen: nat, rejectNul: bool, stream: seq<Byte>): (r: Split)
    decreases |stream|
  {
    var newline := IndexOf(stream, LF);
    var line := stream[..newline];
    if ShowsNul(maxLineLen, rejectNul, line) then Split([], Broken(EmbeddedNul), stream)
    else if newline == |stream| then
      Split([], if |line| >= Limit(maxLineLen) then OverCap else Waiting, stream)
    else if !Accepted(maxLineLen, line) then Split([], OverCap, stream)
    else WithFrame(Stripped(line), SplitLines(maxLineLen, rejectNul, stream[newline + 1..]))
  }

  /** The cap alone decides for every line that fits memory with its newline. */
  lemma {:induction false} AcceptedIsTheCap(maxLineLen: nat, line: seq<Byte>)
    requires maxLineLen <= USIZE_MAX
    ensures |line| < USIZE_MAX ==> (Accepted(maxLineLen, line) <==> |Stripped(line)| <= maxLineLen)
    ensures |line| >= USIZE_MAX ==> !Accepted(maxLineLen, line)
  {
  }

  /** The framer between frames, with the unterminated `rest` buffered. */
  function At(maxLineLen: nat, rejectNul: bool, rest: seq<Byte>): Line {
    Line(maxLineLen, rejectNul, rest, false, false)
  }

  ghost predicate Unfinished(maxLineLen: nat, rejectNul: bool, rest: seq<Byte>) {
    LF !in rest && |rest| < Limit(maxLineLen) && !ShowsNul(maxLineLen, rejectNul, rest)
  }

  lemma {:induction false} UnfinishedWaits(m: nat, nul: bool, rest: seq<Byte>)
    requires 0 < m <= USIZE_MAX && Unfinished(m, nul, rest)
    ensures Ok(At(m, nul, rest)) && Next(At(m, nul, rest)) == (At(m, nul, rest), NeedMore)
    ensures SplitLines(m, nul, rest) == Split([], Waiting, rest)
  {
    IndexOfIs(rest, LF, |rest|);
    assert rest[..|rest|] == rest;
  }

  /** The newline of `rest + y` is that of `y`. */
  lemma {:induction false} NewlineAfter(rest: seq<Byte>, y: seq<Byte>)
    requires LF !in rest
    ensures IndexOf(rest + y, LF) == |rest| + IndexOf(y, LF)
  {
    hide IndexOf;
    var j := IndexOf(y, LF);
    assert (rest + y)[..|rest| + j] == rest + y[..j];
    IndexOfIs(rest + y, LF, |rest| + j);
  }

  /** A feed that reaches the newline, and the pull after it. */
  lemma {:induction false} FeedLine(m: nat, nul: bool, rest: seq<Byte>, y: seq<Byte>)
    requires 0 < m <= USIZE_MAX && Unfinished(m, nul, rest)
    requires IndexOf(y, LF) < |y| && |rest| + IndexOf(y, LF) < Limit(m)
    ensures var n := IndexOf(y, LF) + 1;
            Feed(At(m, nul, rest), y) == (At(m, nul, rest + y[..n]), n)
    ensures var n := IndexOf(y, LF) + 1;
            var line := rest + y[..n - 1];
            var r := Next(At(m, nul, rest + y[..n]));
            if ShowsNul(m, nul, line) then r.1 == Malformed(EmbeddedNul)
            else if !Accepted(m, line) then r.1 == Full
            else r == (At(m, nul, []), Frame(Stripped(line)))
  {
    hide IndexOf;
    var j := IndexOf(y, LF);
    var buffer := rest + y[..j + 1];
    assert EndsInLf(buffer);
    var line := rest + y[..j];
    assert buffer[..|line|] == line && LF !in line;
    IndexOfIs(buffer, LF, |line|);
    assert line[..|line|] == line;
  }

  /** A feed that does not reach a newline within the limit, and the pull after it. */
  lemma {:induction false} FeedNoLine(m: nat, nul: bool, rest: seq<Byte>, y: seq<Byte>)
    requires 0 < m <= USIZE_MAX && Unfinished(m, nul, rest) && y != []
    requires IndexOf(y, LF) == |y| || |rest| + IndexOf(y, LF) >= Limit(m)
    ensures var n := Min(Limit(m) - |rest|, |y|);
            var s := At(m, nul, rest + y[..n]).(overflowed := n == Limit(m) - |rest|);
            && Feed(At(m, nul, rest), y) == (s, n) && LF !in s.buffer
            && if nul && 0 in s.buffer then Next(s).1 == Malformed(EmbeddedNul)
               else Next(s) == (s, if s.overflowed then Full else NeedMore)
  {
    hide IndexOf;
    var n := Min(Limit(m) - |rest|, |y|);
    var buffer := rest + y[..n];
    var j := IndexOf(y, LF);
    assert n <= j && y[..n] <= y[..j];
    assert LF !in y[..n] by {
      assert forall k :: 0 <= k < n ==> y[..n][k] == y[..j][k];
    }
    assert LF !in buffer;
    IndexOfIs(buffer, LF, |buffer|);
    assert buffer[..|buffer|] == buffer;
  }

  /** What decoding `y` behind the unfinished `rest` must yield. */
  ghost predicate DecodesAs(m: nat, nul: bool, rest: seq<Byte>, y: seq<Byte>, r: Decoded<Line, LineError>) {
    var split := SplitLines(m, nul, rest + y);
    && r.frames == split.frames && r.status == split.status
    && (r.status.Waiting? ==> r.codec == At(m, nul, split.rest) && Unfinished(m, nul, split.rest))
    && (!r.status.Waiting? ==> Ok(r.codec) && Next(r.codec) == (r.codec, Verdict(r.status)))
  }

  /** A terminal decision is repeated by the next pull. */
  lemma {:induction false} TerminalRepeats(s: Line)
    requires Ok(s) && (Next(s).1.Full? || Next(s).1.Malformed?)
    ensures Next(Next(s).0) == Next(s)
  {
  }

  /** `decode_chunk` over the line framer. */
  function DecodeLines(s: Line, bytes: seq<Byte>): (r: Decoded<Line, LineError>)
    requires Ok(s)
    ensures Ok(r.codec)
  {
    LineCodecIsLawful();
    Decode(LINE_CODEC, s, bytes)
  }

  /** One pull of `decode_chunk`, in the framer's own terms. */
  lemma {:induction false} LineStep(s: Line, bytes: seq<Byte>)
    requires Ok(s)
    ensures Ok(Next(s).0)
    ensures match Next(s).1
            case Frame(body) => DecodeLines(s, bytes) == Prefixed([body], DecodeLines(Next(s).0, bytes))
            case Malformed(reason) => DecodeLines(s, bytes) == Decoded(Next(s).0, [], Broken(reason))
            case Full => DecodeLines(s, bytes) == Decoded(Next(s).0, [], OverCap)
            case NeedMore =>
              if bytes == [] then DecodeLines(s, bytes) == Decoded(Next(s).0, [], Waiting)
              else
                var (s2, n) := Feed(Next(s).0, bytes);
                Ok(s2) && 1 <= n <= |bytes| && DecodeLines(s, bytes) == DecodeLines(s2, bytes[n..])
  {
    hide Lawful, Decode, Feed, Next, Ok;
    LineCodecIsLawful();
    DecodeStep(LINE_CODEC, s, bytes);
    NextKeepsOk(s);
  }

  /** What the splitter makes of a terminated first line. */
  lemma {:induction false} SplitFirst(m: nat, nul: bool, x: seq<Byte>, i: nat)
    requires IndexOf(x, LF) == i < |x|
    ensures var line := x[..i];
            SplitLines(m, nul, x)
            == if ShowsNul(m, nul, line) then Split([], Broken(EmbeddedNul), x)
               else if !Accepted(m, line) then Split([], OverCap, x)
               else WithFrame(Stripped(line), SplitLines(m, nul, x[i + 1..]))
  {
  }

  lemma {:induction false} DecodeWithLine(m: nat, nul: bool, rest: seq<Byte>, y: seq<Byte>)
    requires 0 < m <= USIZE_MAX && Unfinished(m, nul, rest)
    requires IndexOf(y, LF) < |y| && |rest| + IndexOf(y, LF) < Limit(m)
    requires Ok(At(m, nul, [])) && Ok(At(m, nul, rest))
    requires var n := IndexOf(y, LF) + 1;
             DecodesAs(m, nul, [], y[n..], DecodeLines(At(m, nul, []), y[n..]))
    ensures DecodesAs(m, nul, rest, y, DecodeLines(At(m, nul, rest), y))
  {
    hide IndexOf, DecodeLines, Feed, Next, Ok, ShowsNul, Accepted, Limit, SplitLines, Stripped;
    UnfinishedWaits(m, nul, rest);
    var n := IndexOf(y, LF) + 1;
    var line, later, full := rest + y[..n - 1], y[n..], At(m, nul, rest + y[..n]);
    LineStep(At(m, nul, rest), y);
    FeedLine(m, nul, rest, y);
    LineStep(full, later);
    NewlineAfter(rest, y);
    assert (rest + y)[..|rest| + n - 1] == line && (rest + y)[|rest| + n..] == [] + later;
    SplitFirst(m, nul, rest + y, |rest| + n - 1);
    if !Next(full).1.Frame? {
      TerminalRepeats(full);
    }
  }

  lemma {:induction false} PrefixAcross(rest: seq<Byte>, y: seq<Byte>, j: nat, n: nat)
    requires n <= j <= |y|
    ensures (rest + y)[..|rest| + j][..|rest| + n] == rest + y[..n]
  {
  }

  lemma {:induction false} DecodeWithoutLine(m: nat, nul: bool, rest: seq<Byte>, y: seq<Byte>)
    requires 0 < m <= USIZE_MAX && Unfinished(m, nul, rest) && y != [] && Ok(At(m, nul, rest))
    requires IndexOf(y, LF) == |y| || |rest| + IndexOf(y, LF) >= Limit(m)
    ensures DecodesAs(m, nul, rest, y, DecodeLines(At(m, nul, rest), y))
  {
    hide IndexOf, DecodeLines, Feed, Next, Ok;
    UnfinishedWaits(m, nul, rest);
    var stream := rest + y;
    LineStep(At(m, nul, rest), y);
    FeedNoLine(m, nul, rest, y);
    var (fed, n) := Feed(At(m, nul, rest), y);
    LineStep(fed, y[n..]);
    NewlineAfter(rest, y);
    var j := IndexOf(y, LF);
    var line := stream[..|rest| + j];
    assert Min(|line|, Limit(m)) == |rest| + n;
    PrefixAcross(rest, y, j, n);
    if Next(fed).1.NeedMore? {
      assert y[..n] == y && stream[..|stream|] == stream && fed == At(m, nul, stream);
    } else {
      TerminalRepeats(fed);
    }
  }

  /** Decoding from an unfinished line is splitting that line with what follows. */
  lemma {:induction false} DecodeIsSplit(m: nat, nul: bool, rest: seq<Byte>, y: seq<Byte>)
    requires 0 < m <= USIZE_MAX && Unfinished(m, nul, rest)
    ensures Ok(At(m, nul, rest)) && DecodesAs(m, nul, rest, y, DecodeLines(At(m, nul, rest), y))
    decreases |y|
  {
    UnfinishedWaits(m, nul, rest);
    hide IndexOf, DecodeLines, Feed, Next, Ok, SplitLines;
    if y == [] {
      assert rest + y == rest;
      LineStep(At(m, nul, rest), y);
    } else if IndexOf(y, LF) < |y| && |rest| + IndexOf(y, LF) < Limit(m) {
      DecodeIsSplit(m, nul, [], y[IndexOf(y, LF) + 1..]);
      DecodeWithLine(m, nul, rest, y);
    } else {
      DecodeWithoutLine(m, nul, rest, y);
    }
  }

  function Verdict(status: Status<LineError>): Decision<LineError> {
    match status
    case Waiting => NeedMore
    case Broken(reason) => Malformed(reason)
    case OverCap => Full
  }

  // --- Partition invariance ---------------------------------------------------------------

  function WithFrames(frames: seq<seq<Byte>>, r: Split): Split {
    r.(frames := frames + r.frames)
  }

  /** What the splitter found in `x` it finds in `x + y`; the rest of `x` goes on with `y`. */
  ghost predicate SplitGoesOn(m: nat, nul: bool, x: seq<Byte>, y: seq<Byte>) {
    var a, b := SplitLines(m, nul, x), SplitLines(m, nul, x + y);
    if a.status.Waiting? then
      Unfinished(m, nul, a.rest) && b == WithFrames(a.frames, SplitLines(m, nul, a.rest + y))
    else b.frames == a.frames && b.status == a.status
  }

  lemma {:induction false} UnterminatedGoesOn(m: nat, nul: bool, x: seq<Byte>, y: seq<Byte>)
    requires LF !in x
    ensures SplitGoesOn(m, nul, x, y)
  {
    hide IndexOf;
    IndexOfIs(x, LF, |x|);
    NewlineAfter(x, y);
    assert x[..|x|] == x;
    var line := (x + y)[..IndexOf(x + y, LF)];
    assert x == line[..|x|];
    if |x| >= Limit(m) {
      assert line[..Min(|line|, Limit(m))] == x[..Min(|x|, Limit(m))];
    } else if ShowsNul(m, nul, x) {
      assert forall k :: 0 <= k < |x| ==> line[..Min(|line|, Limit(m))][k] == x[k];
    }
  }

  lemma {:induction false} SplitExtends(m: nat, nul: bool, x: seq<Byte>, y: seq<Byte>)
    ensures SplitGoesOn(m, nul, x, y)
    decreases |x|
  {
    hide IndexOf, ShowsNul, Accepted, SplitLines, Stripped, Unfinished;
    var i := IndexOf(x, LF);
    if i == |x| {
      assert x[..|x|] == x;
      UnterminatedGoesOn(m, nul, x, y);
    } else {
      assert (x + y)[..i] == x[..i];
      IndexOfIs(x + y, LF, i);
      assert (x + y)[i + 1..] == x[i + 1..] + y;
      SplitFirst(m, nul, x, i);
      SplitFirst(m, nul, x + y, i);
      SplitExtends(m, nul, x[i + 1..], y);
      var a := SplitLines(m, nul, x[i + 1..]);
      assert [Stripped(x[..i])] + (a.frames + SplitLines(m, nul, a.rest + y).frames)
          == [Stripped(x[..i])] + a.frames + SplitLines(m, nul, a.rest + y).frames;
    }
  }

  /** `decode_chunk` once per read, also after a terminal status. */
  function DecodeLineParts(s: Line, parts: seq<seq<Byte>>): (r: Decoded<Line, LineError>)
    requires Ok(s) && parts != []
    ensures Ok(r.codec)
  {
    LineCodecIsLawful();
    DecodeParts(LINE_CODEC, s, parts)
  }

  lemma {:induction false} LinePartsStep(s: Line, parts: seq<seq<Byte>>)
    requires Ok(s) && parts != []
    ensures var first := DecodeLines(s, parts[0]);
            DecodeLineParts(s, parts) ==
            if |parts| == 1 then first else Prefixed(first.frames, DecodeLineParts(first.codec, parts[1..]))
  {
    hide Decode, Feed, Next, Ok, Lawful;
    LineCodecIsLawful();
  }

  /** After `Full` or `Malformed` no later read changes anything: the decision is terminal. */
  lemma {:induction false} TerminalForever(s: Line, status: Status<LineError>, parts: seq<seq<Byte>>)
    requires Ok(s) && parts != [] && !status.Waiting? && Next(s) == (s, Verdict(status))
    ensures DecodeLineParts(s, parts) == Decoded(s, [], status)
    decreases |parts|
  {
    hide DecodeLines, DecodeLineParts, Feed, Next, Ok;
    LinePartsStep(s, parts);
    LineStep(s, parts[0]);
    if |parts| > 1 {
      TerminalForever(s, status, parts[1..]);
    }
  }

  lemma {:induction false} PartsAreSplit(m: nat, nul: bool, rest: seq<Byte>, parts: seq<seq<Byte>>)
    requires 0 < m <= USIZE_MAX && Unfinished(m, nul, rest) && parts != []
    ensures Ok(At(m, nul, rest))
    ensures var r := DecodeLineParts(At(m, nul, rest), parts);
            var split := SplitLines(m, nul, rest + Concat(parts));
            && r.frames == split.frames && r.status == split.status
            && (r.status.Waiting? ==> r.codec == At(m, nul, split.rest))
            && (!r.status.Waiting? ==> Next(r.codec) == (r.codec, Verdict(r.status)))
    decreases |parts|
  {
    hide DecodeLines, DecodeLineParts, Feed, Next, Ok, SplitLines;
    var first, later := parts[0], Concat(parts[1..]);
    DecodeIsSplit(m, nul, rest, first);
    LinePartsStep(At(m, nul, rest), parts);
    assert rest + Concat(parts) == rest + first + later;
    SplitExtends(m, nul, rest + first, later);
    var r := DecodeLines(At(m, nul, rest), first);
    if |parts| == 1 {
      assert later == [] && rest + first + later == rest + first;
    } else if r.status.Waiting? {
      PartsAreSplit(m, nul, r.codec.buffer, parts[1..]);
    } else {
      TerminalForever(r.codec, r.status, parts[1..]);
    }
  }

  /**
    However a stream is cut into reads, `decode_chunk` emits the frames and ends in the status
    of the whole-stream splitter.
   */
  lemma {:induction false} LinePartitionInvariance(m: nat, nul: bool, parts: seq<seq<Byte>>)
    requires 0 < m <= USIZE_MAX && parts != []
    ensures Ok(NewLine(m, nul))
    ensures var r := DecodeLineParts(NewLine(m, nul), parts);
            var split := SplitLines(m, nul, Concat(parts));
            r.frames == split.frames && r.status == split.status
  {
    hide DecodeLineParts;
    assert [] + Concat(parts) == Concat(parts);
    PartsAreSplit(m, nul, [], parts);
  }

  // --- Round trip -------------------------------------------------------------------------

  datatype Terminated = Terminated(body: seq<Byte>, crlf: bool)
  {
    function Wire(): seq<Byte> {
      body + if crlf then CRLF else [LF]
    }
  }

  function WireOf(lines: seq<Terminated>): seq<Byte> {
    if lines == [] then [] else lines[0].Wire() + WireOf(lines[1..])
  }

  function Bodies(lines: seq<Terminated>): seq<seq<Byte>> {
    if lines == [] then [] else [lines[0].body] + Bodies(lines[1..])
  }

  /** A line that can be carried: it fits memory and the cap, and has no newline or CR to lose. */
  predicate Carried(m: nat, nul: bool, line: Terminated) {
    && |line.Wire()| <= USIZE_MAX
    && LF !in line.body && |line.body| <= m
    && (nul ==> 0 !in line.body)
    && (!line.crlf ==> line.body == [] || line.body[|line.body| - 1] != CR)
  }

  lemma {:induction false} LineWireSplits(m: nat, nul: bool, line: Terminated, after: seq<Byte>)
    requires m <= USIZE_MAX && Carried(m, nul, line)
    ensures SplitLines(m, nul, line.Wire() + after) == WithFrame(line.body, SplitLines(m, nul, after))
  {
    hide IndexOf;
    var text := if line.crlf then line.body + [CR] else line.body;
    var stream := line.Wire() + after;
    assert stream[..|text|] == text && stream[|text|] == LF && stream[|text| + 1..] == after;
    IndexOfIs(stream, LF, |text|);
    assert Stripped(text) == line.body;
    AcceptedIsTheCap(m, text);
    assert 0 in text ==> 0 in line.body;
  }

  /** Lines joined with LF or CRLF split back into exactly those lines. */
  lemma {:induction false} LineRoundTrip(m: nat, nul: bool, lines: seq<Terminated>)
    requires m <= USIZE_MAX
    requires forall i :: 0 <= i < |lines| ==> Carried(m, nul, lines[i])
    ensures SplitLines(m, nul, WireOf(lines)) == Split(Bodies(lines), Waiting, [])
  {
    hide Carried;
    if lines != [] {
      LineWireSplits(m, nul, lines[0], WireOf(lines[1..]));
      LineRoundTrip(m, nul, lines[1..]);
    }
  }

  /** Those lines read through `decode_chunk`, however the wire is cut, and a clean end behind them. */
  lemma {:induction false} LineRoundTripInParts(m: nat, nul: bool, lines: seq<Terminated>, parts: seq<seq<Byte>>)
    requires 0 < m <= USIZE_MAX && parts != [] && Concat(parts) == WireOf(lines)
    requires forall i :: 0 <= i < |lines| ==> Carried(m, nul, lines[i])
    ensures Ok(NewLine(m, nul))
    ensures var r := DecodeLineParts(NewLine(m, nul), parts);
            r.frames == Bodies(lines) && r.status.Waiting? && Finish(r.codec, false).1.NeedMore?
  {
    hide DecodeLineParts, Carried, SplitLines, Finish;
    LinePartitionInvariance(m, nul, parts);
    LineRoundTrip(m, nul, lines);
    FinishAfterParts(m, nul, parts, false);
  }

  /**
    The end of the stream after any reads: clean exactly between lines, else the rest is too long,
    a final frame if those are allowed, or malformed; and a terminal status is repeated.
   */
  lemma {:induction false} FinishAfterParts(m: nat, nul: bool, parts: seq<seq<Byte>>, allow: bool)
    requires 0 < m <= USIZE_MAX && parts != []
    ensures Ok(NewLine(m, nul))
    ensures var r := DecodeLineParts(NewLine(m, nul), parts);
            var rest := SplitLines(m, nul, Concat(parts)).rest;
            Finish(r.codec, allow).1
            == if !r.status.Waiting? then Verdict(r.status)
               else if rest == [] then NeedMore
               else if |Stripped(rest)| > m then Full
               else if allow then Frame(Stripped(rest))
               else Malformed(UnterminatedFinalLine)
  {
    assert [] + Concat(parts) == Concat(parts);
    PartsAreSplit(m, nul, [], parts);
    hide DecodeLineParts, SplitLines, Ok;
    var r := DecodeLineParts(NewLine(m, nul), parts);
    if !r.status.Waiting? {
      TerminalFinish(r.codec, r.status, allow);
    }
  }

  lemma {:induction false} TerminalFinish(s: Line, status: Status<LineError>, allow: bool)
    requires !status.Waiting? && Next(s) == (s, Verdict(status))
    ensures Finish(s, allow).1 == Verdict(status)
  {
    hide IndexOf, Stripped;
  }

  // --- The bound ----------------------------------------------------------------------------

  /** After any reads at most the line, a CR and the newline are buffered. */
  lemma {:induction false} LineBufferIsBounded(m: nat, nul: bool, parts: seq<seq<Byte>>)
    requires 0 < m <= USIZE_MAX && parts != []
    ensures Ok(NewLine(m, nul)) && |DecodeLineParts(NewLine(m, nul), parts).codec.buffer| <= m + 2
  {
    hide DecodeLineParts, SplitLines;
    assert [] + Concat(parts) == Concat(parts);
    PartsAreSplit(m, nul, [], parts);
    var r := DecodeLineParts(NewLine(m, nul), parts);
    if !r.status.Waiting? {
      SameCap(m, nul, parts);
    } else {
      WaitingRest(m, nul, Concat(parts));
    }
  }

  lemma {:induction false} SameCap(m: nat, nul: bool, parts: seq<seq<Byte>>)
    requires 0 < m <= USIZE_MAX && parts != [] && Ok(NewLine(m, nul))
    ensures var s := DecodeLineParts(NewLine(m, nul), parts).codec; s.maxLineLen == m && Ok(s)
  {
    hide DecodeLines, DecodeLineParts, Ok;
    PartsKeepCap(NewLine(m, nul), parts);
  }

  lemma {:induction false} PartsKeepCap(s: Line, parts: seq<seq<Byte>>)
    requires Ok(s) && parts != []
    ensures DecodeLineParts(s, parts).codec.maxLineLen == s.maxLineLen
    decreases |parts|
  {
    hide DecodeLines, DecodeLineParts, Ok;
    LinePartsStep(s, parts);
    DecodeKeepsCap(s, parts[0]);
    if |parts| > 1 {
      PartsKeepCap(DecodeLines(s, parts[0]).codec, parts[1..]);
    }
  }

  lemma {:induction false} DecodeKeepsCap(s: Line, bytes: seq<Byte>)
    requires Ok(s)
    ensures DecodeLines(s, bytes).codec.maxLineLen == s.maxLineLen
    decreases |bytes|, Rank(s)
  {
    hide DecodeLines, Ok;
    LineStep(s, bytes);
    NextKeepsOk(s);
    match Next(s).1
    case Frame(_) => DecodeKeepsCap(Next(s).0, bytes);
    case NeedMore =>
      if bytes != [] {
        var (s2, n) := Feed(Next(s).0, bytes);
        DecodeKeepsCap(s2, bytes[n..]);
      }
    case _ =>
  }

  lemma {:induction false} WaitingRest(m: nat, nul: bool, stream: seq<Byte>)
    requires SplitLines(m, nul, stream).status.Waiting?
    ensures |SplitLines(m, nul, stream).rest| < Limit(m)
    decreases |stream|
  {
    hide IndexOf;
    var newline := IndexOf(stream, LF);
    if newline < |stream| {
      WaitingRest(m, nul, stream[newline + 1..]);
    }
  }

  /** As many bytes of one line as can ever be buffered: two past the cap, or a whole memory. */
  function Visible(m: nat, line: seq<Byte>): seq<Byte> {
    line[..Min(|line|, Min(m + 2, USIZE_MAX))]
  }

  /**
    The decision on a line, for every cap: a rejected NUL within two bytes past the cap is an
    error; without a newline the line is over the cap exactly from cap plus two bytes on; with
    one, exactly when its body without the CR passes the cap, or the line fills the memory.
   */
  lemma {:induction false} LineIsDecided(m: nat, nul: bool, line: seq<Byte>, after: seq<Byte>)
    requires m <= USIZE_MAX && LF !in line
    ensures SplitLines(m, nul, line)
         == if nul && 0 in Visible(m, line) then Split([], Broken(EmbeddedNul), line)
            else Split([], if |line| >= Min(m + 2, USIZE_MAX) then OverCap else Waiting, line)
    ensures var stream := line + [LF] + after;
            SplitLines(m, nul, stream)
            == if nul && 0 in Visible(m, line) then Split([], Broken(EmbeddedNul), stream)
               else if |Stripped(line)| > m || |line| >= USIZE_MAX then Split([], OverCap, stream)
               else WithFrame(Stripped(line), SplitLines(m, nul, after))
  {
    hide IndexOf;
    IndexOfIs(line, LF, |line|);
    assert line[..|line|] == line;
    var stream := line + [LF] + after;
    assert stream[..|line|] == line && stream[|line| + 1..] == after;
    IndexOfIs(stream, LF, |line|);
    AcceptedIsTheCap(m, line);
  }

  /** The same after any cut into reads, for a stream without a newline. */
  lemma {:induction false} UnterminatedIsDecided(m: nat, nul: bool, parts: seq<seq<Byte>>)
    requires 0 < m <= USIZE_MAX && parts != [] && LF !in Concat(parts)
    ensures Ok(NewLine(m, nul))
    ensures var r, stream := DecodeLineParts(NewLine(m, nul), parts), Concat(parts);
            && r.frames == []
            && (r.status == Broken(EmbeddedNul) <==> nul && 0 in Visible(m, stream))
            && (r.status == OverCap <==> !(nul && 0 in Visible(m, stream)) && |stream| >= Min(m + 2, USIZE_MAX))
  {
    hide DecodeLineParts, SplitLines, Visible;
    LinePartitionInvariance(m, nul, parts);
    LineIsDecided(m, nul, Concat(parts), []);
  }

  // --- The framer object ------------------------------------------------------------------

  class LineFramer {
    const maxLineLen: nat
    const rejectNul: bool
    var buffer: seq<Byte>
    var poisoned: bool
    var overflowed: bool

    function State(): Line
      reads this
    {
      Line(maxLineLen, rejectNul, buffer, poisoned, overflowed)
    }

    constructor (maxLineLen: nat, rejectNul: bool)
      requires 0 < maxLineLen <= USIZE_MAX
      ensures State() == NewLine(maxLineLen, rejectNul) && Ok(State())
    {
      this.maxLineLen, this.rejectNul := maxLineLen, rejectNul;
      buffer, poisoned, overflowed := [], false, false;
    }

    method FeedBytes(chunk: seq<Byte>) returns (consumed: nat)
      requires Ok(State())
      modifies this
      ensures (State(), consumed) == Feed(old(State()), chunk)
      ensures Ok(State()) && |buffer| <= maxLineLen + 2
    {
      FeedKeepsOk(State(), chunk);
      if poisoned || overflowed || chunk == [] || EndsInLf(buffer) {
        return 0;
      }
      var room := SaturatingSub(SaturatingAdd(maxLineLen, 2), |buffer|);
      var newline := IndexOf(chunk, LF);
      var through := if newline < |chunk| then newline + 1 else |chunk|;
      consumed := Min(room, through);
      buffer := buffer + chunk[..consumed];
      if consumed == room && !EndsInLf(buffer) {
        overflowed := true;
      }
    }

    method NextFrame() returns (decision: Decision<LineError>)
      requires Ok(State())
      modifies this
      ensures (State(), decision) == Next(old(State())) && Ok(State())
    {
      NextKeepsOk(State());
      if poisoned {
        return Malformed(EmbeddedNul);
      }
      if buffer != [] {
        var newline := IndexOf(buffer, LF);
        if rejectNul && 0 in buffer[..newline] {
          poisoned := true;
          return Malformed(EmbeddedNul);
        }
        if newline < |buffer| {
          var bodyEnd := if newline > 0 && buffer[newline - 1] == CR then newline - 1 else newline;
          if bodyEnd > maxLineLen {
            overflowed := true;
            return Full;
          }
          decision := Frame(buffer[..bodyEnd]);
          assert buffer[..bodyEnd] == Stripped(buffer[..newline]);
          buffer := [];
          return;
        }
      }
      return if overflowed then Full else NeedMore;
    }
  }
}
