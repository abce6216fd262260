/** Length-prefixed framing, refined against a splitter that reads the whole stream. */
module LengthCodec {
  import opened Bytes
  import opened SyncCodec
  import opened BigEndianBytes

  datatype Prefix = U8 | U16 | U32

  function Width(p: Prefix): nat {
    match p
    case U8 => 1
    case U16 => 2
    case U32 => 4
  }

  function MaxOf(p: Prefix): nat {
    match p
    case U8 => 0xFF
    case U16 => 0xFFFF
    case U32 => 0xFFFF_FFFF
  }

  lemma {:induction false} WidthHoldsMax(p: Prefix)
    ensures MaxOf(p) < Pow256(Width(p))
  {
    assert Pow256(1) == 0x100;
    assert Pow256(2) == 0x1_0000;
    assert Pow256(4) == 0x1_0000_0000;
  }

  // --- The framer -------------------------------------------------------------------------

  /** The only malformed reason: the stream ended inside a frame. */
  datatype LengthError = UnexpectedEof

  datatype Framer = Framer(
    prefix: Prefix,
    maxBodyLen: nat,
    buffer: seq<Byte>,
    expected: Option<nat>,
    overflowed: bool,
    poisoned: bool)

  function NewFramer(prefix: Prefix, maxBodyLen: nat): Framer {
    Framer(prefix, maxBodyLen, [], None, false, false)
  }

  function Target(s: Framer): nat {
    if s.expected.Some? then s.expected.value else Width(s.prefix)
  }

  function Feed(s: Framer, chunk: seq<Byte>): (r: (Framer, nat)) {
    if s.overflowed || s.poisoned || chunk == [] then (s, 0)
    else
      var n := Min(SaturatingSub(Target(s), |s.buffer|), |chunk|);
      (s.(buffer := s.buffer + chunk[..n]), n)
  }

  function PullBody(s: Framer): (r: (Framer, Decision<LengthError>))
    requires s.expected.Some?
  {
    if |s.buffer| < s.expected.value then (s, if s.overflowed then Full else NeedMore)
    else (s.(buffer := [], expected := None), Frame(s.buffer))
  }

  function Next(s: Framer): (r: (Framer, Decision<LengthError>)) {
    if s.poisoned then (s, Malformed(UnexpectedEof))
    else if s.expected.Some? then PullBody(s)
    else if |s.buffer| < Width(s.prefix) then (s, if s.overflowed then Full else NeedMore)
    else
      var bodyLen := BigEndian(s.buffer[..Width(s.prefix)]);
      if bodyLen > s.maxBodyLen then (s.(overflowed := true, buffer := []), Full)
      else PullBody(s.(buffer := [], expected := Some(bodyLen)))
  }

  function Finish(s: Framer): (r: (Framer, Decision<LengthError>)) {
    if s.overflowed then (s, Full)
    else if s.poisoned then (s, Malformed(UnexpectedEof))
    else if s.expected.None? && s.buffer == [] then (s, NeedMore)
    else if s.expected == Some(0) then Next(s)
    else (s.(poisoned := true), Malformed(UnexpectedEof))
  }

  /** Holds after any history: the buffer never grows past the prefix or the announced body. */
  predicate Ok(s: Framer) {
    && 0 < s.maxBodyLen <= USIZE_MAX
    && |s.buffer| <= Target(s)
    && (s.expected.Some? ==> s.expected.value <= s.maxBodyLen)
    && (s.overflowed ==> s.buffer == [] && s.expected.None?)
  }

  function Rank(s: Framer): nat {
    if s.expected.Some? || |s.buffer| >= Width(s.prefix) then 1 else 0
  }

  const LENGTH_CODEC: Codec<Framer, LengthError> := Codec(Feed, Next, Ok, Rank)

  lemma {:induction false} FeedKeepsOk(s: Framer, b: seq<Byte>)
    requires Ok(s)
    ensures Ok(Feed(s, b).0) && Feed(s, b).1 <= |b|
    ensures Next(s).1.NeedMore? && b != [] ==> 1 <= Feed(Next(s).0, b).1
  {
  }

  lemma {:induction false} NextKeepsOk(s: Framer)
    requires Ok(s)
    ensures Ok(Next(s).0)
    ensures Next(s).1.Frame? ==> Rank(Next(s).0) < Rank(s)
  {
  }

  lemma {:induction false} NextIsLawful()
    ensures forall s :: LENGTH_CODEC.ok(s) ==> LENGTH_CODEC.ok(LENGTH_CODEC.next(s).0)
    ensures forall s :: LENGTH_CODEC.ok(s) && LENGTH_CODEC.next(s).1.Frame? ==>
                          LENGTH_CODEC.rank(LENGTH_CODEC.next(s).0) < LENGTH_CODEC.rank(s)
  {
    hide Feed, Next, Ok, Rank;
    forall s | Ok(s)
      ensures Ok(Next(s).0) && (Next(s).1.Frame? ==> Rank(Next(s).0) < Rank(s))
    {
      NextKeepsOk(s);
    }
  }

  lemma {:induction false} FeedIsLawful()
    ensures forall s, b: seq<Byte> :: LENGTH_CODEC.ok(s) ==> LENGTH_CODEC.ok(LENGTH_CODEC.feed(s, b).0)
    ensures forall s, b: seq<Byte> :: LENGTH_CODEC.ok(s) && LENGTH_CODEC.next(s).1.NeedMore? && b != [] ==>
                                        1 <= LENGTH_CODEC.feed(LENGTH_CODEC.next(s).0, b).1 <= |b|
  {
    hide Feed, Next, Ok, Rank;
    forall s, b: seq<Byte> | Ok(s)
      ensures Ok(Feed(s, b).0)
    {
      FeedKeepsOk(s, b);
    }
    forall s, b: seq<Byte> | Ok(s) && Next(s).1.NeedMore? && b != []
      ensures 1 <= Feed(Next(s).0, b).1 <= |b|
    {
      NextKeepsOk(s);
      FeedKeepsOk(s, b);
      FeedKeepsOk(Next(s).0, b);
    }
  }

  lemma {:induction false} LengthCodecIsLawful()
    ensures Lawful(LENGTH_CODEC)
  {
    hide Feed, Next, Ok, Rank;
    NextIsLawful();
    FeedIsLawful();
  }

  // --- The whole-stream splitter ----------------------------------------------------------

  datatype Split = Split(frames: seq<seq<Byte>>, status: Status<LengthError>, rest: seq<Byte>)

  function WithFrames(frames: seq<seq<Byte>>, r: Split): Split {
    r.(frames := frames + r.frames)
  }

  lemma {:induction false} WithFramesTwice(a: seq<seq<Byte>>, b: seq<seq<Byte>>, r: Split)
    ensures WithFrames(a, WithFrames(b, r)) == WithFrames(a + b, r)
  {
    assert a + (b + r.frames) == a + b + r.frames;
  }

  function SplitFrames(p: Prefix, max: nat, stream: seq<Byte>): (r: Split)
    decreases |stream|
  {
    var w := Width(p);
    if |stream| < w then Split([], Waiting, stream)
    else
      var n := BigEndian(stream[..w]);
      if n > max then Split([], OverCap, stream)
      else if |stream| < w + n then Split([], Waiting, stream)
      else WithFrames([stream[w..w + n]], SplitFrames(p, max, stream[w + n..]))
  }

  /** A whole frame at the front of the stream. */
  predicate HasFrame(p: Prefix, max: nat, x: seq<Byte>) {
    var w := Width(p);
    |x| >= w && BigEndian(x[..w]) <= max && |x| >= w + BigEndian(x[..w])
  }

  lemma {:induction false} SplitFirst(p: Prefix, max: nat, x: seq<Byte>)
    requires HasFrame(p, max, x)
    ensures var w := Width(p);
            var n := BigEndian(x[..w]);
            w + n > 0 && SplitFrames(p, max, x) == WithFrames([x[w..w + n]], SplitFrames(p, max, x[w + n..]))
  {
  }

  lemma {:induction false} SplitNone(p: Prefix, max: nat, x: seq<Byte>)
    requires !HasFrame(p, max, x)
    ensures var over := |x| >= Width(p) && BigEndian(x[..Width(p)]) > max;
            SplitFrames(p, max, x) == Split([], if over then OverCap else Waiting, x)
  {
  }

  lemma {:induction false} FrameAcross(x: seq<Byte>, y: seq<Byte>, w: nat, n: nat)
    requires w + n <= |x|
    ensures (x + y)[w..w + n] == x[w..w + n] && (x + y)[w + n..] == x[w + n..] + y
  {
  }

  /** What the splitter found in `x` it finds in `x + y`; the rest of `x` goes on with `y`. */
  lemma {:induction false} SplitExtends(p: Prefix, max: nat, x: seq<Byte>, y: seq<Byte>)
    ensures var a, b := SplitFrames(p, max, x), SplitFrames(p, max, x + y);
            if a.status.Waiting? then b == WithFrames(a.frames, SplitFrames(p, max, a.rest + y))
            else b.frames == a.frames && b.status == a.status
    decreases |x|
  {
    hide BigEndian, SplitFrames, Width;
    var w := Width(p);
    assert |x| >= w ==> (x + y)[..w] == x[..w];
    if HasFrame(p, max, x) {
      var n := BigEndian(x[..w]);
      SplitFirst(p, max, x);
      SplitFirst(p, max, x + y);
      FrameAcross(x, y, w, n);
      SplitExtends(p, max, x[w + n..], y);
      var a := SplitFrames(p, max, x[w + n..]);
      WithFramesTwice([x[w..w + n]], a.frames, SplitFrames(p, max, a.rest + y));
    } else {
      SplitNone(p, max, x);
      if |x| >= w && BigEndian(x[..w]) > max {
        SplitNone(p, max, x + y);
      }
    }
  }

  // --- Refinement -------------------------------------------------------------------------

  /** An unfinished frame: part of a prefix, or a prefix within the cap and part of its body. */
  ghost predicate Unfinished(p: Prefix, max: nat, rest: seq<Byte>) {
    SplitFrames(p, max, rest) == Split([], Waiting, rest)
  }

  /** The framer that has taken exactly the unfinished `rest`. */
  function At(p: Prefix, max: nat, rest: seq<Byte>): Framer {
    var w := Width(p);
    if |rest| < w then Framer(p, max, rest, None, false, false)
    else Framer(p, max, rest[w..], Some(BigEndian(rest[..w])), false, false)
  }

  lemma {:induction false} UnfinishedWaits(p: Prefix, max: nat, rest: seq<Byte>)
    requires 0 < max <= USIZE_MAX && Unfinished(p, max, rest)
    ensures Ok(At(p, max, rest)) && Next(At(p, max, rest)) == (At(p, max, rest), NeedMore)
  {
  }

  /** `decode_chunk` over the length-delimited framer. */
  function DecodeFrames(s: Framer, bytes: seq<Byte>): (r: Decoded<Framer, LengthError>)
    requires Ok(s)
    ensures Ok(r.codec)
  {
    LengthCodecIsLawful();
    Decode(LENGTH_CODEC, s, bytes)
  }

  /** One pull of `decode_chunk`, in the framer's own terms. */
  lemma {:induction false} FrameStep(s: Framer, bytes: seq<Byte>)
    requires Ok(s)
    ensures Ok(Next(s).0)
    ensures match Next(s).1
            case Frame(body) => DecodeFrames(s, bytes) == Prefixed([body], DecodeFrames(Next(s).0, bytes))
            case Malformed(reason) => DecodeFrames(s, bytes) == Decoded(Next(s).0, [], Broken(reason))
            case Full => DecodeFrames(s, bytes) == Decoded(Next(s).0, [], OverCap)
            case NeedMore =>
              if bytes == [] then DecodeFrames(s, bytes) == Decoded(Next(s).0, [], Waiting)
              else
                var (s2, n) := Feed(Next(s).0, bytes);
                Ok(s2) && 1 <= n <= |bytes| && DecodeFrames(s, bytes) == DecodeFrames(s2, bytes[n..])
  {
    hide Lawful, Decode, Feed, Next, Ok;
    LengthCodecIsLawful();
    DecodeStep(LENGTH_CODEC, s, bytes);
    NextKeepsOk(s);
  }

  /** What feeding `y` behind the unfinished `rest` takes, and what the next pull then says. */
  ghost predicate PulledAs(p: Prefix, max: nat, taken: seq<Byte>, r: (Framer, Decision<LengthError>)) {
    var split := SplitFrames(p, max, taken);
    match r.1
    case NeedMore => split == Split([], Waiting, taken) && r.0 == At(p, max, taken)
    case Full => split.status == OverCap && split.frames == [] && Next(r.0) == (r.0, Full)
    case Frame(body) => split == Split([body], Waiting, []) && r.0 == At(p, max, [])
    case Malformed(_) => false
  }

  lemma {:induction false} FeedPrefix(p: Prefix, max: nat, rest: seq<Byte>, y: seq<Byte>)
    requires 0 < max <= USIZE_MAX && |rest| < Width(p) && y != []
    ensures var (s, n) := Feed(At(p, max, rest), y);
            1 <= n <= |y| && PulledAs(p, max, rest + y[..n], Next(s))
  {
    hide BigEndian;
    var w := Width(p);
    var (s, n) := Feed(At(p, max, rest), y);
    var taken := rest + y[..n];
    assert s.buffer == taken && |taken| <= w;
    if |taken| == w {
      assert taken[..w] == taken && taken[w..] == [];
      assert taken[w..w] == [];
      assert SplitFrames(p, max, []) == Split([], Waiting, []);
    }
  }

  lemma {:induction false} FeedBody(p: Prefix, max: nat, rest: seq<Byte>, y: seq<Byte>)
    requires 0 < max <= USIZE_MAX && Unfinished(p, max, rest) && |rest| >= Width(p) && y != []
    ensures var (s, n) := Feed(At(p, max, rest), y);
            1 <= n <= |y| && PulledAs(p, max, rest + y[..n], Next(s))
  {
    hide BigEndian, Width;
    var w := Width(p);
    var (s, n) := Feed(At(p, max, rest), y);
    var taken := rest + y[..n];
    assert taken[..w] == rest[..w] && taken[w..] == s.buffer;
    var len := BigEndian(rest[..w]);
    if |taken| == w + len {
      assert taken[w..w + len] == s.buffer && taken[w + len..] == [];
      EmptyWaits(p, max);
    }
  }

  lemma {:induction false} EmptyWaits(p: Prefix, max: nat)
    ensures SplitFrames(p, max, []) == Split([], Waiting, [])
    ensures Width(p) > 0 && At(p, max, []) == NewFramer(p, max)
  {
  }

  ghost predicate DecodesAs(p: Prefix, max: nat, rest: seq<Byte>, y: seq<Byte>, r: Decoded<Framer, LengthError>) {
    var split := SplitFrames(p, max, rest + y);
    && r.frames == split.frames && r.status == split.status
    && (r.status.Waiting? ==> r.codec == At(p, max, split.rest) && Unfinished(p, max, split.rest))
    && (!r.status.Waiting? ==> r.status.OverCap? && Ok(r.codec) && Next(r.codec) == (r.codec, Full))
  }

  lemma {:induction false} DecodeAfterPull(p: Prefix, max: nat, taken: seq<Byte>, later: seq<Byte>, s: Framer)
    requires Ok(s) && PulledAs(p, max, taken, Next(s))
    requires Next(s).1.NeedMore? ==>
               && Ok(At(p, max, taken)) && Next(At(p, max, taken)) == (At(p, max, taken), NeedMore)
               && DecodesAs(p, max, taken, later, DecodeFrames(At(p, max, taken), later))
    requires Next(s).1.Frame? ==>
               Ok(At(p, max, [])) && DecodesAs(p, max, [], later, DecodeFrames(At(p, max, []), later))
    ensures DecodesAs(p, max, taken, later, DecodeFrames(s, later))
  {
    hide DecodeFrames, Feed, Next, Ok, SplitFrames, At, Width;
    FrameStep(s, later);
    match Next(s).1
    case NeedMore => FrameStep(At(p, max, taken), later);
    case _ => SplitExtends(p, max, taken, later);
  }

  lemma {:induction false} DecodeNothing(p: Prefix, max: nat, rest: seq<Byte>)
    requires 0 < max <= USIZE_MAX && Unfinished(p, max, rest)
    ensures Ok(At(p, max, rest)) && DecodesAs(p, max, rest, [], DecodeFrames(At(p, max, rest), []))
  {
    UnfinishedWaits(p, max, rest);
    hide DecodeFrames, Feed, Next, Ok, SplitFrames, At, Width;
    FrameStep(At(p, max, rest), []);
    assert rest + [] == rest;
  }

  /** One feed behind an unfinished frame, and the pull after it. */
  lemma {:induction false} FeedPulls(p: Prefix, max: nat, rest: seq<Byte>, y: seq<Byte>)
    requires 0 < max <= USIZE_MAX && Unfinished(p, max, rest) && y != []
    ensures Ok(At(p, max, rest))
    ensures var (s, n) := Feed(At(p, max, rest), y);
            && 1 <= n <= |y| && Ok(s) && PulledAs(p, max, rest + y[..n], Next(s))
            && DecodeFrames(At(p, max, rest), y) == DecodeFrames(s, y[n..])
  {
    UnfinishedWaits(p, max, rest);
    hide DecodeFrames, Feed, Next, Ok, SplitFrames, At, Width, PulledAs;
    FrameStep(At(p, max, rest), y);
    if |rest| < Width(p) {
      FeedPrefix(p, max, rest, y);
    } else {
      FeedBody(p, max, rest, y);
    }
  }

  /** Decoding from an unfinished frame is splitting that frame with what follows. */
  lemma {:induction false} DecodeIsSplit(p: Prefix, max: nat, rest: seq<Byte>, y: seq<Byte>)
    requires 0 < max <= USIZE_MAX && Unfinished(p, max, rest)
    ensures Ok(At(p, max, rest)) && DecodesAs(p, max, rest, y, DecodeFrames(At(p, max, rest), y))
    decreases |y|
  {
    hide DecodeFrames, Feed, Next, Ok, SplitFrames, At, Width;
    if y == [] {
      DecodeNothing(p, max, rest);
    } else {
      FeedPulls(p, max, rest, y);
      var (s, n) := Feed(At(p, max, rest), y);
      var taken, later := rest + y[..n], y[n..];
      assert rest + y == taken + later;
      if Next(s).1.NeedMore? {
        UnfinishedWaits(p, max, taken);
        DecodeIsSplit(p, max, taken, later);
      } else {
        EmptyWaits(p, max);
        DecodeIsSplit(p, max, [], later);
      }
      DecodeAfterPull(p, max, taken, later, s);
    }
  }

  // --- Partition invariance ---------------------------------------------------------------

  /** `decode_chunk` once per read, also after a terminal status. */
  function DecodeFrameParts(s: Framer, parts: seq<seq<Byte>>): (r: Decoded<Framer, LengthError>)
    requires Ok(s) && parts != []
    ensures Ok(r.codec)
  {
    LengthCodecIsLawful();
    DecodeParts(LENGTH_CODEC, s, parts)
  }

  lemma {:induction false} FramePartsStep(s: Framer, parts: seq<seq<Byte>>)
    requires Ok(s) && parts != []
    ensures var first := DecodeFrames(s, parts[0]);
            DecodeFrameParts(s, parts) ==
            if |parts| == 1 then first else Prefixed(first.frames, DecodeFrameParts(first.codec, parts[1..]))
  {
    hide Decode, Feed, Next, Ok, Lawful;
    LengthCodecIsLawful();
  }

  /** After `Full` no later read changes anything. */
  lemma {:induction false} FullForever(s: Framer, parts: seq<seq<Byte>>)
    requires Ok(s) && parts != [] && Next(s) == (s, Full)
    ensures DecodeFrameParts(s, parts) == Decoded(s, [], OverCap)
    decreases |parts|
  {
    hide DecodeFrames, DecodeFrameParts, Feed, Next, Ok;
    FramePartsStep(s, parts);
    FrameStep(s, parts[0]);
    if |parts| > 1 {
      FullForever(s, parts[1..]);
    }
  }

  lemma {:induction false} PartsAreSplit(p: Prefix, max: nat, rest: seq<Byte>, parts: seq<seq<Byte>>)
    requires 0 < max <= USIZE_MAX && Unfinished(p, max, rest) && parts != []
    ensures Ok(At(p, max, rest))
    ensures var r := DecodeFrameParts(At(p, max, rest), parts);
            var split := SplitFrames(p, max, rest + Concat(parts));
            && r.frames == split.frames && r.status == split.status
            && (r.status.Waiting? ==> r.codec == At(p, max, split.rest))
            && (!r.status.Waiting? ==> Next(r.codec) == (r.codec, Full))
    decreases |parts|
  {
    hide DecodeFrames, DecodeFrameParts, Feed, Next, Ok, SplitFrames, At;
    var first, later := parts[0], Concat(parts[1..]);
    DecodeIsSplit(p, max, rest, first);
    FramePartsStep(At(p, max, rest), parts);
    assert rest + Concat(parts) == rest + first + later;
    SplitExtends(p, max, rest + first, later);
    var r := DecodeFrames(At(p, max, rest), first);
    if |parts| == 1 {
      assert later == [] && rest + first + later == rest + first;
    } else if r.status.Waiting? {
      PartsAreSplit(p, max, SplitFrames(p, max, rest + first).rest, parts[1..]);
    } else {
      FullForever(r.codec, parts[1..]);
    }
  }

  /**
    However a stream is cut into reads, `decode_chunk` emits the frames and ends in the status
    of the whole-stream splitter, and a clean end of stream is a frame boundary.
   */
  lemma {:induction false} LengthPartitionInvariance(p: Prefix, max: nat, parts: seq<seq<Byte>>)
    requires 0 < max <= USIZE_MAX && parts != []
    ensures Ok(NewFramer(p, max))
    ensures var r := DecodeFrameParts(NewFramer(p, max), parts);
            var split := SplitFrames(p, max, Concat(parts));
            && r.frames == split.frames && r.status == split.status
            && (r.status.Waiting? ==> (Finish(r.codec).1.NeedMore? <==> split.rest == []))
  {
    hide DecodeFrameParts, SplitFrames;
    assert [] + Concat(parts) == Concat(parts);
    EmptyWaits(p, max);
    PartsAreSplit(p, max, [], parts);
  }

  /** The end of the stream after any reads: the cap again, clean between frames, or cut off. */
  lemma {:induction false} FinishAfterParts(p: Prefix, max: nat, parts: seq<seq<Byte>>)
    requires 0 < max <= USIZE_MAX && parts != []
    ensures Ok(NewFramer(p, max))
    ensures var split := SplitFrames(p, max, Concat(parts));
            Finish(DecodeFrameParts(NewFramer(p, max), parts).codec).1
            == if split.status.OverCap? then Full
               else if split.rest == [] then NeedMore
               else Malformed(UnexpectedEof)
  {
    hide DecodeFrameParts, SplitFrames;
    assert [] + Concat(parts) == Concat(parts);
    EmptyWaits(p, max);
    PartsAreSplit(p, max, [], parts);
    SplitStops(p, max, Concat(parts));
    var r := DecodeFrameParts(NewFramer(p, max), parts);
    assert Ok(r.codec);
  }

  /** A split waits or is over the cap, and a rest that waits is not a whole frame. */
  lemma {:induction false} SplitStops(p: Prefix, max: nat, stream: seq<Byte>)
    ensures var r := SplitFrames(p, max, stream);
            && !r.status.Broken?
            && (r.status.Waiting? && |r.rest| >= Width(p) ==> |r.rest| < Width(p) + BigEndian(r.rest[..Width(p)]))
    decreases |stream|
  {
    hide BigEndian, Width;
    if HasFrame(p, max, stream) {
      SplitFirst(p, max, stream);
      SplitStops(p, max, stream[Width(p) + BigEndian(stream[..Width(p)])..]);
    }
  }

  /** After any reads the framer buffers at most a prefix or a body within the cap. */
  lemma {:induction false} BufferIsBounded(p: Prefix, max: nat, parts: seq<seq<Byte>>)
    requires 0 < max <= USIZE_MAX && parts != []
    ensures Ok(NewFramer(p, max))
    ensures |DecodeFrameParts(NewFramer(p, max), parts).codec.buffer| <= Max(Width(p), max)
  {
    hide DecodeFrameParts, SplitFrames;
    assert [] + Concat(parts) == Concat(parts);
    EmptyWaits(p, max);
    PartsAreSplit(p, max, [], parts);
    var r := DecodeFrameParts(NewFramer(p, max), parts);
    assert Ok(r.codec);
  }

  // --- Round trip -------------------------------------------------------------------------

  /** `encode_into`: the bytes appended, or `None` when the prefix cannot hold the length. */
  function Encode(p: Prefix, body: seq<Byte>): Option<seq<Byte>> {
    if |body| > MaxOf(p) then None else Some(ToBytes(|body|, Width(p)) + body)
  }

  /** The wire format, byte by byte, and the bodies each prefix can announce. */
  lemma {:induction false} WireFormat(p: Prefix, body: seq<Byte>)
    ensures var n := |body|;
            Encode(p, body)
            == match p
               case U8 => if n <= 255 then Some([n] + body) else None
               case U16 => if n <= 65535 then Some([n / 256, n % 256] + body) else None
               case U32 =>
                 if n <= 4294967295 then
                   Some([n / 0x100_0000, n / 0x1_0000 % 0x100, n / 0x100 % 0x100, n % 0x100] + body)
                 else None
  {
    hide ToBytes;
    NetworkOrder(|body|);
  }

  function EncodeAll(p: Prefix, bodies: seq<seq<Byte>>): seq<Byte>
    requires forall i :: 0 <= i < |bodies| ==> |bodies[i]| <= MaxOf(p)
  {
    if bodies == [] then [] else Encode(p, bodies[0]).value + EncodeAll(p, bodies[1..])
  }

  /** Encoded bodies put end to end split back into exactly those bodies. */
  lemma {:induction false} LengthRoundTrip(p: Prefix, max: nat, bodies: seq<seq<Byte>>)
    requires forall i :: 0 <= i < |bodies| ==> |bodies[i]| <= MaxOf(p) && |bodies[i]| <= max
    ensures SplitFrames(p, max, EncodeAll(p, bodies)) == Split(bodies, Waiting, [])
  {
    hide SplitFrames, BigEndian, ToBytes;
    if bodies == [] {
      EmptyWaits(p, max);
    } else {
      var body, w := bodies[0], Width(p);
      var stream, later := EncodeAll(p, bodies), EncodeAll(p, bodies[1..]);
      WidthHoldsMax(p);
      BytesRoundTrip(|body|, w);
      assert stream == ToBytes(|body|, w) + (body + later);
      assert stream[..w] == ToBytes(|body|, w);
      assert stream[w..w + |body|] == body && stream[w + |body|..] == later;
      SplitFirst(p, max, stream);
      LengthRoundTrip(p, max, bodies[1..]);
    }
  }

  /** Those bodies read through `decode_chunk`, however the wire is cut, and a clean end behind them. */
  lemma {:induction false} LengthRoundTripInParts(p: Prefix, max: nat, bodies: seq<seq<Byte>>, parts: seq<seq<Byte>>)
    requires 0 < max <= USIZE_MAX && parts != []
    requires forall i :: 0 <= i < |bodies| ==> |bodies[i]| <= MaxOf(p) && |bodies[i]| <= max
    requires Concat(parts) == EncodeAll(p, bodies)
    ensures Ok(NewFramer(p, max))
    ensures var r := DecodeFrameParts(NewFramer(p, max), parts);
            r.frames == bodies && r.status.Waiting? && Finish(r.codec).1.NeedMore?
  {
    hide DecodeFrameParts, SplitFrames, Finish, EncodeAll;
    LengthPartitionInvariance(p, max, parts);
    LengthRoundTrip(p, max, bodies);
  }

  /** A body the prefix cannot announce is refused, and only such a body. */
  method EncodeInto(p: Prefix, body: seq<Byte>, into: seq<Byte>) returns (grown: seq<Byte>, appended: Option<nat>)
    ensures appended.None? <==> |body| > MaxOf(p)
    ensures appended.None? ==> grown == into
    ensures appended.Some? ==> Encode(p, body).Some? && grown == into + Encode(p, body).value
    ensures appended.Some? ==>
              && into <= grown && appended.value == |grown| - |into| == Width(p) + |body|
              && BigEndian(grown[|into|..|into| + Width(p)]) == |body|
              && grown[|into| + Width(p)..] == body
  {
    hide BigEndian, ToBytes;
    grown := into;
    if |body| > MaxOf(p) {
      return grown, None;
    }
    WidthHoldsMax(p);
    BytesRoundTrip(|body|, Width(p));
    grown := grown + ToBytes(|body|, Width(p));
    assert grown[|into|..] == ToBytes(|body|, Width(p));
    grown := grown + body;
    assert grown[|into|..|into| + Width(p)] == ToBytes(|body|, Width(p));
    appended := Some(|grown| - |into|);
  }

  // --- The framer object ------------------------------------------------------------------

  class LengthDelimitedFramer {
    const prefix: Prefix
    const maxBodyLen: nat
    var buffer: seq<Byte>
    var expectedBodyLen: Option<nat>
    var overflowed: bool
    var poisoned: bool

    function State(): Framer
      reads this
    {
      Framer(prefix, maxBodyLen, buffer, expectedBodyLen, overflowed, poisoned)
    }

    constructor (prefix: Prefix, maxBodyLen: nat)
      requires 0 < maxBodyLen <= USIZE_MAX
      ensures State() == NewFramer(prefix, maxBodyLen) && Ok(State())
    {
      this.prefix, this.maxBodyLen := prefix, maxBodyLen;
      buffer, expectedBodyLen, overflowed, poisoned := [], None, false, false;
    }

    method FeedBytes(chunk: seq<Byte>) returns (consumed: nat)
      requires Ok(State())
      modifies this
      ensures (State(), consumed) == Feed(old(State()), chunk)
      ensures Ok(State()) && |buffer| <= Max(Width(prefix), maxBodyLen)
    {
      FeedKeepsOk(State(), chunk);
      if overflowed || poisoned || chunk == [] {
        return 0;
      }
      var target := if expectedBodyLen.Some? then expectedBodyLen.value else Width(prefix);
      consumed := Min(SaturatingSub(target, |buffer|), |chunk|);
      buffer := buffer + chunk[..consumed];
    }

    method NextFrame() returns (decision: Decision<LengthError>)
      requires Ok(State())
      modifies this
      ensures (State(), decision) == Next(old(State())) && Ok(State())
    {
      NextKeepsOk(State());
      if poisoned {
        return Malformed(UnexpectedEof);
      }
      if expectedBodyLen.None? {
        var width := Width(prefix);
        if |buffer| < width {
          return if overflowed then Full else NeedMore;
        }
        var bodyLen := BigEndian(buffer[..width]);
        buffer := [];
        if bodyLen > maxBodyLen {
          overflowed := true;
          return Full;
        }
        expectedBodyLen := Some(bodyLen);
      }
      if |buffer| < expectedBodyLen.value {
        return if overflowed then Full else NeedMore;
      }
      decision := Frame(buffer);
      buffer, expectedBodyLen := [], None;
    }
  }
}
