/**
  `decode_chunk` over any codec that keeps the contract of the extension seam: one frame
  decision per pull, and progress on non-empty input.
 */
module SyncCodec {
  import opened Bytes

  datatype Decision<+M> = NeedMore | Frame(body: seq<Byte>) | Malformed(reason: M) | Full

  datatype Status<+M> = Waiting | Broken(reason: M) | OverCap

  /**
    A codec as functions of its state.  `ok` holds of every state its history can lead to, and
    `rank` bounds the frames it can still hand out without being fed.
   */
  datatype Codec<!S(!new), !M(!new)> = Codec(
    feed: (S, seq<Byte>) -> (S, nat),
    next: S -> (S, Decision<M>),
    ok: S -> bool,
    rank: S -> nat)

  /** A nonterminal codec consumes at least one byte of non-empty input. */
  ghost predicate Lawful<S(!new), M(!new)>(c: Codec<S, M>) {
    && (forall s :: c.ok(s) ==> c.ok(c.next(s).0))
    && (forall s :: c.ok(s) && c.next(s).1.Frame? ==> c.rank(c.next(s).0) < c.rank(s))
    && (forall s, b: seq<Byte> :: c.ok(s) ==> c.ok(c.feed(s, b).0))
    && (forall s, b: seq<Byte> :: c.ok(s) && c.next(s).1.NeedMore? && b != [] ==>
          1 <= c.feed(c.next(s).0, b).1 <= |b|)
  }

  /** What driving the codec over one chunk yields. */
  datatype Decoded<S, M> = Decoded(codec: S, frames: seq<seq<Byte>>, status: Status<M>)

  function Decode<S(!new), M(!new)>(c: Codec<S, M>, s: S, bytes: seq<Byte>): (r: Decoded<S, M>)
    requires Lawful(c) && c.ok(s)
    ensures c.ok(r.codec)
    decreases |bytes|, c.rank(s)
  {
    var (s1, decision) := c.next(s);
    match decision
    case Frame(body) =>
      var rest := Decode(c, s1, bytes);
      Prefixed([body], rest)
    case Malformed(reason) => Decoded(s1, [], Broken(reason))
    case Full => Decoded(s1, [], OverCap)
    case NeedMore =>
      if bytes == [] then Decoded(s1, [], Waiting)
      else
        var (s2, n) := c.feed(s1, bytes);
        Decode(c, s2, bytes[n..])
  }

  function Prefixed<S, M>(frames: seq<seq<Byte>>, r: Decoded<S, M>): Decoded<S, M> {
    r.(frames := frames + r.frames)
  }

  lemma {:induction false} PrefixedTwice<S, M>(a: seq<seq<Byte>>, b: seq<seq<Byte>>, r: Decoded<S, M>)
    ensures Prefixed(a, Prefixed(b, r)) == Prefixed(a + b, r)
  {
    assert a + (b + r.frames) == a + b + r.frames;
  }

  lemma {:induction false} StepIsLawful<S(!new), M(!new)>(c: Codec<S, M>, s: S, bytes: seq<Byte>)
    requires Lawful(c) && c.ok(s)
    ensures c.ok(c.next(s).0)
    ensures c.next(s).1.Frame? ==> c.rank(c.next(s).0) < c.rank(s)
    ensures c.next(s).1.NeedMore? && bytes != [] ==>
              c.ok(c.feed(c.next(s).0, bytes).0) && 1 <= c.feed(c.next(s).0, bytes).1 <= |bytes|
  {
  }

  /** One pull of the driver loop. */
  lemma {:induction false} DecodeStep<S(!new), M(!new)>(c: Codec<S, M>, s: S, bytes: seq<Byte>)
    requires Lawful(c) && c.ok(s)
    ensures c.ok(c.next(s).0)
    ensures var (s1, decision) := c.next(s);
            match decision
            case Frame(body) =>
              c.rank(s1) < c.rank(s) && Decode(c, s, bytes) == Prefixed([body], Decode(c, s1, bytes))
            case Malformed(reason) => Decode(c, s, bytes) == Decoded(s1, [], Broken(reason))
            case Full => Decode(c, s, bytes) == Decoded(s1, [], OverCap)
            case NeedMore =>
              if bytes == [] then Decode(c, s, bytes) == Decoded(s1, [], Waiting)
              else
                var (s2, n) := c.feed(s1, bytes);
                c.ok(s2) && 1 <= n <= |bytes| && Decode(c, s, bytes) == Decode(c, s2, bytes[n..])
  {
    hide Lawful;
    StepIsLawful(c, s, bytes);
  }

  /** Chunk after chunk, also after a terminal status. */
  function DecodeParts<S(!new), M(!new)>(c: Codec<S, M>, s: S, parts: seq<seq<Byte>>): (r: Decoded<S, M>)
    requires Lawful(c) && c.ok(s) && parts != []
    ensures c.ok(r.codec)
    decreases |parts|
  {
    var first := Decode(c, s, parts[0]);
    if |parts| == 1 then first
    else
      var rest := DecodeParts(c, first.codec, parts[1..]);
      Prefixed(first.frames, rest)
  }

  /** The driver loop: it terminates and its progress assertion never fires. */
  method DecodeChunk<S(!new), M(!new)>(c: Codec<S, M>, start: S, chunk: seq<Byte>)
    returns (codec: S, frames: seq<seq<Byte>>, status: Status<M>)
    requires Lawful(c) && c.ok(start)
    ensures Decoded(codec, frames, status) == Decode(c, start, chunk)
  {
    hide Lawful, Decode;
    var bytes := chunk;
    codec, frames := start, [];
    ghost var whole := Decode(c, start, chunk);
    while true
      invariant c.ok(codec) && whole == Prefixed(frames, Decode(c, codec, bytes))
      decreases |bytes|, c.rank(codec)
    {
      DecodeStep(c, codec, bytes);
      var (pulled, decision) := c.next(codec);
      codec := pulled;
      match decision
      case Frame(body) =>
        PrefixedTwice(frames, [body], Decode(c, codec, bytes));
        frames := frames + [body];
      case Malformed(reason) => return codec, frames, Broken(reason);
      case Full => return codec, frames, OverCap;
      case NeedMore =>
        if bytes == [] {
          return codec, frames, Waiting;
        }
        var (fed, consumed) := c.feed(codec, bytes);
        assert 0 < consumed <= |bytes|;
        codec, bytes := fed, bytes[consumed..];
    }
  }
}
