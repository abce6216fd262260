/**
  Feeding a wire in pieces.  Every caller resubmits the unconsumed tail in front of the next
  read; the theorem says exactly which wires decode the same however they are cut.
 */
module ChunkedPartition {
  import opened Bytes
  import opened ChunkedSpec
  import ChunkSizeLine

  /** Feeds `parts` one read at a time, keeping the unconsumed `tail`, until a final result. */
  function FeedParts(d: Decoder, tail: seq<Byte>, parts: seq<seq<Byte>>): (r: Outcome)
    requires d.Valid()
    ensures r.dec.Valid()
    decreases |parts|
  {
    if parts == [] then Outcome(d, [], NeedMore, 0)
    else
      var raw := tail + parts[0];
      var r := FeedAll(d, raw);
      if r.result.NeedMore? then
        After(r.out, r.consumed, FeedParts(r.dec, raw[r.consumed..], parts[1..]))
      else r
  }

  /**
    The size line that starts in `saved` and goes on in `w` has no CR that another byte than LF
    follows where a cut could leave it at the end of the saved line, and is not a size of exactly
    63 bytes, which fits the saved line only without its CR.
   */
  predicate LineRobust(saved: seq<Byte>, w: seq<Byte>) {
    var i := FirstCrlf(w);
    && (forall j :: 0 <= j < i && j + 1 < |w| && |saved| + j + 1 < MAX_SIZE_LINE_LEN ==> w[j] != CR)
    && !(i < |w| && |saved| + i + 1 == MAX_SIZE_LINE_LEN && ChunkSizeLine.Parse(saved + w[..i]).Some?)
  }

  /** Every size line that decoding `w` reaches is robust. */
  predicate Robust(d: Decoder, w: seq<Byte>)
    requires d.Valid()
    decreases |w|
  {
    && (d.phase.Size? && !EndsWithCr(d.sizeLine) ==> LineRobust(d.sizeLine, w))
    && var t := NextTurn(d, w);
       (!t.Halt? ==> Robust(t.dec, w[t.consumed..]))
  }

  /** Same data and result; and the same decoder and length unless decoding failed. */
  ghost predicate Same(a: Outcome, b: Outcome) {
    && a.out == b.out && a.result == b.result
    && (!a.result.Failed? ==> a == b)
  }

  /** What feeding `x`, then the rest with `y`, must amount to. */
  ghost predicate Splits(d: Decoder, x: seq<Byte>, y: seq<Byte>)
    requires d.Valid()
  {
    var r := FeedAll(d, x);
    var whole := FeedAll(d, x + y);
    if r.result.NeedMore? then
      var rest := x[r.consumed..] + y;
      Robust(r.dec, rest) && Same(whole, After(r.out, r.consumed, FeedAll(r.dec, rest)))
    else Same(whole, r)
  }

  /** What a turn does, short of how a size line is read. */
  lemma {:induction false} TurnShape(d: Decoder, input: seq<Byte>)
    requires d.Valid()
    ensures var t := NextTurn(d, input);
            && (input == [] ==> t == Halt(d, if d.phase.Done? then Complete else NeedMore, 0))
            && (t.Emit? <==> d.phase.Data? && input != [])
            && (t.Emit? ==> t.consumed == Min(d.phase.remaining, |input|))
            && (t.Continue? ==> d.phase.Size? || d.phase.DataCrlf?)
            && (t.Continue? && d.phase.Size? ==> t.dec.phase.Trailers? || t.dec.phase.Data?)
            && (t.Halt? && t.result.Failed? && d.phase.Trailers? ==> t.result == Failed(TrailersNotSupported))
            && (d.phase.Done? ==> t == Halt(d, Complete, 0))
  {
    hide FeedSize;
  }

  // --- Sufficiency ------------------------------------------------------------------------

  lemma {:induction false} FirstCrlfIs(s: seq<Byte>, i: nat)
    requires CrlfAt(s, i) && forall j :: 0 <= j < i ==> !CrlfAt(s, j)
    ensures FirstCrlf(s) == i
  {
  }

  /** A line end found in `x` is the one found in `x + y`. */
  lemma {:induction false} FirstCrlfExtends(x: seq<Byte>, y: seq<Byte>)
    ensures FirstCrlf(x) < |x| ==> FirstCrlf(x + y) == FirstCrlf(x)
    ensures FirstCrlf(x) == |x| && !EndsWithCr(x) ==> FirstCrlf(x + y) == |x| + FirstCrlf(y)
    ensures FirstCrlf(x) == |x| && EndsWithCr(x) && y != [] && y[0] == LF ==> FirstCrlf(x + y) == |x| - 1
    ensures FirstCrlf(x) == |x| ==> FirstCrlf(x + y) >= |x| - 1
  {
    hide FirstCrlf;
    var i := FirstCrlf(x);
    var w := x + y;
    assert forall j :: 0 <= j && j + 1 < |x| ==> CrlfAt(w, j) == CrlfAt(x, j);
    assert forall j :: |x| <= j ==> CrlfAt(w, j) == CrlfAt(y, j - |x|);
    if i < |x| {
      FirstCrlfIs(w, i);
    } else if EndsWithCr(x) {
      if y != [] && y[0] == LF {
        FirstCrlfIs(w, |x| - 1);
      }
    } else {
      var k := FirstCrlf(y);
      assert !CrlfAt(w, |x| - 1);
      if k < |y| {
        assert CrlfAt(w, |x| + k);
        FirstCrlfIs(w, |x| + k);
      } else {
        assert forall j :: 0 <= j < |w| ==> !CrlfAt(w, j);
      }
    }
  }

  function Shift(r: SizeResult, n: nat): SizeResult {
    match r
    case SizeComplete(size, consumed) => SizeComplete(size, n + consumed)
    case SizeNeedMore(saved, consumed) => SizeNeedMore(saved, n + consumed)
    case SizeError(error, consumed) => SizeError(error, n + consumed)
  }

  /** A saved line that ends in CR is finished by the LF of the next read. */
  lemma {:induction false} SizeResumesAfterCr(saved: seq<Byte>, x: seq<Byte>, y: seq<Byte>)
    requires |saved| + |x| < MAX_SIZE_LINE_LEN && !EndsWithCr(saved)
    requires FirstCrlf(x) == |x| && EndsWithCr(x) && y != []
    requires LineRobust(saved, x + y)
    ensures FeedSize(saved, x + y) == Shift(FeedSize(saved + x, y), |x|)
  {
    hide FirstCrlf, ChunkSizeLine.Parse;
    assert (x + y)[|x| - 1] == CR && (x + y)[|x|] == y[0];
    FirstCrlfExtends(x, y);
    assert y[0] == LF;
    assert (saved + x)[..|saved + x| - 1] == saved + (x + y)[..|x| - 1];
  }

  lemma {:induction false} PrefixAcrossCut(saved: seq<Byte>, x: seq<Byte>, y: seq<Byte>, k: nat)
    requires k <= |y|
    ensures saved + (x + y)[..|x| + k] == saved + x + y[..k]
  {
    assert (x + y)[..|x| + k] == x + y[..k];
  }

  /** A saved line that does not end in CR goes on with the next read. */
  lemma {:induction false} SizeResumes(saved: seq<Byte>, x: seq<Byte>, y: seq<Byte>)
    requires |saved| + |x| < MAX_SIZE_LINE_LEN && x != [] && !EndsWithCr(x) && !EndsWithCr(saved)
    requires FirstCrlf(x) == |x|
    ensures FeedSize(saved, x + y) == Shift(FeedSize(saved + x, y), |x|)
  {
    hide FirstCrlf, ChunkSizeLine.Parse, CrlfAt;
    FirstCrlfExtends(x, y);
    var k := FirstCrlf(y);
    assert !EndsWithCr(saved + x);
    PrefixAcrossCut(saved, x, y, k);
    if k == |y| {
      assert y[..k] == y && (x + y)[..|x| + k] == x + y;
    }
  }

  lemma {:induction false} LineRobustResumes(saved: seq<Byte>, x: seq<Byte>, y: seq<Byte>)
    requires !EndsWithCr(x) && FirstCrlf(x) == |x| && LineRobust(saved, x + y)
    ensures LineRobust(saved + x, y)
  {
    hide FirstCrlf, ChunkSizeLine.Parse, CrlfAt;
    FirstCrlfExtends(x, y);
    var k := FirstCrlf(y);
    PrefixAcrossCut(saved, x, y, k);
    forall j | 0 <= j < k && j + 1 < |y| && |saved + x| + j + 1 < MAX_SIZE_LINE_LEN
      ensures y[j] != CR
    {
      assert (x + y)[|x| + j] == y[j];
    }
  }

  /** A size line that `x` alone already refuses is refused in `x + y` for the same reason. */
  lemma {:induction false} SizeErrorExtends(saved: seq<Byte>, x: seq<Byte>, y: seq<Byte>)
    requires |saved| < MAX_SIZE_LINE_LEN && x != []
    requires EndsWithCr(saved) || LineRobust(saved, x + y)
    requires !FeedSize(saved, x).SizeNeedMore?
    ensures var a := FeedSize(saved, x);
            var b := FeedSize(saved, x + y);
            a == b || (a.SizeError? && b.SizeError? && a.error == b.error)
  {
    FirstCrlfExtends(x, y);
    var i := FirstCrlf(x);
    if i < |x| {
      assert (x + y)[..i] == x[..i];
    }
  }

  /** A turn that goes on does so whatever bytes come after. */
  lemma {:induction false} TurnExtends(d: Decoder, x: seq<Byte>, y: seq<Byte>)
    requires d.Valid() && Robust(d, x + y)
    requires var t := NextTurn(d, x);
             t.Continue? || (t.Emit? && d.phase.remaining <= |x|)
    ensures NextTurn(d, x + y) == NextTurn(d, x)
  {
    if d.phase.Size? {
      SizeErrorExtends(d.sizeLine, x, y);
    }
  }

  /** The turn `u` is the turn `v` with `n` bytes taken before it. */
  predicate Shifted(u: DecodeTurn, v: DecodeTurn, n: nat) {
    match v
    case Continue(e, m) => u == Continue(e, n + m)
    case Emit(e, m) => u == Emit(e, n + m)
    case Halt(e, result, m) => u.Halt? && u.result == result && (result.Failed? || u == Halt(e, result, n + m))
  }

  /** Chunk data may be cut anywhere. */
  lemma {:induction false} DataSplits(d: Decoder, x: seq<Byte>, y: seq<Byte>)
    requires d.Valid() && d.phase.Data? && 0 < |x| < d.phase.remaining
    requires Robust(d, x + y)
    ensures Splits(d, x, y)
  {
    var t := NextTurn(d, x);
    assert NextTurn(t.dec, []) == Halt(t.dec, NeedMore, 0);
    assert x[t.consumed..] == [] && x[..t.consumed] == x && x[|x|..] + y == y && t.Emit?;
    if y == [] {
      assert x + y == x;
    } else {
      var v := NextTurn(t.dec, y);
      assert v.Emit? && Shifted(NextTurn(d, x + y), v, |x|) && !t.dec.phase.Size?;
      DataSplitsByTurns(d, x, y);
    }
  }

  lemma {:induction false} DataSplitsByTurns(d: Decoder, x: seq<Byte>, y: seq<Byte>)
    requires d.Valid() && Robust(d, x + y)
    requires var t := NextTurn(d, x);
             && t.Emit? && t.consumed == |x| && !t.dec.phase.Size?
             && NextTurn(t.dec, []) == Halt(t.dec, NeedMore, 0)
             && NextTurn(t.dec, y).Emit? && Shifted(NextTurn(d, x + y), NextTurn(t.dec, y), |x|)
    ensures Splits(d, x, y)
  {
    hide NextTurn, LineRobust;
    var t := NextTurn(d, x);
    var v := NextTurn(t.dec, y);
    var u := NextTurn(d, x + y);
    assert x[|x|..] == [] && x[..|x|] == x && x[|x|..] + y == y;
    assert (x + y)[u.consumed..] == y[v.consumed..];
    assert (x + y)[..u.consumed] == x + y[..v.consumed];
    assert FeedAll(d, x) == Outcome(t.dec, x, NeedMore, |x|) by {
      assert FeedAll(t.dec, []) == Outcome(t.dec, [], NeedMore, 0);
      assert x + [] == x;
    }
    assert Robust(t.dec, y);
    var rest := FeedAll(v.dec, y[v.consumed..]);
    AfterAfter(x, |x|, y[..v.consumed], v.consumed, rest);
    assert FeedAll(d, x + y) == After(x + y[..v.consumed], u.consumed, rest);
  }

  /** A turn that halts for more input, resumed by the turn that follows it. */
  lemma {:induction false} HaltSplitsByTurns(d: Decoder, x: seq<Byte>, y: seq<Byte>)
    requires d.Valid() && Robust(d, x + y)
    requires var t := NextTurn(d, x);
             var rest := x[t.consumed..] + y;
             && t.Halt? && t.result.NeedMore?
             && !NextTurn(t.dec, rest).Emit? && Shifted(NextTurn(d, x + y), NextTurn(t.dec, rest), t.consumed)
             && (t.dec.phase.Size? && !EndsWithCr(t.dec.sizeLine) ==> LineRobust(t.dec.sizeLine, rest))
    ensures Splits(d, x, y)
  {
    hide NextTurn, LineRobust;
    var t := NextTurn(d, x);
    var rest := x[t.consumed..] + y;
    var v := NextTurn(t.dec, rest);
    var u := NextTurn(d, x + y);
    if v.Continue? {
      assert (x + y)[u.consumed..] == rest[v.consumed..];
      AfterAfter([], t.consumed, [], v.consumed, FeedAll(v.dec, rest[v.consumed..]));
    }
  }

  lemma {:induction false} SizeSplits(d: Decoder, x: seq<Byte>, y: seq<Byte>)
    requires d.Valid() && d.phase.Size? && x != [] && NextTurn(d, x).Halt?
    requires Robust(d, x + y)
    ensures Splits(d, x, y)
  {
    var t := NextTurn(d, x);
    if !t.result.NeedMore? {
      SizeErrorExtends(d.sizeLine, x, y);
    } else if y == [] {
      assert x[|x|..] + y == [] && x + y == x;
      assert NextTurn(t.dec, []) == Halt(t.dec, NeedMore, 0);
    } else {
      hide FeedAll, FeedSize, NextTurn, Splits, LineRobust;
      SizeTurnResumes(d, x, y);
      assert x[|x|..] + y == y;
      HaltSplitsByTurns(d, x, y);
    }
  }

  lemma {:induction false} SizeTurnResumes(d: Decoder, x: seq<Byte>, y: seq<Byte>)
    requires d.Valid() && d.phase.Size? && x != [] && y != []
    requires NextTurn(d, x).Halt? && NextTurn(d, x).result.NeedMore?
    requires EndsWithCr(d.sizeLine) || LineRobust(d.sizeLine, x + y)
    ensures var t := NextTurn(d, x);
            && t.consumed == |x|
            && Shifted(NextTurn(d, x + y), NextTurn(t.dec, y), |x|) && !NextTurn(t.dec, y).Emit?
            && (t.dec.phase.Size? && !EndsWithCr(t.dec.sizeLine) ==> LineRobust(t.dec.sizeLine, y))
  {
    hide FeedSize, LineRobust;
    var saved := d.sizeLine;
    SizeNeedsMore(saved, x);
    if EndsWithCr(x) {
      SizeResumesAfterCr(saved, x, y);
    } else {
      SizeResumes(saved, x, y);
      LineRobustResumes(saved, x, y);
    }
  }

  lemma {:induction false} SizeNeedsMore(saved: seq<Byte>, x: seq<Byte>)
    requires |saved| < MAX_SIZE_LINE_LEN && x != [] && FeedSize(saved, x).SizeNeedMore?
    ensures !EndsWithCr(saved) && FirstCrlf(x) == |x| && EndsWithCr(saved + x) == EndsWithCr(x)
    ensures |saved| + |x| < MAX_SIZE_LINE_LEN
  {
  }

  /** One cut: what `x` yields and then the rest yields is what the whole yields. */
  lemma {:induction false} SplitsNothing(d: Decoder, y: seq<Byte>)
    requires d.Valid() && Robust(d, y)
    ensures Splits(d, [], y)
  {
    hide NextTurn, LineRobust;
    TurnShape(d, []);
    TurnShape(d, y);
    assert [] + y == y && [][0..] + y == y;
    AfterNothing(FeedAll(d, y));
  }

  lemma {:induction false} SplitAnywhere(d: Decoder, x: seq<Byte>, y: seq<Byte>)
    requires d.Valid() && Robust(d, x + y)
    ensures Splits(d, x, y)
    decreases |x|
  {
    hide FeedAll, NextTurn, LineRobust, Splits;
    TurnShape(d, x);
    var t := NextTurn(d, x);
    if x == [] {
      assert x + y == y;
      SplitsNothing(d, y);
    } else if t.Emit? && |x| < d.phase.remaining {
      DataSplits(d, x, y);
    } else if !t.Halt? {
      var n := t.consumed;
      TurnExtends(d, x, y);
      assert (x + y)[n..] == x[n..] + y && (x + y)[..n] == x[..n];
      SplitAnywhere(t.dec, x[n..], y);
      SplitsAfterTurn(d, x, y);
    } else if d.phase.Size? {
      SizeSplits(d, x, y);
    } else {
      HaltSplits(d, x, y);
    }
  }

  lemma {:induction false} HaltSplits(d: Decoder, x: seq<Byte>, y: seq<Byte>)
    requires d.Valid() && x != [] && NextTurn(d, x).Halt? && !d.phase.Size?
    requires Robust(d, x + y)
    ensures Splits(d, x, y)
  {
    var t := NextTurn(d, x);
    assert (x + y)[0] == x[0];
    if !t.result.NeedMore? {
      assert Shifted(NextTurn(d, x + y), t, 0);
    } else if y == [] {
      assert x + y == x && x[t.consumed..] + y == x[t.consumed..];
      assert NextTurn(t.dec, x[t.consumed..]) == Halt(t.dec, NeedMore, 0);
    } else {
      HaltSplitsByTurns(d, x, y);
    }
  }

  lemma {:induction false} SplitsAfterTurn(d: Decoder, x: seq<Byte>, y: seq<Byte>)
    requires d.Valid()
    requires var t := NextTurn(d, x);
             !t.Halt? && NextTurn(d, x + y) == t && Splits(t.dec, x[t.consumed..], y)
    ensures Splits(d, x, y)
  {
    hide NextTurn, Robust;
    var t := NextTurn(d, x);
    var n := t.consumed;
    assert (x + y)[n..] == x[n..] + y && (x + y)[..n] == x[..n];
    var r := FeedAll(t.dec, x[n..]);
    assert x[n..][r.consumed..] == x[n + r.consumed..];
    var out := if t.Emit? then x[..n] else [];
    AfterAfter(out, n, r.out, r.consumed, FeedAll(r.dec, x[n + r.consumed..] + y));
  }

  // --- What a feed leaves behind ----------------------------------------------------------

  /** Feeding the tail again changes nothing: the decoder really waits for new bytes. */
  ghost predicate Waiting(d: Decoder, tail: seq<Byte>)
    requires d.Valid()
  {
    && FeedAll(d, tail) == Outcome(d, [], NeedMore, 0)
    && (tail == [] || (d.phase.DataCrlf? && |tail| == 1))
  }

  /** After `NeedMore` at most the first byte of a data CRLF is left unconsumed. */
  lemma {:induction false} NeedMoreWaits(d: Decoder, x: seq<Byte>)
    requires d.Valid() && FeedAll(d, x).result.NeedMore?
    ensures var r := FeedAll(d, x); Waiting(r.dec, x[r.consumed..])
    decreases |x|
  {
    hide NextTurn, Waiting;
    var t := NextTurn(d, x);
    if !t.Halt? {
      NeedMoreWaits(t.dec, x[t.consumed..]);
      var r := FeedAll(t.dec, x[t.consumed..]);
      assert x[t.consumed..][r.consumed..] == x[t.consumed + r.consumed..];
    } else {
      HaltWaits(d, x);
    }
  }

  /** A turn halts for more input having taken all there is, or before half a data CRLF. */
  lemma {:induction false} HaltLeaves(d: Decoder, x: seq<Byte>)
    requires d.Valid() && NextTurn(d, x).Halt? && NextTurn(d, x).result.NeedMore?
    ensures var t := NextTurn(d, x);
            && !t.dec.phase.Done?
            && (t.consumed == |x| || (t.consumed == 0 && t.dec == d && d.phase.DataCrlf? && |x| == 1))
  {
    hide FeedSize;
  }

  lemma {:induction false} HaltWaits(d: Decoder, x: seq<Byte>)
    requires d.Valid() && NextTurn(d, x).Halt? && NextTurn(d, x).result.NeedMore?
    ensures var t := NextTurn(d, x); Waiting(t.dec, x[t.consumed..])
  {
    hide NextTurn;
    HaltLeaves(d, x);
    var t := NextTurn(d, x);
    assert x[0..] == x;
    TurnShape(t.dec, x[t.consumed..]);
  }

  /** Robust wires decode the same in pieces as at once: data, result, and the bytes consumed. */
  lemma {:induction false} PartsAgree(d: Decoder, tail: seq<Byte>, parts: seq<seq<Byte>>)
    requires d.Valid() && Robust(d, tail + Concat(parts)) && Waiting(d, tail)
    ensures Same(FeedParts(d, tail, parts), FeedAll(d, tail + Concat(parts)))
    decreases |parts|
  {
    hide FeedAll, Robust;
    if parts == [] {
      assert tail + Concat(parts) == tail;
    } else {
      var raw := tail + parts[0];
      var later := Concat(parts[1..]);
      assert tail + Concat(parts) == raw + later;
      SplitAnywhere(d, raw, later);
      var r := FeedAll(d, raw);
      if r.result.NeedMore? {
        NeedMoreWaits(d, raw);
        PartsAgree(r.dec, raw[r.consumed..], parts[1..]);
      }
    }
  }

  // --- Necessity --------------------------------------------------------------------------

  /** The same data and the same result. */
  ghost predicate SameDecoding(a: Outcome, b: Outcome) {
    a.out == b.out && a.result == b.result
  }

  lemma {:induction false} FeedOnePart(d: Decoder, tail: seq<Byte>, part: seq<Byte>)
    requires d.Valid()
    ensures FeedParts(d, tail, [part]) == FeedAll(d, tail + part)
  {
    var r := FeedAll(d, tail + part);
    assert r.out + [] == r.out;
  }

  lemma {:induction false} AfterNothing(r: Outcome)
    ensures After([], 0, r) == r
  {
  }

  /** One more read: feed it behind the tail the earlier reads left. */
  lemma {:induction false} FeedPartsSnoc(d: Decoder, tail: seq<Byte>, parts: seq<seq<Byte>>, last: seq<Byte>)
    requires d.Valid()
    ensures var r := FeedParts(d, tail, parts);
            var all := tail + Concat(parts);
            && r.consumed <= |all|
            && FeedParts(d, tail, parts + [last])
            == if r.result.NeedMore? then After(r.out, r.consumed, FeedAll(r.dec, all[r.consumed..] + last)) else r
    decreases |parts|
  {
    hide FeedAll;
    var all := tail + Concat(parts);
    if parts == [] {
      assert all == tail && parts + [last] == [last] && all[0..] == all;
      FeedOnePart(d, tail, last);
      AfterNothing(FeedAll(d, tail + last));
    } else {
      assert (parts + [last])[1..] == parts[1..] + [last];
      var raw := tail + parts[0];
      var r := FeedAll(d, raw);
      if r.result.NeedMore? {
        var rest := raw[r.consumed..];
        FeedPartsSnoc(r.dec, rest, parts[1..], last);
        var f := FeedParts(r.dec, rest, parts[1..]);
        assert rest + Concat(parts[1..]) == all[r.consumed..];
        assert all[r.consumed..][f.consumed..] == all[r.consumed + f.consumed..];
        AfterAfter(r.out, r.consumed, f.out, f.consumed, FeedAll(f.dec, all[r.consumed + f.consumed..] + last));
      }
    }
  }

  function FeedTwo(d: Decoder, x: seq<Byte>, y: seq<Byte>): Outcome
    requires d.Valid()
  {
    var r := FeedAll(d, x);
    if r.result.NeedMore? then After(r.out, r.consumed, FeedAll(r.dec, x[r.consumed..] + y)) else r
  }

  lemma {:induction false} FeedTwoParts(d: Decoder, x: seq<Byte>, y: seq<Byte>)
    requires d.Valid()
    ensures FeedParts(d, [], [x, y]) == FeedTwo(d, x, y)
  {
    hide FeedAll;
    assert [] + x == x && [x, y][1..] == [y];
    var r := FeedAll(d, x);
    FeedOnePart(r.dec, x[r.consumed..], y);
  }

  /** From a size line not cut at its CR, a failure without data is the size line's own. */
  lemma {:induction false} FailureWithoutData(d: Decoder, w: seq<Byte>)
    requires d.Valid() && FeedAll(d, w).out == [] && FeedAll(d, w).result.Failed?
    ensures d.phase.Trailers? || d.phase.Done? ==> FeedAll(d, w).result == Failed(TrailersNotSupported)
    ensures !d.phase.Data?
    ensures d.phase.Size? ==>
              var t := NextTurn(d, w);
              FeedAll(d, w).result == if t.Halt? then t.result else Failed(TrailersNotSupported)
  {
    hide NextTurn;
    TurnShape(d, w);
    var t := NextTurn(d, w);
    if t.Continue? {
      FailureAfterTurn(t.dec, w[t.consumed..]);
    }
  }

  lemma {:induction false} FailureAfterTurn(d: Decoder, w: seq<Byte>)
    requires d.Valid() && FeedAll(d, w).out == [] && FeedAll(d, w).result.Failed?
    ensures !d.phase.Data?
    ensures d.phase.Trailers? ==> FeedAll(d, w).result == Failed(TrailersNotSupported)
  {
    hide NextTurn;
    TurnShape(d, w);
  }

  lemma {:induction false} SizeRestricts(saved: seq<Byte>, w: seq<Byte>, m: nat)
    requires |saved| < MAX_SIZE_LINE_LEN && FeedSize(saved, w).SizeComplete?
    requires FeedSize(saved, w).consumed <= m <= |w|
    ensures FeedSize(saved, w[..m]) == FeedSize(saved, w)
  {
    hide FirstCrlf, ChunkSizeLine.Parse;
    if !EndsWithCr(saved) {
      var i := FirstCrlf(w);
      assert CrlfAt(w[..m], i);
      assert forall j :: 0 <= j < i ==> CrlfAt(w[..m], j) == CrlfAt(w, j);
      FirstCrlfIs(w[..m], i);
      assert w[..m][..i] == w[..i];
    }
  }

  /** A turn needs no byte after those it takes. */
  lemma {:induction false} TurnRestricts(d: Decoder, w: seq<Byte>, m: nat)
    requires d.Valid()
    requires var t := NextTurn(d, w);
             t.consumed <= m <= |w| && (t.Continue? || (t.Emit? && d.phase.remaining <= |w|))
    ensures NextTurn(d, w[..m]) == NextTurn(d, w)
  {
    hide FeedSize;
    if d.phase.Size? {
      SizeRestricts(d.sizeLine, w, m);
    }
  }

  /** Cutting a fragile size line changes the outcome. */
  lemma {:induction false} FragileLine(d: Decoder, w: seq<Byte>) returns (k: nat)
    requires d.Valid() && d.phase.Size? && !EndsWithCr(d.sizeLine) && !LineRobust(d.sizeLine, w)
    ensures k <= |w| && !SameDecoding(FeedParts(d, [], [w[..k], w[k..]]), FeedAll(d, w))
  {
    var saved, i := d.sizeLine, FirstCrlf(w);
    if j :| 0 <= j < i && j + 1 < |w| && |saved| + j + 1 < MAX_SIZE_LINE_LEN && w[j] == CR {
      k := j + 1;
      CutAtBareCr(d, w, j);
    } else {
      k := i + 1;
      CutLongLine(d, w);
    }
  }

  lemma {:induction false} NoCrlfBefore(w: seq<Byte>, k: nat)
    requires k <= |w| && k <= FirstCrlf(w) + 1
    ensures FirstCrlf(w[..k]) == k
  {
    assert forall j :: 0 <= j && CrlfAt(w[..k], j) ==> CrlfAt(w, j);
  }

  lemma {:induction false} CutAtBareCr(d: Decoder, w: seq<Byte>, j: nat)
    requires d.Valid() && d.phase.Size? && !EndsWithCr(d.sizeLine)
    requires j < FirstCrlf(w) && j + 1 < |w| && |d.sizeLine| + j + 1 < MAX_SIZE_LINE_LEN && w[j] == CR
    ensures FeedParts(d, [], [w[..j + 1], w[j + 1..]]).result == Failed(MissingCrlf)
    ensures !SameDecoding(FeedParts(d, [], [w[..j + 1], w[j + 1..]]), FeedAll(d, w))
  {
    var x, y := w[..j + 1], w[j + 1..];
    NoCrlfBefore(w, j + 1);
    assert !CrlfAt(w, j);
    var e := d.(sizeLine := d.sizeLine + x);
    assert FeedAll(d, x) == Outcome(e, [], NeedMore, |x|);
    assert FeedAll(e, y).result == Failed(MissingCrlf) && FeedAll(e, y).out == [];
    assert [] + x == x && x[|x|..] + y == y;
    FeedOnePart(e, x[|x|..], y);
    if SameDecoding(FeedAll(e, y), FeedAll(d, w)) {
      FailureWithoutData(d, w);
    }
  }

  lemma {:induction false} CutLongLine(d: Decoder, w: seq<Byte>)
    requires d.Valid() && d.phase.Size? && !EndsWithCr(d.sizeLine)
    requires var i := FirstCrlf(w);
             i < |w| && |d.sizeLine| + i + 1 == MAX_SIZE_LINE_LEN && ChunkSizeLine.Parse(d.sizeLine + w[..i]).Some?
    ensures var k := FirstCrlf(w) + 1;
            && FeedParts(d, [], [w[..k], w[k..]]).result == Failed(BadChunkSize)
            && !SameDecoding(FeedParts(d, [], [w[..k], w[k..]]), FeedAll(d, w))
  {
    var k := FirstCrlf(w) + 1;
    NoCrlfBefore(w, k);
    var x := w[..k];
    assert [] + x == x;
    assert FeedAll(d, x) == Outcome(d.(sizeLine := []), [], Failed(BadChunkSize), k);
    if SameDecoding(FeedAll(d, x), FeedAll(d, w)) {
      FailureWithoutData(d, w);
    }
  }

  lemma {:induction false} NothingIsRobust(d: Decoder)
    requires d.Valid()
    ensures Robust(d, [])
  {
    TurnShape(d, []);
  }

  /** A wire that is not robust has a cut that changes what it decodes to. */
  lemma {:induction false} FragileWire(d: Decoder, w: seq<Byte>) returns (k: nat)
    requires d.Valid() && !Robust(d, w)
    ensures k <= |w| && !SameDecoding(FeedParts(d, [], [w[..k], w[k..]]), FeedAll(d, w))
    decreases |w|
  {
    hide FeedAll, FeedParts, NextTurn, LineRobust, SameDecoding;
    if d.phase.Size? && !EndsWithCr(d.sizeLine) && !LineRobust(d.sizeLine, w) {
      k := FragileLine(d, w);
    } else {
      var t := NextTurn(d, w);
      var n := t.consumed;
      var rest := w[n..];
      TurnShape(d, w);
      NothingIsRobust(t.dec);
      var m := FragileWire(t.dec, rest);
      k := n + m;
      TurnRestricts(d, w, k);
      CutAfterTurn(d, w, k);
    }
  }

  lemma {:induction false} CutAfterTurn(d: Decoder, w: seq<Byte>, k: nat)
    requires d.Valid()
    requires var t := NextTurn(d, w);
             var rest := w[t.consumed..];
             && !t.Halt? && t.consumed <= k <= |w| && NextTurn(d, w[..k]) == t
             && var m := k - t.consumed;
                !SameDecoding(FeedParts(t.dec, [], [rest[..m], rest[m..]]), FeedAll(t.dec, rest))
    ensures !SameDecoding(FeedParts(d, [], [w[..k], w[k..]]), FeedAll(d, w))
  {
    hide NextTurn, FeedParts, FeedTwo, SameDecoding;
    var t := NextTurn(d, w);
    var n, m := t.consumed, k - t.consumed;
    var rest := w[n..];
    var out := if t.Emit? then w[..n] else [];
    FeedTwoParts(d, w[..k], w[k..]);
    FeedTwoParts(t.dec, rest[..m], rest[m..]);
    assert FeedAll(d, w) == After(out, n, FeedAll(t.dec, rest));
    assert w[..k][n..] == rest[..m] && w[k..] == rest[m..] && w[..k][..n] == w[..n];
    assert FeedAll(d, w[..k]) == After(out, n, FeedAll(t.dec, rest[..m]));
    FeedTwoAfter(d, w[..k], w[k..], t.dec, out, n);
    AfterCancels(out, n, FeedTwo(t.dec, rest[..m], rest[m..]), FeedAll(t.dec, rest));
  }

  lemma {:induction false} AfterCancels(out: seq<Byte>, n: nat, a: Outcome, b: Outcome)
    ensures SameDecoding(After(out, n, a), After(out, n, b)) ==> SameDecoding(a, b)
  {
    assert (out + a.out)[|out|..] == a.out && (out + b.out)[|out|..] == b.out;
  }

  lemma {:induction false} FeedTwoAfter(d: Decoder, x: seq<Byte>, y: seq<Byte>, e: Decoder, out: seq<Byte>, n: nat)
    requires d.Valid() && e.Valid() && n <= |x|
    requires FeedAll(d, x) == After(out, n, FeedAll(e, x[n..]))
    ensures FeedTwo(d, x, y) == After(out, n, FeedTwo(e, x[n..], y))
  {
    hide FeedAll;
    var r := FeedAll(e, x[n..]);
    if r.result.NeedMore? {
      assert x[n..][r.consumed..] == x[n + r.consumed..];
      AfterAfter(out, n, r.out, r.consumed, FeedAll(r.dec, x[n + r.consumed..] + y));
    }
  }

  lemma {:induction false} NewWaits(maxBody: nat)
    requires maxBody <= USIZE_MAX
    ensures Waiting(New(maxBody), [])
  {
    TurnShape(New(maxBody), []);
  }

  // --- The theorem ------------------------------------------------------------------------

  /**
    A wire decodes to the same data and result under every partition into reads if and only if
    every size line it reaches is robust.
   */
  lemma {:induction false} PartitionInvarianceExactly(maxBody: nat, wire: seq<Byte>)
    requires maxBody <= USIZE_MAX
    ensures Robust(New(maxBody), wire)
       <==> forall parts: seq<seq<Byte>> :: Concat(parts) == wire ==>
              SameDecoding(FeedParts(New(maxBody), [], parts), FeedAll(New(maxBody), wire))
  {
    hide FeedAll, FeedParts, Robust;
    var d := New(maxBody);
    NewWaits(maxBody);
    if Robust(d, wire) {
      forall parts: seq<seq<Byte>> | Concat(parts) == wire
        ensures SameDecoding(FeedParts(d, [], parts), FeedAll(d, wire))
      {
        assert [] + wire == wire;
        PartsAgree(d, [], parts);
      }
    } else {
      var k := FragileWire(d, wire);
      var parts := [wire[..k], wire[k..]];
      assert Concat(parts) == parts[0] + Concat(parts[1..]) && parts[1..] == [wire[k..]];
      assert Concat([wire[k..]]) == wire[k..] + Concat<Byte>([]);
      assert Concat(parts) == wire;
    }
  }
}
