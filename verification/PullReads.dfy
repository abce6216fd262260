/** Reads sized by `preferred_read_size` never take a byte past the end of a chunked body. */
module PullReads {
  import opened Bytes
  import opened ChunkedSpec
  import opened ChunkedPartition

  /** Reads no longer than the decoder asked for at that point, until a final result. */
  predicate Pulled(d: Decoder, tail: seq<Byte>, parts: seq<seq<Byte>>, max: nat)
    requires d.Valid()
    decreases |parts|
  {
    parts == [] ||
    (&& |parts[0]| <= PreferredReadSize(d.phase, max)
     && var raw := tail + parts[0];
        var r := FeedAll(d, raw);
        if r.result.NeedMore? then Pulled(r.dec, raw[r.consumed..], parts[1..], max) else parts[1..] == [])
  }

  /** A turn on a sized read takes all of it, unless it fails or has to wait. */
  lemma {:induction false} SizedTurn(d: Decoder, tail: seq<Byte>, part: seq<Byte>, max: nat)
    requires d.Valid() && !d.phase.Done? && (tail == [] || (d.phase.DataCrlf? && |tail| == 1))
    requires 0 < |part| <= PreferredReadSize(d.phase, max)
    ensures var t := NextTurn(d, tail + part);
            && (t.dec.phase.Done? ==> t.Halt?)
            && (!t.Halt? || t.result.Complete? ==> t.consumed == |tail + part|)
  {
    if d.phase.Size? {
      assert FirstCrlf(part) == |part| && tail + part == part;
    }
  }

  /** One sized read is decoded to its last byte or fails: nothing is left when the body ends. */
  lemma {:induction false} SizedReadIsConsumed(d: Decoder, tail: seq<Byte>, part: seq<Byte>, max: nat)
    requires d.Valid() && Waiting(d, tail)
    requires |part| <= PreferredReadSize(d.phase, max)
    ensures FeedAll(d, tail + part).result.Complete? ==> FeedAll(d, tail + part).consumed == |tail + part|
  {
    hide NextTurn, PreferredReadSize;
    WaitingIsNotDone(d, tail);
    var raw := tail + part;
    if part == [] {
      assert raw == tail;
    } else {
      SizedTurn(d, tail, part, max);
      var t := NextTurn(d, raw);
      if !t.Halt? {
        assert raw[t.consumed..] == [];
        OnlyNeedsMore(t.dec);
      }
    }
  }

  lemma {:induction false} OnlyNeedsMore(d: Decoder)
    requires d.Valid() && !d.phase.Done?
    ensures FeedAll(d, []) == Outcome(d, [], NeedMore, 0)
  {
  }

  lemma {:induction false} WaitingIsNotDone(d: Decoder, tail: seq<Byte>)
    requires d.Valid() && Waiting(d, tail)
    ensures !d.phase.Done?
  {
  }

  /**
    On every wire: a pull-driven run that completes has taken exactly the bytes it decoded, so
    no byte after the terminator was read and no raw byte is left over.
   */
  lemma {:induction false} PulledRunLeavesNothing(d: Decoder, tail: seq<Byte>, parts: seq<seq<Byte>>, max: nat)
    requires d.Valid() && Waiting(d, tail) && Pulled(d, tail, parts, max)
    ensures var r := FeedParts(d, tail, parts);
            r.result.Complete? ==> r.consumed == |tail + Concat(parts)|
    decreases |parts|
  {
    hide FeedAll;
    if parts != [] {
      var raw := tail + parts[0];
      var r := FeedAll(d, raw);
      SizedReadIsConsumed(d, tail, parts[0], max);
      if r.result.NeedMore? {
        NeedMoreWaits(d, raw);
        PulledRunLeavesNothing(r.dec, raw[r.consumed..], parts[1..], max);
      }
    }
  }

  /** Completing from a waiting state takes every byte of the tail and at least one more. */
  lemma {:induction false} CompletionGoesPast(d: Decoder, tail: seq<Byte>, y: seq<Byte>)
    requires d.Valid() && Waiting(d, tail) && FeedAll(d, tail + y).result.Complete?
    ensures |tail| < FeedAll(d, tail + y).consumed
  {
    hide FeedSize;
    WaitingIsNotDone(d, tail);
    assert tail == [] ==> tail + y == y;
    var t := NextTurn(d, tail + y);
    assert t.Halt? ==> t.result.Complete?;
    assert 0 < t.consumed;
    assert d.phase.DataCrlf? ==> t.consumed == 2;
  }

  /**
    On a wire whose body completes after `n` bytes however it is cut: if the bytes that came
    with the head stay within the body, the pull-driven reads never pass its end, and they stop
    exactly there with the one-shot data.
   */
  lemma {:induction false} PullNeverOverReads(maxBody: nat, wire: seq<Byte>, first: seq<Byte>, pulls: seq<seq<Byte>>, max: nat)
    requires maxBody <= USIZE_MAX
    requires Robust(New(maxBody), wire) && FeedAll(New(maxBody), wire).result.Complete?
    requires first + Concat(pulls) <= wire && |first| <= FeedAll(New(maxBody), wire).consumed
    requires var r := FeedAll(New(maxBody), first);
             if r.result.NeedMore? then Pulled(r.dec, first[r.consumed..], pulls, max) else pulls == []
    ensures var whole := FeedAll(New(maxBody), wire);
            var r := FeedParts(New(maxBody), [], [first] + pulls);
            var taken := |first + Concat(pulls)|;
            && taken <= whole.consumed
            && (r.result.NeedMore? ==> taken < whole.consumed)
            && (!r.result.NeedMore? ==> r.result.Complete? && taken == whole.consumed && r.out == whole.out)
  {
    hide FeedAll, FeedParts, Robust, Pulled;
    NewWaits(maxBody);
    var d := New(maxBody);
    var taken := first + Concat(pulls);
    var whole := FeedAll(d, wire);
    var parts := [first] + pulls;
    assert parts[1..] == pulls && Concat(parts) == taken;
    assert [] + first == first && [] + taken == taken && [] + wire == wire;
    var rest := wire[|taken|..];
    assert wire == taken + rest;
    SplitAnywhere(d, taken, rest);
    RobustPrefix(d, taken, rest);
    PartsAgree(d, [], parts);
    var r := FeedAll(d, taken);
    if r.result.NeedMore? {
      NeedMoreWaits(d, taken);
      CompletionGoesPast(r.dec, taken[r.consumed..], rest);
    } else {
      PulledAfterFirst(d, first, pulls, max);
    }
  }

  lemma {:induction false} PulledAfterFirst(d: Decoder, first: seq<Byte>, pulls: seq<seq<Byte>>, max: nat)
    requires d.Valid()
    requires var r := FeedAll(d, first);
             if r.result.NeedMore? then Pulled(r.dec, first[r.consumed..], pulls, max) else pulls == []
    ensures var r := FeedParts(d, [], [first] + pulls);
            r.result.Complete? && FeedAll(d, first).result.NeedMore? ==> r.consumed == |first + Concat(pulls)|
  {
    hide FeedAll;
    var parts := [first] + pulls;
    assert parts[1..] == pulls && [] + first == first;
    var r := FeedAll(d, first);
    if r.result.NeedMore? {
      NeedMoreWaits(d, first);
      PulledRunLeavesNothing(r.dec, first[r.consumed..], pulls, max);
    }
  }

  /** Robustness of a wire is robustness of each of its prefixes. */
  lemma {:induction false} RobustPrefix(d: Decoder, x: seq<Byte>, y: seq<Byte>)
    requires d.Valid() && Robust(d, x + y)
    ensures Robust(d, x)
    decreases |x|
  {
    hide NextTurn, LineRobust;
    if d.phase.Size? && !EndsWithCr(d.sizeLine) {
      LineRobustPrefix(d.sizeLine, x, y);
    }
    TurnShape(d, x);
    var t := NextTurn(d, x);
    if !t.Halt? {
      if t.Emit? && |x| < d.phase.remaining {
        assert x[t.consumed..] == [];
        NothingIsRobust(t.dec);
      } else {
        TurnExtends(d, x, y);
        assert (x + y)[t.consumed..] == x[t.consumed..] + y;
        RobustPrefix(t.dec, x[t.consumed..], y);
      }
    }
  }

  lemma {:induction false} LineRobustPrefix(saved: seq<Byte>, x: seq<Byte>, y: seq<Byte>)
    requires LineRobust(saved, x + y)
    ensures LineRobust(saved, x)
  {
    FirstCrlfExtends(x, y);
    var i := FirstCrlf(x);
    assert i < |x| ==> (x + y)[..i] == x[..i];
    forall j | 0 <= j < i && j + 1 < |x| && |saved| + j + 1 < MAX_SIZE_LINE_LEN
      ensures x[j] != CR
    {
      assert (x + y)[j] == x[j];
    }
  }
}
