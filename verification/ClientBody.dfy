/** The one-shot client: one response per transport, chunked bytes drained as they decode. */
module ClientBody {
  import opened Bytes
  import opened ChunkedSpec
  import opened ChunkedPartition
  import opened HttpHead
  import InboundBody
  import D = ChunkedDecoder

  datatype Decision = Deliver(body: seq<Byte>) | Fail | ReadMore

  /** The body of the response at the front of `wire`, decoded in one go. */
  function ResponseBody(parse: Parser, maxBody: nat, wire: seq<Byte>): Option<seq<Byte>>
    requires maxBody <= USIZE_MAX
  {
    match parse(wire)
    case HeadComplete(head, headLen) =>
      if headLen > |wire| then None
      else if head.chunked then
        var r := FeedAll(New(maxBody), wire[headLen..]);
        if r.result.Complete? then Some(r.out) else None
      else if headLen + head.contentLength <= |wire| then
        Some(wire[headLen..headLen + head.contentLength])
      else None
    case _ => None
  }

  /** The head or the chunked framing at the front of `wire` is malformed. */
  predicate Malformed(parse: Parser, maxBody: nat, wire: seq<Byte>)
    requires maxBody <= USIZE_MAX
  {
    match parse(wire)
    case HeadNeedsMore => false
    case HeadFailed => true
    case HeadComplete(head, headLen) =>
      head.chunked && headLen <= |wire| && FeedAll(New(maxBody), wire[headLen..]).result.Failed?
  }

  /** What is decided about `wire`, read in one go; `ended` once the peer has closed. */
  function Verdict(parse: Parser, maxBody: nat, wire: seq<Byte>, ended: bool): Decision
    requires maxBody <= USIZE_MAX
  {
    match ResponseBody(parse, maxBody, wire)
    case Some(body) => Deliver(body)
    case None => if ended || Malformed(parse, maxBody, wire) then Fail else ReadMore
  }

  /** The verdict without a chunked body: by the head, then by the announced length. */
  lemma {:induction false} LengthVerdict(parse: Parser, maxBody: nat, wire: seq<Byte>)
    requires maxBody <= USIZE_MAX && PrefixStable(parse)
    ensures match parse(wire)
            case HeadNeedsMore => Verdict(parse, maxBody, wire, false) == ReadMore
            case HeadFailed => Verdict(parse, maxBody, wire, false) == Fail
            case HeadComplete(head, n) =>
              !head.chunked ==>
                Verdict(parse, maxBody, wire, false)
                == if n + head.contentLength <= |wire| then Deliver(wire[n..n + head.contentLength]) else ReadMore
  {
    hide FeedAll;
  }

  /** What is decided about a chunked body from the reads its decoder was fed. */
  function DecidedBy(maxBody: nat, fed: seq<seq<Byte>>): Decision
    requires maxBody <= USIZE_MAX
  {
    var r := FeedParts(New(maxBody), [], fed);
    match r.result
    case Complete => Deliver(r.out)
    case Failed(_) => Fail
    case NeedMore => ReadMore
  }

  /** A chunked body does not depend on how its reads were cut. */
  predicate CutSafe(parse: Parser, maxBody: nat, wire: seq<Byte>)
    requires maxBody <= USIZE_MAX
  {
    match parse(wire)
    case HeadComplete(head, headLen) =>
      head.chunked && headLen <= |wire| ==> Robust(New(maxBody), wire[headLen..])
    case _ => true
  }

  /**
    A chunked body under way: the reads `fed` were decoded into `bodyBuf`, and the read buffer
    holds the head, their undecoded tail, and `arrived`.
   */
  ghost predicate Underway(
    maxBody: nat, wire: seq<Byte>, headLen: nat, fed: seq<seq<Byte>>, arrived: seq<Byte>,
    readBuf: seq<Byte>, bodyBuf: seq<Byte>, dec: Decoder)
    requires maxBody <= USIZE_MAX
  {
    var f := FeedParts(New(maxBody), [], fed);
    && headLen <= |wire| && wire[headLen..] == Concat(fed) + arrived
    && f.result.NeedMore? && f.consumed <= |Concat(fed)|
    && readBuf == wire[..headLen] + (Concat(fed)[f.consumed..] + arrived)
    && bodyBuf == f.out && dec == f.dec
  }

  lemma {:induction false} BodyStarts(maxBody: nat, wire: seq<Byte>, headLen: nat)
    requires maxBody <= USIZE_MAX && headLen <= |wire|
    ensures Underway(maxBody, wire, headLen, [], wire[headLen..], wire, [], New(maxBody))
  {
    assert [] + wire[headLen..] == wire[headLen..];
  }

  lemma {:induction false} BodyGrows(
    maxBody: nat, wire: seq<Byte>, headLen: nat, fed: seq<seq<Byte>>, data: seq<Byte>,
    readBuf: seq<Byte>, bodyBuf: seq<Byte>, dec: Decoder)
    requires maxBody <= USIZE_MAX && Underway(maxBody, wire, headLen, fed, [], readBuf, bodyBuf, dec)
    ensures Underway(maxBody, wire + data, headLen, fed, data, readBuf + data, bodyBuf, dec)
  {
    hide FeedParts;
    var f := FeedParts(New(maxBody), [], fed);
    var tail := Concat(fed)[f.consumed..];
    assert (wire + data)[headLen..] == wire[headLen..] + data && (wire + data)[..headLen] == wire[..headLen];
    assert Concat(fed) + [] == Concat(fed) && tail + [] == tail;
    assert wire[..headLen] + tail + data == wire[..headLen] + (tail + data);
  }

  /** Decoding what is undecoded is feeding the reads with `arrived` as one more. */
  lemma {:induction false} BodyDecodes(
    maxBody: nat, wire: seq<Byte>, headLen: nat, fed: seq<seq<Byte>>, arrived: seq<Byte>,
    readBuf: seq<Byte>, bodyBuf: seq<Byte>, dec: Decoder)
    requires maxBody <= USIZE_MAX && Underway(maxBody, wire, headLen, fed, arrived, readBuf, bodyBuf, dec)
    ensures dec.Valid() && headLen <= |readBuf| && headLen <= |wire|
    ensures var f := FeedAll(dec, readBuf[headLen..]);
            var after := FeedParts(New(maxBody), [], fed + [arrived]);
            && Concat(fed + [arrived]) == wire[headLen..]
            && after.result == f.result && after.out == bodyBuf + f.out
            && (f.result.NeedMore? ==>
                  Underway(maxBody, wire, headLen, fed + [arrived], [],
                           readBuf[..headLen] + readBuf[headLen + f.consumed..], bodyBuf + f.out, f.dec))
  {
    hide FeedAll, FeedParts;
    var raw := readBuf[headLen..];
    var f := OneMoreRead(maxBody, fed, arrived);
    var all := Concat(fed + [arrived]);
    var after := FeedParts(New(maxBody), [], fed + [arrived]);
    assert raw == Concat(fed)[FeedParts(New(maxBody), [], fed).consumed..] + arrived;
    assert readBuf[..headLen] == wire[..headLen] && readBuf[headLen + f.consumed..] == raw[f.consumed..];
    assert all + [] == all && all[after.consumed..] + [] == all[after.consumed..];
  }

  class ActiveCall {
    const parse: Parser
    const maxBody: nat
    var readBuf: seq<Byte>
    var bodyBuf: seq<Byte>
    var head: Option<Head>
    var headLen: nat
    var decoder: D.ChunkedDecoder?

    /** Every byte read so far, and the reads that reached the decoder. */
    ghost var wire: seq<Byte>
    ghost var fed: seq<seq<Byte>>

    ghost predicate Valid()
      reads this, decoder, if decoder == null then {} else {decoder.sizeBuf}
    {
      && PrefixStable(parse) && maxBody <= USIZE_MAX
      && (decoder != null ==> decoder.Valid())
      && match head {
           case None =>
             && readBuf == wire && !parse(wire).HeadComplete?
             && bodyBuf == [] && fed == [] && decoder == null
           case Some(h) => parse(wire) == HeadComplete(h, headLen) && headLen <= |wire| && BodyValid(h)
         }
    }

    ghost function DecoderState(): Decoder
      reads this, decoder, if decoder == null then {} else {decoder.sizeBuf}
      requires decoder != null ==> decoder.Valid()
    {
      if decoder == null then New(maxBody) else decoder.State()
    }

    ghost predicate BodyValid(h: Head)
      reads this, decoder, if decoder == null then {} else {decoder.sizeBuf}
      requires decoder != null ==> decoder.Valid()
      requires maxBody <= USIZE_MAX && headLen <= |wire|
    {
      if h.chunked then
        Underway(maxBody, wire, headLen, fed, [], readBuf, bodyBuf, DecoderState())
      else readBuf == wire && bodyBuf == [] && fed == [] && decoder == null
    }

    constructor (parse: Parser, maxBody: nat)
      requires PrefixStable(parse) && maxBody <= USIZE_MAX
      ensures Valid() && wire == [] && this.parse == parse && this.maxBody == maxBody
    {
      this.parse, this.maxBody := parse, maxBody;
      readBuf, bodyBuf, head, headLen, decoder := [], [], None, 0, null;
      wire, fed := [], [];
      assert !parse([]).HeadComplete?;
    }

    predicate BodyComplete()
      reads this
    {
      match head
      case None => false
      case Some(h) => !h.chunked && |readBuf| >= headLen + h.contentLength
    }

    /**
      One read.  Whenever the chunked framing is cut-safe, the decision is the one of reading
      everything read so far in one go; otherwise it is that of the reads one by one, the first
      of them what came with the head.
     */
    method HandleBytesRead(data: seq<Byte>) returns (decision: Decision)
      requires Valid()
      modifies this, decoder, if decoder == null then {} else {decoder.sizeBuf}
      ensures wire == old(wire) + data
      ensures decision.ReadMore? ==> Valid() && (decoder == old(decoder) || fresh(decoder))
      ensures CutSafe(parse, maxBody, wire) ==> decision == Verdict(parse, maxBody, wire, data == [])
      ensures parse(wire).HeadComplete? && parse(wire).head.chunked ==>
                if data == [] then decision == Fail
                else
                  && fed == (if parse(old(wire)).HeadComplete? then old(fed) + [data]
                             else [wire[Min(parse(wire).headLen, |wire|)..]])
                  && decision == DecidedBy(maxBody, fed)
    {
      hide ChunkedSpec.FeedAll, Robust, PrefixStable, Underway, CutSafe, Verdict, DecidedBy;
      if data == [] {
        assert wire == old(wire) + data;
        decision := HandleEof();
      } else {
        decision := HandleData(data);
      }
    }

    method HandleData(data: seq<Byte>) returns (decision: Decision)
      requires Valid() && data != []
      modifies this, decoder, if decoder == null then {} else {decoder.sizeBuf}
      ensures wire == old(wire) + data
      ensures decision.ReadMore? ==> Valid() && (decoder == old(decoder) || fresh(decoder))
      ensures CutSafe(parse, maxBody, wire) ==> decision == Verdict(parse, maxBody, wire, false)
      ensures parse(wire).HeadComplete? && parse(wire).head.chunked ==>
                && fed == (if parse(old(wire)).HeadComplete? then old(fed) + [data]
                           else [wire[Min(parse(wire).headLen, |wire|)..]])
                && decision == DecidedBy(maxBody, fed)
    {
      hide ChunkedSpec.FeedAll, Robust, PrefixStable, Underway, CutSafe, Verdict, DecidedBy;
      readBuf, wire := readBuf + data, wire + data;
      LengthVerdict(parse, maxBody, wire);
      var arrived := data;
      if head.None? {
        match parse(readBuf) {
          case HeadNeedsMore => return ReadMore;
          case HeadFailed => return Fail;
          case HeadComplete(h, n) =>
            assert wire + [] == wire;
            Stable(parse, wire, []);
            head, headLen, arrived := Some(h), n, readBuf[n..];
            BodyStarts(maxBody, wire, n);
        }
      } else {
        Stable(parse, old(wire), data);
        if head.value.chunked {
          BodyGrows(maxBody, old(wire), headLen, fed, data, old(readBuf), bodyBuf, DecoderState());
        }
      }
      if BodyComplete() {
        return Deliver(readBuf[headLen..headLen + head.value.contentLength]);
      }
      if !head.value.chunked {
        return ReadMore;
      }
      decision := FeedChunked(arrived);
    }

    /** The peer closed: a complete body is delivered, anything else is a truncation. */
    method HandleEof() returns (decision: Decision)
      requires Valid()
      ensures decision.Deliver? || decision.Fail?
      ensures CutSafe(parse, maxBody, wire) ==> decision == Verdict(parse, maxBody, wire, true)
      ensures head.Some? && head.value.chunked ==> decision == Fail
    {
      hide ChunkedSpec.FeedAll, Robust, Underway;
      if head.Some? && BodyComplete() {
        return Deliver(readBuf[headLen..headLen + head.value.contentLength]);
      }
      if head.Some? && head.value.chunked {
        StillUnderway(parse, maxBody, wire, headLen, fed, readBuf, bodyBuf, DecoderState());
      }
      return Fail;
    }

    /** Decodes what is past the head and drains what the decoder took. */
    method FeedChunked(ghost arrived: seq<Byte>) returns (decision: Decision)
      requires PrefixStable(parse) && maxBody <= USIZE_MAX && (decoder != null ==> decoder.Valid())
      requires head.Some? && head.value.chunked && parse(wire) == HeadComplete(head.value, headLen)
      requires Underway(maxBody, wire, headLen, fed, arrived, readBuf, bodyBuf, DecoderState())
      modifies this, decoder, if decoder == null then {} else {decoder.sizeBuf}
      ensures wire == old(wire) && fed == old(fed) + [arrived] && decision == DecidedBy(maxBody, fed)
      ensures decision.ReadMore? ==> Valid() && (decoder == old(decoder) || fresh(decoder))
      ensures CutSafe(parse, maxBody, wire) ==> decision == Verdict(parse, maxBody, wire, false)
    {
      hide ChunkedSpec.FeedAll, FeedParts, PrefixStable, CutSafe, Verdict, Underway;
      BodyDecodes(maxBody, wire, headLen, fed, arrived, readBuf, bodyBuf, DecoderState());
      var result, consumed := DecodeRaw(readBuf[headLen..]);
      fed := fed + [arrived];
      OneShot(parse, maxBody, wire, headLen, fed);
      match result
      case Failed(_) => return Fail;
      case Complete => return Deliver(bodyBuf);
      case NeedMore =>
        readBuf := readBuf[..headLen] + readBuf[headLen + consumed..];
        return ReadMore;
    }

    /** Runs the decoder, created at the first use, over the undecoded bytes. */
    method DecodeRaw(raw: seq<Byte>) returns (result: Result, consumed: nat)
      requires maxBody <= USIZE_MAX && (decoder != null ==> decoder.Valid())
      modifies this`bodyBuf, this`decoder, decoder, if decoder == null then {} else {decoder.sizeBuf}
      ensures decoder != null && decoder.Valid() && (decoder == old(decoder) || fresh(decoder))
      ensures var f := FeedAll(old(DecoderState()), raw);
              && decoder.State() == f.dec && bodyBuf == old(bodyBuf) + f.out
              && result == f.result && consumed == f.consumed
    {
      hide ChunkedSpec.FeedAll;
      if decoder == null {
        decoder := new D.ChunkedDecoder(maxBody);
      }
      var grown;
      result, consumed, grown := decoder.FeedAll(raw, bodyBuf);
      bodyBuf := grown;
    }
  }

  /** Feeding one more read behind the undecoded tail of the earlier ones. */
  lemma {:induction false} OneMoreRead(maxBody: nat, fed: seq<seq<Byte>>, arrived: seq<Byte>) returns (f: Outcome)
    requires maxBody <= USIZE_MAX
    requires FeedParts(New(maxBody), [], fed).result.NeedMore?
    requires FeedParts(New(maxBody), [], fed).consumed <= |Concat(fed)|
    ensures var before := FeedParts(New(maxBody), [], fed);
            var raw := Concat(fed)[before.consumed..] + arrived;
            var after := FeedParts(New(maxBody), [], fed + [arrived]);
            && Concat(fed + [arrived]) == Concat(fed) + arrived
            && f == FeedAll(before.dec, raw)
            && after == After(before.out, before.consumed, f)
            && after.consumed <= |Concat(fed + [arrived])|
            && Concat(fed + [arrived])[after.consumed..] == raw[f.consumed..]
  {
    hide FeedAll, FeedParts;
    var before := FeedParts(New(maxBody), [], fed);
    assert [] + Concat(fed) == Concat(fed);
    FeedPartsSnoc(New(maxBody), [], fed, arrived);
    ConcatSnoc(fed, arrived);
    f := FeedAll(before.dec, Concat(fed)[before.consumed..] + arrived);
    InboundBody.TailAfter(Concat(fed), arrived, before.consumed, f.consumed);
  }

  /** On cut-safe framing, feeding the reads decides what decoding everything at once decides. */
  lemma {:induction false} OneShot(parse: Parser, maxBody: nat, wire: seq<Byte>, headLen: nat, fed: seq<seq<Byte>>)
    requires maxBody <= USIZE_MAX && headLen <= |wire| && Concat(fed) == wire[headLen..]
    requires parse(wire).HeadComplete? && parse(wire).headLen == headLen && parse(wire).head.chunked
    ensures CutSafe(parse, maxBody, wire) ==>
              var r := FeedParts(New(maxBody), [], fed);
              Verdict(parse, maxBody, wire, false)
              == match r.result
                 case Complete => Deliver(r.out)
                 case Failed(_) => Fail
                 case NeedMore => ReadMore
  {
    hide FeedAll, FeedParts, Robust;
    if CutSafe(parse, maxBody, wire) {
      assert [] + wire[headLen..] == wire[headLen..];
      NewWaits(maxBody);
      PartsAgree(New(maxBody), [], fed);
    }
  }

  /** A body still under way has not been completed by anything read so far. */
  lemma {:induction false} StillUnderway(
    parse: Parser, maxBody: nat, wire: seq<Byte>, headLen: nat, fed: seq<seq<Byte>>,
    readBuf: seq<Byte>, bodyBuf: seq<Byte>, dec: Decoder)
    requires maxBody <= USIZE_MAX && Underway(maxBody, wire, headLen, fed, [], readBuf, bodyBuf, dec)
    requires parse(wire).HeadComplete? && parse(wire).headLen == headLen && parse(wire).head.chunked
    ensures CutSafe(parse, maxBody, wire) ==> Verdict(parse, maxBody, wire, true) == Fail
  {
    hide FeedAll, FeedParts, Robust;
    assert Concat(fed) + [] == Concat(fed);
    OneShot(parse, maxBody, wire, headLen, fed);
  }
}
