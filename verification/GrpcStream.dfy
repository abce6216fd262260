/** Reassembly of length-prefixed gRPC messages from a streamed body. */
module GrpcStream {
  import opened Bytes
  import opened BigEndianBytes

  const HEADER_LEN: nat := 5

  datatype GrpcError =
    CompressedUnsupported | EncodeTooLarge(len: nat, max: nat) | MessageTooLarge(len: nat, max: nat) |
    BadFrame | Undecodable

  /** The payload decoder; `None` is a payload that is not the expected message. */
  type MessageDecoder<!M> = seq<Byte> -> Option<M>

  /** Messages, the first error, and the bytes that stay buffered. */
  datatype Split<M> = Split(messages: seq<M>, error: Option<GrpcError>, rest: seq<Byte>)

  function WithMessages<M>(messages: seq<M>, r: Split<M>): Split<M> {
    r.(messages := messages + r.messages)
  }

  /** What the frame at the front of the stream is. */
  datatype Front<+M> = Partial | Bad(error: GrpcError) | Whole(message: M, length: nat)

  function FrontFrame<M>(decode: MessageDecoder<M>, max: nat, stream: seq<Byte>): (r: Front<M>)
    ensures r.Whole? ==> HEADER_LEN <= r.length <= |stream|
  {
    if |stream| < HEADER_LEN then Partial
    else if stream[0] != 0 then Bad(CompressedUnsupported)
    else
      var len := BigEndian(stream[1..5]);
      if len > max then Bad(MessageTooLarge(len, max))
      else if |stream| < HEADER_LEN + len then Partial
      else
        match decode(stream[HEADER_LEN..HEADER_LEN + len])
        case None => Bad(Undecodable)
        case Some(message) => Whole(message, HEADER_LEN + len)
  }

  /** The whole-stream reference: frame after frame until one is partial or bad. */
  function SplitMessages<M>(decode: MessageDecoder<M>, max: nat, stream: seq<Byte>): (r: Split<M>)
    decreases |stream|
  {
    match FrontFrame(decode, max, stream)
    case Partial => Split([], None, stream)
    case Bad(error) => Split([], Some(error), stream)
    case Whole(message, n) => WithMessages([message], SplitMessages(decode, max, stream[n..]))
  }

  /** A frame that is whole or bad is so whatever follows. */
  lemma {:induction false} FrontExtends<M>(decode: MessageDecoder<M>, max: nat, x: seq<Byte>, y: seq<Byte>)
    requires !FrontFrame(decode, max, x).Partial?
    ensures FrontFrame(decode, max, x + y) == FrontFrame(decode, max, x)
  {
    hide BigEndian;
    assert (x + y)[1..5] == x[1..5] && (x + y)[0] == x[0];
    var len := BigEndian(x[1..5]);
    if |x| >= HEADER_LEN + len {
      assert (x + y)[HEADER_LEN..HEADER_LEN + len] == x[HEADER_LEN..HEADER_LEN + len];
    }
  }

  lemma {:induction false} SplitExtends<M>(decode: MessageDecoder<M>, max: nat, x: seq<Byte>, y: seq<Byte>)
    ensures var a := SplitMessages(decode, max, x);
            var b := SplitMessages(decode, max, x + y);
            if a.error.None? then b == WithMessages(a.messages, SplitMessages(decode, max, a.rest + y))
            else b.messages == a.messages && b.error == a.error && b.rest == a.rest + y
    decreases |x|
  {
    hide FrontFrame;
    var front := FrontFrame(decode, max, x);
    if !front.Partial? {
      FrontExtends(decode, max, x, y);
    }
    if front.Whole? {
      var n := front.length;
      assert (x + y)[n..] == x[n..] + y;
      SplitExtends(decode, max, x[n..], y);
      var a := SplitMessages(decode, max, x[n..]);
      var rest := SplitMessages(decode, max, a.rest + y);
      assert [front.message] + (a.messages + rest.messages) == [front.message] + a.messages + rest.messages;
    }
  }

  /** The rest a stream leaves, with more bytes behind it, leaves what the longer stream leaves. */
  lemma {:induction false} RestGoesOn<M>(decode: MessageDecoder<M>, max: nat, x: seq<Byte>, y: seq<Byte>)
    ensures var rest := SplitMessages(decode, max, x).rest;
            SplitMessages(decode, max, rest + y).rest == SplitMessages(decode, max, x + y).rest
  {
    hide FrontFrame;
    SplitExtends(decode, max, x, y);
    var a := SplitMessages(decode, max, x);
    if a.error.Some? {
      SplitEnds(decode, max, x);
      FrontExtends(decode, max, a.rest, y);
    }
  }

  // --- The decoder object -----------------------------------------------------------------

  class GrpcStreamDecoder<M> {
    const decode: MessageDecoder<M>
    const maxMessageBytes: nat
    var buf: seq<Byte>

    /** Every byte pushed so far. */
    ghost var received: seq<Byte>

    /** What is buffered is what the whole-stream splitter leaves of everything pushed. */
    ghost predicate Valid()
      reads this
    {
      buf == SplitMessages(decode, maxMessageBytes, received).rest
    }

    constructor (decode: MessageDecoder<M>, maxMessageBytes: nat)
      ensures this.decode == decode && this.maxMessageBytes == maxMessageBytes
      ensures Valid() && received == []
    {
      this.decode, this.maxMessageBytes := decode, maxMessageBytes;
      buf, received := [], [];
    }

    /** The checks on the frame at the cursor, in the order they are made. */
    method FrontAt(cursor: nat) returns (front: Front<M>)
      requires cursor <= |buf|
      ensures front == FrontFrame(decode, maxMessageBytes, buf[cursor..])
    {
      hide BigEndian;
      var remaining := |buf| - cursor;
      if remaining < HEADER_LEN {
        return Partial;
      }
      if buf[cursor] != 0 {
        return Bad(CompressedUnsupported);
      }
      var len := BigEndian(buf[cursor + 1..cursor + HEADER_LEN]);
      assert buf[cursor..][1..HEADER_LEN] == buf[cursor + 1..cursor + HEADER_LEN];
      if len > maxMessageBytes {
        return Bad(MessageTooLarge(len, maxMessageBytes));
      }
      if remaining < HEADER_LEN + len {
        return Partial;
      }
      var end := cursor + HEADER_LEN + len;
      assert buf[cursor..][HEADER_LEN..HEADER_LEN + len] == buf[cursor + HEADER_LEN..end];
      var message := decode(buf[cursor + HEADER_LEN..end]);
      front := if message.None? then Bad(Undecodable) else Whole(message.value, HEADER_LEN + len);
    }

    /** Appends every newly complete message; on error the bad frame stays at the front. */
    method PushInto(bytes: seq<Byte>, out: seq<M>) returns (grown: seq<M>, error: Option<GrpcError>)
      requires Valid()
      modifies this
      ensures Valid() && received == old(received) + bytes
      ensures var split := SplitMessages(decode, maxMessageBytes, old(buf) + bytes);
              grown == out + split.messages && error == split.error && buf == split.rest
    {
      hide SplitMessages;
      RestGoesOn(decode, maxMessageBytes, received, bytes);
      grown, error := Drain(bytes, out);
      received := received + bytes;
    }

    /** The cursor loop over the buffer with the new bytes behind it. */
    method Drain(bytes: seq<Byte>, out: seq<M>) returns (grown: seq<M>, error: Option<GrpcError>)
      modifies this`buf
      ensures var split := SplitMessages(decode, maxMessageBytes, old(buf) + bytes);
              grown == out + split.messages && error == split.error && buf == split.rest
    {
      hide FrontFrame;
      buf := buf + bytes;
      var cursor := 0;
      grown, error := out, None;
      ghost var done: seq<M> := [];
      ghost var whole := SplitMessages(decode, maxMessageBytes, buf);
      assert buf[0..] == buf;
      while true
        invariant cursor <= |buf| && buf == old(buf) + bytes && grown == out + done
        invariant whole == WithMessages(done, SplitMessages(decode, maxMessageBytes, buf[cursor..]))
        decreases |buf| - cursor
      {
        var front := FrontAt(cursor);
        if !front.Whole? {
          error := if front.Bad? then Some(front.error) else None;
          break;
        }
        MessageDone(done, front.message, buf, cursor, cursor + front.length);
        cursor, grown := cursor + front.length, grown + [front.message];
        done := done + [front.message];
      }
      buf := buf[cursor..];
    }

    lemma {:induction false} MessageDone(done: seq<M>, message: M, stream: seq<Byte>, cursor: nat, end: nat)
      requires cursor + HEADER_LEN <= end <= |stream|
      requires FrontFrame(decode, maxMessageBytes, stream[cursor..]) == Whole(message, end - cursor)
      ensures WithMessages(done, SplitMessages(decode, maxMessageBytes, stream[cursor..]))
              == WithMessages(done + [message], SplitMessages(decode, maxMessageBytes, stream[end..]))
    {
      hide FrontFrame;
      assert stream[cursor..][end - cursor..] == stream[end..];
      var rest := SplitMessages(decode, maxMessageBytes, stream[end..]);
      assert done + ([message] + rest.messages) == done + [message] + rest.messages;
    }

    /** Clean exactly when everything pushed, taken as one stream, ends on a frame boundary. */
    method Finish() returns (error: Option<GrpcError>)
      requires Valid()
      ensures error.None? <==> SplitMessages(decode, maxMessageBytes, received).rest == []
      ensures error.Some? ==> error == Some(BadFrame)
    {
      error := if buf == [] then None else Some(BadFrame);
    }
  }

  // --- Partition invariance ---------------------------------------------------------------

  /** Push after push; a push after an error is pushed all the same. */
  function Pushes<M>(decode: MessageDecoder<M>, max: nat, buf: seq<Byte>, parts: seq<seq<Byte>>): (r: Split<M>)
    decreases |parts|
  {
    if parts == [] then Split([], None, buf)
    else
      var first := SplitMessages(decode, max, buf + parts[0]);
      var rest := Pushes(decode, max, first.rest, parts[1..]);
      Split(first.messages + rest.messages, if first.error.Some? then first.error else rest.error, rest.rest)
  }

  /** The error repeats on every later push and no message comes any more. */
  lemma {:induction false} ErrorRepeats<M>(decode: MessageDecoder<M>, max: nat, buf: seq<Byte>, parts: seq<seq<Byte>>)
    requires FrontFrame(decode, max, buf).Bad?
    ensures var error := FrontFrame(decode, max, buf).error;
            && Pushes(decode, max, buf, parts).messages == []
            && (parts != [] ==>
                  && Pushes(decode, max, buf, parts).error == Some(error)
                  && SplitMessages(decode, max, buf + parts[0]) == Split([], Some(error), buf + parts[0]))
            && Pushes(decode, max, buf, parts).rest == buf + Concat(parts)
    decreases |parts|
  {
    hide FrontFrame;
    if parts == [] {
      assert buf + Concat(parts) == buf;
    } else {
      FrontExtends(decode, max, buf, parts[0]);
      ErrorRepeats(decode, max, buf + parts[0], parts[1..]);
      assert buf + Concat(parts) == buf + parts[0] + Concat(parts[1..]);
    }
  }

  /** A split ends at a frame that is partial, or at the bad one it reports. */
  lemma {:induction false} SplitEnds<M>(decode: MessageDecoder<M>, max: nat, stream: seq<Byte>)
    ensures var r := SplitMessages(decode, max, stream);
            match FrontFrame(decode, max, r.rest)
            case Partial => r.error.None? && |r.rest| < HEADER_LEN + max
            case Bad(error) => r.error == Some(error)
            case Whole(_, _) => false
    decreases |stream|
  {
    hide BigEndian;
    var front := FrontFrame(decode, max, stream);
    if front.Whole? {
      SplitEnds(decode, max, stream[front.length..]);
    }
  }

  /**
    However a body is cut into pushes, they emit the messages and the first error of one push of
    the whole, and leave the same bytes; what stays buffered after success is less than a frame.
   */
  lemma {:induction false} GrpcPartitionInvariance<M>(decode: MessageDecoder<M>, max: nat, buf: seq<Byte>, parts: seq<seq<Byte>>)
    requires FrontFrame(decode, max, buf).Partial?
    ensures Pushes(decode, max, buf, parts) == SplitMessages(decode, max, buf + Concat(parts))
    ensures Pushes(decode, max, buf, parts).error.None? ==>
              |Pushes(decode, max, buf, parts).rest| < HEADER_LEN + max
    decreases |parts|
  {
    hide FrontFrame;
    if parts == [] {
      assert buf + Concat(parts) == buf;
    } else {
      var x, later := buf + parts[0], Concat(parts[1..]);
      assert buf + Concat(parts) == x + later;
      SplitExtends(decode, max, x, later);
      SplitEnds(decode, max, x);
      var a := SplitMessages(decode, max, x);
      if a.error.None? {
        GrpcPartitionInvariance(decode, max, a.rest, parts[1..]);
      } else {
        ErrorRepeats(decode, max, a.rest, parts[1..]);
        assert a.messages + [] == a.messages;
      }
    }
    SplitEnds(decode, max, buf + Concat(parts));
  }

  // --- Round trip -------------------------------------------------------------------------

  datatype Encoded = Framed(value: seq<Byte>) | Refused(error: GrpcError)

  /** The frame of a payload; the cap is the smaller of the limit and what four bytes hold. */
  function Encode(payload: seq<Byte>, max: nat): (r: Encoded) {
    var cap := Min(max, 0xFFFF_FFFF);
    if |payload| > cap then Refused(EncodeTooLarge(|payload|, cap))
    else Framed([0] + ToBytes(|payload|, 4) + payload)
  }

  /** `encode_grpc_message_into`, message after message into one buffer until one is refused. */
  function EncodeAll(payloads: seq<seq<Byte>>, max: nat): (r: Encoded) {
    if payloads == [] then Framed([])
    else
      match Encode(payloads[0], max)
      case Refused(error) => Refused(error)
      case Framed(frame) =>
        match EncodeAll(payloads[1..], max)
        case Refused(error) => Refused(error)
        case Framed(later) => Framed(frame + later)
  }

  /** A frame just encoded is whole at the front, whatever follows. */
  lemma {:induction false} FrameIsWhole<M>(decode: MessageDecoder<M>, max: nat, payload: seq<Byte>, message: M, later: seq<Byte>)
    requires Encode(payload, max).Framed? && decode(payload) == Some(message)
    ensures var frame := Encode(payload, max).value;
            && FrontFrame(decode, max, frame + later) == Whole(message, |frame|)
            && (frame + later)[|frame|..] == later
  {
    hide BigEndian, ToBytes;
    var n := |payload|;
    assert Pow256(4) == 0x1_0000_0000;
    BytesRoundTrip(n, 4);
    var stream := Encode(payload, max).value + later;
    assert stream[1..5] == ToBytes(n, 4);
    assert stream[HEADER_LEN..HEADER_LEN + n] == payload;
  }

  /** Whatever was encoded decodes, under the same limit, to its messages and to a frame boundary. */
  lemma {:induction false} GrpcRoundTrip<M>(
    decode: MessageDecoder<M>, max: nat, payloads: seq<seq<Byte>>, messages: seq<M>)
    requires |payloads| == |messages|
    requires forall i :: 0 <= i < |payloads| ==> decode(payloads[i]) == Some(messages[i])
    ensures EncodeAll(payloads, max).Framed? <==>
              forall i :: 0 <= i < |payloads| ==> |payloads[i]| <= Min(max, 0xFFFF_FFFF)
    ensures EncodeAll(payloads, max).Framed? ==>
              SplitMessages(decode, max, EncodeAll(payloads, max).value) == Split(messages, None, [])
    decreases |payloads|
  {
    hide FrontFrame;
    if payloads == [] {
      FrontOfNothing(decode, max);
    } else {
      GrpcRoundTrip(decode, max, payloads[1..], messages[1..]);
      assert payloads == [payloads[0]] + payloads[1..];
      if EncodeAll(payloads, max).Framed? {
        FrameIsWhole(decode, max, payloads[0], messages[0], EncodeAll(payloads[1..], max).value);
        assert messages == [messages[0]] + messages[1..];
      }
    }
  }

  lemma {:induction false} FrontOfNothing<M>(decode: MessageDecoder<M>, max: nat)
    ensures FrontFrame(decode, max, []).Partial?
  {
  }

  /** The frame header, byte by byte: no compression, and four bytes of length. */
  lemma {:induction false} WireFormat(payload: seq<Byte>, max: nat)
    ensures var n := |payload|;
            Encode(payload, max)
            == if n > max || n > 4294967295 then Refused(EncodeTooLarge(n, Min(max, 4294967295)))
               else Framed([0, n / 0x100_0000, n / 0x1_0000 % 0x100, n / 0x100 % 0x100, n % 0x100] + payload)
  {
    hide ToBytes;
    NetworkOrder(|payload|);
  }

  /** The decision on the frame at the front, by its flag, its announced length and what follows. */
  lemma {:induction false} HeaderDecides<M>(
    decode: MessageDecoder<M>, max: nat, flag: Byte, n: nat, body: seq<Byte>)
    requires n < 0x1_0000_0000
    ensures var front := FrontFrame(decode, max, [flag] + ToBytes(n, 4) + body);
            if flag != 0 then front == Bad(CompressedUnsupported)
            else if n > max then front == Bad(MessageTooLarge(n, max))
            else if |body| < n then front == Partial
            else if decode(body[..n]).None? then front == Bad(Undecodable)
            else front == Whole(decode(body[..n]).value, 5 + n)
  {
    hide BigEndian, ToBytes;
    assert Pow256(4) == 0x1_0000_0000;
    BytesRoundTrip(n, 4);
    var stream := [flag] + ToBytes(n, 4) + body;
    assert stream[1..5] == ToBytes(n, 4);
    if |body| >= n {
      assert stream[HEADER_LEN..HEADER_LEN + n] == body[..n];
    }
  }

  /** The payloads a stream's messages were decoded from. */
  function Payloads<M>(decode: MessageDecoder<M>, max: nat, stream: seq<Byte>): seq<seq<Byte>>
    decreases |stream|
  {
    match FrontFrame(decode, max, stream)
    case Whole(_, n) => [stream[HEADER_LEN..n]] + Payloads(decode, max, stream[n..])
    case _ => []
  }

  /** A whole frame is the encoding of its payload, which decodes to its message. */
  lemma {:induction false} WholeIsEncoded<M>(decode: MessageDecoder<M>, max: nat, stream: seq<Byte>)
    requires FrontFrame(decode, max, stream).Whole?
    ensures var front := FrontFrame(decode, max, stream);
            var payload := stream[HEADER_LEN..front.length];
            && decode(payload) == Some(front.message) && |payload| <= max
            && Encode(payload, max) == Framed(stream[..front.length])
  {
    hide BigEndian, ToBytes;
    var front := FrontFrame(decode, max, stream);
    var header, payload := stream[1..5], stream[HEADER_LEN..front.length];
    ValueRoundTrip(header);
    assert Pow256(4) == 0x1_0000_0000;
    assert stream[..front.length] == [stream[0]] + header + payload;
  }

  lemma {:induction false} MessagesWereDecoded<M>(decode: MessageDecoder<M>, max: nat, stream: seq<Byte>)
    ensures var messages, payloads := SplitMessages(decode, max, stream).messages, Payloads(decode, max, stream);
            && |payloads| == |messages|
            && forall i :: 0 <= i < |payloads| ==> decode(payloads[i]) == Some(messages[i])
    decreases |stream|
  {
    hide FrontFrame;
    var front := FrontFrame(decode, max, stream);
    if front.Whole? {
      WholeIsEncoded(decode, max, stream);
      MessagesWereDecoded(decode, max, stream[front.length..]);
    }
  }

  lemma {:induction false} BytesWereEncoded<M>(decode: MessageDecoder<M>, max: nat, stream: seq<Byte>)
    ensures var payloads := Payloads(decode, max, stream);
            && EncodeAll(payloads, max).Framed?
            && stream == EncodeAll(payloads, max).value + SplitMessages(decode, max, stream).rest
    decreases |stream|
  {
    hide FrontFrame, Encode, EncodeAll;
    var front := FrontFrame(decode, max, stream);
    if front.Whole? {
      var n := front.length;
      WholeIsEncoded(decode, max, stream);
      BytesWereEncoded(decode, max, stream[n..]);
      EncodeOneMore(stream[HEADER_LEN..n], Payloads(decode, max, stream[n..]), max);
      assert stream == stream[..n] + stream[n..];
    } else {
      EncodeNothing(max);
    }
  }

  /**
    The converse of the round trip: whatever a stream is split into was encoded, frame by frame,
    from payloads within the limit that decode to its messages, followed by the rest.
   */
  lemma {:induction false} SplitWasEncoded<M>(decode: MessageDecoder<M>, max: nat, stream: seq<Byte>)
    ensures var split, payloads := SplitMessages(decode, max, stream), Payloads(decode, max, stream);
            && |payloads| == |split.messages|
            && (forall i :: 0 <= i < |payloads| ==> decode(payloads[i]) == Some(split.messages[i]))
            && EncodeAll(payloads, max).Framed?
            && stream == EncodeAll(payloads, max).value + split.rest
  {
    hide SplitMessages, Payloads, EncodeAll;
    MessagesWereDecoded(decode, max, stream);
    BytesWereEncoded(decode, max, stream);
  }

  lemma {:induction false} EncodeNothing(max: nat)
    ensures EncodeAll([], max) == Framed([])
  {
  }

  lemma {:induction false} EncodeOneMore(payload: seq<Byte>, later: seq<seq<Byte>>, max: nat)
    requires Encode(payload, max).Framed? && EncodeAll(later, max).Framed?
    ensures EncodeAll([payload] + later, max) == Framed(Encode(payload, max).value + EncodeAll(later, max).value)
  {
    hide Encode;
    assert ([payload] + later)[1..] == later;
  }
}
