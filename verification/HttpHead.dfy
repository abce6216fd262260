/** Message heads as an abstract parser: what the body code reads from a head. */
module HttpHead {
  import opened Bytes

  /** `close` is the message's own wish: `Connection: close`, or HTTP/1.0 without keep-alive. */
  datatype Head = Head(contentLength: nat, chunked: bool, close: bool)

  datatype Parse = HeadNeedsMore | HeadComplete(head: Head, headLen: nat) | HeadFailed

  type Parser = seq<Byte> -> Parse

  /** A complete head lies within the bytes given and stays what it is when more bytes follow. */
  ghost predicate PrefixStable(parse: Parser) {
    && (forall b: seq<Byte> :: parse(b).HeadComplete? ==> 0 < parse(b).headLen <= |b|)
    && (forall b: seq<Byte>, more: seq<Byte> :: parse(b).HeadComplete? ==> parse(b + more) == parse(b))
  }

  lemma {:induction false} Stable(parse: Parser, b: seq<Byte>, more: seq<Byte>)
    requires PrefixStable(parse) && parse(b).HeadComplete?
    ensures 0 < parse(b).headLen <= |b| && parse(b + more) == parse(b)
  {
  }

  /** The first Content-Length message of a stream: `None` while it is not all there. */
  function FirstMessage(parse: Parser, stream: seq<Byte>): (n: Option<nat>)
    ensures n.Some? ==> 0 < n.value <= |stream|
  {
    match parse(stream)
    case HeadComplete(head, headLen) =>
      if !head.chunked && 0 < headLen && headLen + head.contentLength <= |stream|
      then Some(headLen + head.contentLength) else None
    case _ => None
  }

  lemma {:induction false} FirstMessageStable(parse: Parser, b: seq<Byte>, more: seq<Byte>)
    requires PrefixStable(parse) && FirstMessage(parse, b).Some?
    ensures FirstMessage(parse, b + more) == FirstMessage(parse, b)
  {
    Stable(parse, b, more);
  }

  /** A whole Content-Length message and nothing after it. */
  predicate IsMessage(parse: Parser, m: seq<Byte>) {
    FirstMessage(parse, m) == Some(|m|)
  }

  /** The reference reading of a stream: its Content-Length messages, one after the other. */
  function Messages(parse: Parser, stream: seq<Byte>): seq<seq<Byte>>
    decreases |stream|
  {
    match FirstMessage(parse, stream)
    case None => []
    case Some(n) => [stream[..n]] + Messages(parse, stream[n..])
  }

  /** More bytes never change the messages already there. */
  lemma {:induction false} MessagesGrow(parse: Parser, x: seq<Byte>, y: seq<Byte>)
    requires PrefixStable(parse)
    ensures Messages(parse, x) <= Messages(parse, x + y)
    decreases |x|
  {
    hide PrefixStable, FirstMessage;
    if FirstMessage(parse, x).Some? {
      var n := FirstMessage(parse, x).value;
      FirstMessageStable(parse, x, y);
      assert (x + y)[..n] == x[..n] && (x + y)[n..] == x[n..] + y;
      MessagesGrow(parse, x[n..], y);
    }
  }

  /** Whole messages put end to end are read back one by one. */
  lemma {:induction false} MessagesOfConcat(parse: Parser, frames: seq<seq<Byte>>, rest: seq<Byte>)
    requires PrefixStable(parse)
    requires forall i :: 0 <= i < |frames| ==> IsMessage(parse, frames[i])
    ensures Messages(parse, Concat(frames) + rest) == frames + Messages(parse, rest)
  {
    hide PrefixStable, FirstMessage, Messages;
    if frames == [] {
      assert Concat(frames) + rest == rest;
    } else {
      var m, later := frames[0], Concat(frames[1..]) + rest;
      assert Concat(frames) + rest == m + later;
      FirstMessageStable(parse, m, later);
      MessagesOfConcat(parse, frames[1..], rest);
      MessagesStep(parse, m, later);
      assert frames == [m] + frames[1..];
    }
  }

  lemma {:induction false} MessagesStep(parse: Parser, m: seq<Byte>, later: seq<Byte>)
    requires FirstMessage(parse, m + later) == Some(|m|)
    ensures Messages(parse, m + later) == [m] + Messages(parse, later)
  {
    assert (m + later)[..|m|] == m && (m + later)[|m|..] == later;
  }

  // --- Messages cut off a stream that goes on -----------------------------------------------

  /** Each of `cut` was the first message of what was left of the stream, down to `rest`. */
  ghost predicate CutsOff(parse: Parser, cut: seq<seq<Byte>>, rest: seq<Byte>) {
    cut == [] ||
    (FirstMessage(parse, Concat(cut) + rest) == Some(|cut[0]|) && CutsOff(parse, cut[1..], rest))
  }

  lemma {:induction false} CutsOffGrows(parse: Parser, cut: seq<seq<Byte>>, rest: seq<Byte>, more: seq<Byte>)
    requires PrefixStable(parse) && CutsOff(parse, cut, rest)
    ensures CutsOff(parse, cut, rest + more)
  {
    hide PrefixStable, FirstMessage;
    if cut != [] {
      FirstMessageStable(parse, Concat(cut) + rest, more);
      assert Concat(cut) + rest + more == Concat(cut) + (rest + more);
      CutsOffGrows(parse, cut[1..], rest, more);
    }
  }

  lemma {:induction false} CutsOffSnoc(parse: Parser, cut: seq<seq<Byte>>, m: seq<Byte>, rest: seq<Byte>)
    requires CutsOff(parse, cut, m + rest) && FirstMessage(parse, m + rest) == Some(|m|)
    ensures CutsOff(parse, cut + [m], rest)
  {
    hide FirstMessage;
    ConcatSnoc(cut, m);
    assert Concat(cut + [m]) + rest == Concat(cut) + (m + rest);
    if cut == [] {
      assert (cut + [m])[1..] == [] && Concat(cut) + (m + rest) == m + rest;
    } else {
      assert (cut + [m])[1..] == cut[1..] + [m];
      CutsOffSnoc(parse, cut[1..], m, rest);
    }
  }

  /** The reference reading of the stream starts with what was cut off. */
  lemma {:induction false} CutsOffAreMessages(parse: Parser, cut: seq<seq<Byte>>, rest: seq<Byte>)
    requires CutsOff(parse, cut, rest)
    ensures Messages(parse, Concat(cut) + rest) == cut + Messages(parse, rest)
  {
    hide FirstMessage, Messages;
    if cut == [] {
      assert Concat(cut) + rest == rest;
    } else {
      var m, later := cut[0], Concat(cut[1..]) + rest;
      assert Concat(cut) + rest == m + later;
      MessagesStep(parse, m, later);
      CutsOffAreMessages(parse, cut[1..], rest);
      assert cut == [m] + cut[1..];
    }
  }
}
