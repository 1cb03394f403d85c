/**
 * Length-prefixed frames: a 4-byte big-endian length, then a bincode payload.
 * Messages are values of a type `t`; the payload may carry fields this build
 * does not know after them.
 */
module Framing {
  import opened Bytes
  import opened Integers
  import opened Bincode

  const MAX_MESSAGE_SIZE: nat := 0x100_0000

  datatype FrameError = FrameTooLarge | BadPayload

  datatype Framed = Message(msg: Val, rest: seq<Byte>) | Incomplete | Failed(error: FrameError)

  function Frame(payload: seq<Byte>): seq<Byte> {
    BigEndian(|payload|, 4) + payload
  }

  function EncodeFramedMessage(v: Val): Option<seq<Byte>> {
    if |Encode(v)| > MAX_MESSAGE_SIZE then None else Some(Frame(Encode(v)))
  }

  /** Decode the frame at the head of the buffer. */
  function DecodeFrame(t: Ty, buf: seq<Byte>): Framed {
    if |buf| < 4 then Incomplete
    else
      var len := FromBigEndian(buf[..4]);
      if len > MAX_MESSAGE_SIZE then Failed(FrameTooLarge)
      else if |buf| < 4 + len then Incomplete
      else
        match Decode(t, buf[4..4 + len])
        case None => Failed(BadPayload)
        case Some((v, _)) => Message(v, buf[4 + len..])
  }

  /** A message that can be sent, and the payload it is sent as: its encoding, and what a newer peer adds. */
  ghost predicate Sends(t: Ty, v: Val, payload: seq<Byte>) {
    Typed(t, v) && Encode(v) <= payload && |payload| <= MAX_MESSAGE_SIZE
  }

  lemma FrameLength(payload: seq<Byte>, tail: seq<Byte>)
    requires |payload| <= MAX_MESSAGE_SIZE
    ensures var buf := Frame(payload) + tail;
            && FromBigEndian(buf[..4]) == |payload| && buf[4..4 + |payload|] == payload && buf[4 + |payload|..] == tail
  {
    WidthOfRange();
    BigEndianReads(|payload|, 4);
    var buf := Frame(payload) + tail;
    assert buf[..4] == BigEndian(|payload|, 4);
    assert |payload| % Range(4) == |payload|;
  }

  /** A whole frame decodes to its message and leaves what follows it. */
  lemma FrameDecodes(t: Ty, v: Val, payload: seq<Byte>, tail: seq<Byte>)
    requires Sends(t, v, payload)
    ensures DecodeFrame(t, Frame(payload) + tail) == Message(v, tail)
  {
    hide Decode, Encode, BigEndian, FromBigEndian;
    FrameLength(payload, tail);
    assert payload == Encode(v) + payload[|Encode(v)|..];
    DecodeEncode(t, v, payload[|Encode(v)|..]);
  }

  /**
   * What is framed is decoded again, whatever follows; and a message is framed
   * exactly if any buffer at all decodes to it.
   */
  lemma FramedRoundTrip(t: Ty, v: Val, tail: seq<Byte>)
    requires Typed(t, v)
    ensures match EncodeFramedMessage(v)
            case Some(frame) => DecodeFrame(t, frame + tail) == Message(v, tail)
            case None => forall buf, rest :: DecodeFrame(t, buf) != Message(v, rest)
  {
    hide Decode, Encode, Frame, FromBigEndian;
    if EncodeFramedMessage(v).Some? {
      FrameDecodes(t, v, Encode(v), tail);
    } else {
      forall buf, rest
        ensures DecodeFrame(t, buf) != Message(v, rest)
      {
        if DecodeFrame(t, buf) == Message(v, rest) {
          EncodeDecode(t, buf[4..4 + FromBigEndian(buf[..4])]);
        }
      }
    }
  }

  /** A strict prefix of a frame decodes to nothing yet. */
  lemma PrefixIsIncomplete(t: Ty, payload: seq<Byte>, buf: seq<Byte>)
    requires |payload| <= MAX_MESSAGE_SIZE && buf < Frame(payload)
    ensures DecodeFrame(t, buf) == Incomplete
  {
    hide Decode, BigEndian, FromBigEndian;
    FrameLength(payload, []);
    assert Frame(payload) + [] == Frame(payload);
    if |buf| >= 4 {
      assert buf[..4] == Frame(payload)[..4];
    }
  }

  function Frames(payloads: seq<seq<Byte>>): seq<Byte> {
    if payloads == [] then [] else Frame(payloads[0]) + Frames(payloads[1..])
  }

  ghost predicate AllSent(t: Ty, msgs: seq<Val>, payloads: seq<seq<Byte>>) {
    |msgs| == |payloads| && forall i :: 0 <= i < |msgs| ==> Sends(t, msgs[i], payloads[i])
  }

  /** What is at the head of a buffer that holds a prefix of the frames still to come. */
  lemma HeadOfBuffer(t: Ty, msgs: seq<Val>, payloads: seq<seq<Byte>>, i: nat, buf: seq<Byte>)
    requires AllSent(t, msgs, payloads) && i <= |msgs| && buf <= Frames(payloads[i..])
    ensures match DecodeFrame(t, buf)
            case Message(v, rest) => i < |msgs| && v == msgs[i] && rest <= Frames(payloads[i + 1..])
            case Incomplete => i == |msgs| || |buf| < |Frame(payloads[i])|
            case Failed(_) => false
  {
    hide DecodeFrame, Sends;
    if i == |msgs| {
      NothingIsIncomplete(t, buf);
    } else {
      var frame, later := Frame(payloads[i]), Frames(payloads[i + 1..]);
      assert payloads[i..][1..] == payloads[i + 1..];
      SentFits(t, msgs[i], payloads[i]);
      if |buf| < |frame| {
        assert buf == (frame + later)[..|buf|] == frame[..|buf|];
        PrefixIsIncomplete(t, payloads[i], buf);
      } else {
        assert buf == frame + buf[|frame|..];
        assert buf[|frame|..] <= later;
        FrameDecodes(t, msgs[i], payloads[i], buf[|frame|..]);
      }
    }
  }

  lemma NothingIsIncomplete(t: Ty, buf: seq<Byte>)
    requires buf <= Frames([])
    ensures DecodeFrame(t, buf) == Incomplete
  {
  }

  lemma SentFits(t: Ty, v: Val, payload: seq<Byte>)
    requires Sends(t, v, payload)
    ensures |payload| <= MAX_MESSAGE_SIZE
  {
  }

  // ---- the receive buffer as it is updated in place ----------------------

  datatype Received = Got(msg: Val) | NotYet | Broken(error: FrameError)

  class StreamBuf {
    var buf: seq<Byte>

    constructor ()
      ensures buf == []
    {
      buf := [];
    }

    /** On success the frame is drained; otherwise the buffer stays as it is. */
    method DecodeFramedMessage(t: Ty) returns (r: Received)
      modifies this
      ensures match DecodeFrame(t, old(buf))
              case Message(v, rest) => r == Got(v) && buf == rest
              case Incomplete => r == NotYet && buf == old(buf)
              case Failed(e) => r == Broken(e) && buf == old(buf)
    {
      if |buf| < 4 {
        return NotYet;
      }
      var len := FromBigEndian(buf[..4]);
      if len > MAX_MESSAGE_SIZE {
        return Broken(FrameTooLarge);
      }
      if |buf| < 4 + len {
        return NotYet;
      }
      match Decode(t, buf[4..4 + len])
      case None =>
        r := Broken(BadPayload);
      case Some((v, _)) =>
        buf := buf[4 + len..];
        r := Got(v);
    }

    /** Decode every whole frame in the buffer. */
    method DecodeAvailable(t: Ty, ghost msgs: seq<Val>, ghost payloads: seq<seq<Byte>>, ghost seen: nat)
        returns (out: seq<Val>)
      requires AllSent(t, msgs, payloads) && seen <= |msgs| && buf <= Frames(payloads[seen..])
      modifies this
      ensures Taken(msgs, payloads, seen, old(buf), out, buf)
      ensures seen + |out| == |msgs| || |buf| < |Frame(payloads[seen + |out|])|
    {
      hide DecodeFrame, AllSent, Frame, Taken;
      out := [];
      ghost var was := buf;
      SentCounts(t, msgs, payloads);
      TakenNone(msgs, payloads, seen, was);
      while true
        invariant Taken(msgs, payloads, seen, was, out, buf)
        decreases |msgs| - |out|
      {
        TakenMore(t, msgs, payloads, seen, was, out, buf);
        var r := DecodeFramedMessage(t);
        match r
        case Got(v) =>
          out := out + [v];
        case NotYet => return;
        case Broken(_) => return;
      }
    }
  }

  /** From a buffer that held `was`, `out` was decoded and `buf` is left. */
  ghost predicate Taken(msgs: seq<Val>, payloads: seq<seq<Byte>>, seen: nat, was: seq<Byte>, out: seq<Val>,
                        buf: seq<Byte>) {
    && |msgs| == |payloads| && seen + |out| <= |msgs| && out == msgs[seen..seen + |out|]
    && was == Frames(payloads[seen..seen + |out|]) + buf && buf <= Frames(payloads[seen + |out|..])
  }

  lemma TakenNone(msgs: seq<Val>, payloads: seq<seq<Byte>>, seen: nat, was: seq<Byte>)
    requires |msgs| == |payloads| && seen <= |msgs| && was <= Frames(payloads[seen..])
    ensures Taken(msgs, payloads, seen, was, [], was)
  {
    assert payloads[seen..seen] == [];
  }

  /** Another frame decodes to the next message; only an incomplete frame stops the decoding. */
  lemma TakenMore(t: Ty, msgs: seq<Val>, payloads: seq<seq<Byte>>, seen: nat, was: seq<Byte>, out: seq<Val>,
                  buf: seq<Byte>)
    requires AllSent(t, msgs, payloads) && Taken(msgs, payloads, seen, was, out, buf)
    ensures seen + |out| <= |msgs| == |payloads|
    ensures match DecodeFrame(t, buf)
            case Message(v, rest) => Taken(msgs, payloads, seen, was, out + [v], rest) && |out| < |msgs|
            case Incomplete => seen + |out| == |msgs| || |buf| < |Frame(payloads[seen + |out|])|
            case Failed(_) => false
  {
    hide DecodeFrame, Sends, Frame;
    var i := seen + |out|;
    HeadOfBuffer(t, msgs, payloads, i, buf);
    if DecodeFrame(t, buf).Message? {
      var rest := DecodeFrame(t, buf).rest;
      assert payloads[i..][1..] == payloads[i + 1..];
      DecodedFrame(t, msgs[i], payloads[i], buf, rest, payloads[i + 1..]);
      assert payloads[seen..i + 1] == payloads[seen..i] + [payloads[i]];
      FramesSnoc(payloads[seen..i], payloads[i]);
      var before, frame := Frames(payloads[seen..i]), Frame(payloads[i]);
      assert before + (frame + rest) == (before + frame) + rest;
      assert out + [msgs[i]] == msgs[seen..i + 1];
    }
  }

  lemma {:induction false} FramesSnoc(payloads: seq<seq<Byte>>, p: seq<Byte>)
    ensures Frames(payloads + [p]) == Frames(payloads) + Frame(p)
  {
    if payloads == [] {
      assert Frames([p]) == Frame(p) + Frames([p][1..]);
      assert [] + [p] == [p];
    } else {
      assert (payloads + [p])[1..] == payloads[1..] + [p];
      FramesSnoc(payloads[1..], p);
    }
  }

  /** What a decoded message leaves is what follows its frame. */
  lemma DecodedFrame(t: Ty, v: Val, payload: seq<Byte>, before: seq<Byte>, rest: seq<Byte>, later: seq<seq<Byte>>)
    requires Sends(t, v, payload) && before <= Frame(payload) + Frames(later)
    requires DecodeFrame(t, before) == Message(v, rest)
    ensures before == Frame(payload) + rest
  {
    hide Decode, Encode, BigEndian, FromBigEndian;
    var frame := Frame(payload);
    if |before| < |frame| {
      assert before == (frame + Frames(later))[..|before|] == frame[..|before|];
      PrefixIsIncomplete(t, payload, before);
    } else {
      assert before == frame + before[|frame|..];
      FrameDecodes(t, v, payload, before[|frame|..]);
    }
  }

  lemma {:induction false} FramesSplit(xs: seq<seq<Byte>>, ys: seq<seq<Byte>>)
    ensures Frames(xs + ys) == Frames(xs) + Frames(ys)
    decreases |xs|
  {
    hide Frame;
    if xs == [] {
      assert xs + ys == ys;
    } else {
      assert (xs + ys)[1..] == xs[1..] + ys;
      FramesSplit(xs[1..], ys);
    }
  }

  /** What is received but not decoded is a prefix of the frames still to come. */
  lemma PendingIsPrefix(chunks: seq<seq<Byte>>, i: nat, payloads: seq<seq<Byte>>, n: nat, pending: seq<Byte>)
    requires i <= |chunks| && n <= |payloads| && Flatten(chunks) == Frames(payloads)
    requires Flatten(chunks[..i]) == Frames(payloads[..n]) + pending
    ensures pending <= Frames(payloads[n..])
    ensures i == |chunks| ==> pending == Frames(payloads[n..])
  {
    hide Flatten, Frames;
    FlattenAppend(chunks[..i], chunks[i..]);
    assert chunks[..i] + chunks[i..] == chunks;
    FramesSplit(payloads[..n], payloads[n..]);
    assert payloads[..n] + payloads[n..] == payloads;
    var done, later := Frames(payloads[..n]), Flatten(chunks[i..]);
    assert done + Frames(payloads[n..]) == (done + pending) + later == done + (pending + later);
    assert Frames(payloads[n..]) == (done + Frames(payloads[n..]))[|done|..];
    assert pending + later == (done + (pending + later))[|done|..];
    if i == |chunks| {
      assert chunks[i..] == [];
      FlattenNothing();
    }
  }

  lemma FlattenNothing()
    ensures Flatten<Byte>([]) == []
  {
  }

  lemma FirstFrame(payloads: seq<seq<Byte>>, n: nat)
    requires n < |payloads|
    ensures |Frames(payloads[n..])| >= |Frame(payloads[n])| >= 4
  {
  }

  /** After `i` chunks, the messages of every whole frame received are out, and no more. */
  ghost predicate Reached(chunks: seq<seq<Byte>>, i: nat, msgs: seq<Val>, payloads: seq<seq<Byte>>, out: seq<Val>,
                          buf: seq<Byte>) {
    && i <= |chunks| && |out| <= |msgs| == |payloads| && out == msgs[..|out|]
    && Flatten(chunks[..i]) == Frames(payloads[..|out|]) + buf
    && (|out| == |msgs| || |buf| < |Frame(payloads[|out|])|)
  }

  lemma ReachedAtStart(chunks: seq<seq<Byte>>, msgs: seq<Val>, payloads: seq<seq<Byte>>)
    requires |msgs| == |payloads|
    ensures Reached(chunks, 0, msgs, payloads, [], [])
  {
    assert chunks[..0] == [] && payloads[..0] == [];
    FlattenNothing();
    if |payloads| > 0 {
      FirstFrame(payloads, 0);
    }
  }

  lemma ReachedNext(chunks: seq<seq<Byte>>, i: nat, msgs: seq<Val>, payloads: seq<seq<Byte>>, out: seq<Val>,
                    buf: seq<Byte>,                     more: seq<Val>, rest: seq<Byte>)
    requires Reached(chunks, i, msgs, payloads, out, buf) && i < |chunks|
    requires Taken(msgs, payloads, |out|, buf + chunks[i], more, rest)
    requires |out| + |more| == |msgs| || |rest| < |Frame(payloads[|out| + |more|])|
    ensures Reached(chunks, i + 1, msgs, payloads, out + more, rest)
  {
    hide Frame, Frames, Flatten;
    FlattenTake(chunks, i);
    var a, b := payloads[..|out|], payloads[|out|..|out| + |more|];
    FramesSplit(a, b);
    assert a + b == payloads[..|out| + |more|];
    assert (Frames(a) + buf) + chunks[i] == Frames(a) + (buf + chunks[i]);
    assert Frames(a) + (Frames(b) + rest) == (Frames(a) + Frames(b)) + rest;
    assert out + more == msgs[..|out| + |more|];
  }

  lemma PendingAfter(chunks: seq<seq<Byte>>, i: nat, msgs: seq<Val>, payloads: seq<seq<Byte>>, out: seq<Val>,
                     buf: seq<Byte>)
    requires Reached(chunks, i, msgs, payloads, out, buf) && i < |chunks| && Flatten(chunks) == Frames(payloads)
    ensures |out| <= |msgs| == |payloads| && buf + chunks[i] <= Frames(payloads[|out|..])
  {
    hide Frame, Frames, Flatten;
    FlattenTake(chunks, i);
    var done := Frames(payloads[..|out|]);
    assert (done + buf) + chunks[i] == done + (buf + chunks[i]);
    PendingIsPrefix(chunks, i + 1, payloads, |out|, buf + chunks[i]);
  }

  lemma ReachedEnd(chunks: seq<seq<Byte>>, msgs: seq<Val>, payloads: seq<seq<Byte>>, out: seq<Val>, buf: seq<Byte>)
    requires Reached(chunks, |chunks|, msgs, payloads, out, buf) && Flatten(chunks) == Frames(payloads)
    ensures out == msgs && buf == []
  {
    hide Frame, Flatten;
    assert chunks[..|chunks|] == chunks;
    PendingIsPrefix(chunks, |chunks|, payloads, |out|, buf);
    if |out| < |payloads| {
      FirstFrame(payloads, |out|);
    }
  }

  /** However the frames are cut into chunks, repeated decoding gives exactly the messages, and leaves nothing. */
  method ReceiveAll(t: Ty, chunks: seq<seq<Byte>>, ghost msgs: seq<Val>, ghost payloads: seq<seq<Byte>>)
    returns (out: seq<Val>, left: seq<Byte>)
    requires AllSent(t, msgs, payloads) && Flatten(chunks) == Frames(payloads)
    ensures out == msgs && left == []
  {
    hide AllSent, Frame, Frames, Flatten, Reached, Taken;
    var stream := new StreamBuf();
    out := [];
    var i := 0;
    SentCounts(t, msgs, payloads);
    ReachedAtStart(chunks, msgs, payloads);
    while i < |chunks|
      invariant 0 <= i <= |chunks| && Reached(chunks, i, msgs, payloads, out, stream.buf)
    {
      PendingAfter(chunks, i, msgs, payloads, out, stream.buf);
      ghost var before := stream.buf;
      stream.buf := stream.buf + chunks[i];
      var more := stream.DecodeAvailable(t, msgs, payloads, |out|);
      ReachedNext(chunks, i, msgs, payloads, out, before, more, stream.buf);
      out := out + more;
      i := i + 1;
    }
    ReachedEnd(chunks, msgs, payloads, out, stream.buf);
    left := stream.buf;
  }

  lemma SentCounts(t: Ty, msgs: seq<Val>, payloads: seq<seq<Byte>>)
    requires AllSent(t, msgs, payloads)
    ensures |msgs| == |payloads|
  {
  }
}
