/** Byte streams as sequences of frames. */
module WireStreams {
  import opened Blocks
  import opened Words
  import opened WireCodec
  import opened WireMessages

  predicate WellSized(f: Frame) {
    |f.payload| == f.header.payloadBytes
  }

  ghost predicate AllWellSized(fs: seq<Frame>) {
    forall i :: 0 <= i < |fs| ==> WellSized(fs[i])
  }

  function FrameBytes(f: Frame): (r: seq<byte>)
    ensures |r| == HEADER_BYTES + |f.payload|
  {
    HeaderBytes(f.header) + f.payload
  }

  function StreamOf(fs: seq<Frame>): seq<byte> {
    if fs == [] then [] else FrameBytes(fs[0]) + StreamOf(fs[1..])
  }

  /** The complete frames at the front of a stream, cut by their length fields. */
  function FramesIn(b: seq<byte>): seq<Frame>
    decreases |b|
  {
    if |b| < HEADER_BYTES then []
    else
      var h := RawHeader(b[..HEADER_BYTES]);
      var end := HEADER_BYTES + h.payloadBytes;
      if |b| < end then [] else [Frame(h, b[HEADER_BYTES..end])] + FramesIn(b[end..])
  }

  lemma FirstFrame(f: Frame, rest: seq<byte>)
    requires WellSized(f)
    ensures FramesIn(FrameBytes(f) + rest) == [f] + FramesIn(rest)
  {
    var b := FrameBytes(f) + rest;
    HeaderRoundTrip(f.header);
    assert b[..HEADER_BYTES] == HeaderBytes(f.header);
    assert b[HEADER_BYTES..HEADER_BYTES + |f.payload|] == f.payload;
    assert b[HEADER_BYTES + |f.payload|..] == rest;
  }

  /** Frames written back to back are read as the same frames. */
  lemma {:induction false} FramesInStream(fs: seq<Frame>)
    requires AllWellSized(fs)
    ensures FramesIn(StreamOf(fs)) == fs
  {
    if fs != [] {
      FirstFrame(fs[0], StreamOf(fs[1..]));
      FramesInStream(fs[1..]);
    }
  }

  lemma {:induction false} StreamAppend(fs: seq<Frame>, f: Frame)
    ensures StreamOf(fs + [f]) == StreamOf(fs) + FrameBytes(f)
  {
    if fs == [] {
      assert [f][1..] == [];
      assert fs + [f] == [f];
      assert StreamOf([f]) == FrameBytes(f) + StreamOf([]);
    } else {
      StreamAppend(fs[1..], f);
      assert (fs + [f])[1..] == fs[1..] + [f];
      Regroup(FrameBytes(fs[0]), StreamOf(fs[1..]), FrameBytes(f));
    }
  }

  lemma {:induction false} FramesInPrefix(fs: seq<Frame>, rest: seq<byte>)
    requires AllWellSized(fs)
    ensures FramesIn(StreamOf(fs) + rest) == fs + FramesIn(rest)
  {
    if fs == [] {
      assert StreamOf(fs) + rest == rest;
    } else {
      var first, tail, later := FrameBytes(fs[0]), StreamOf(fs[1..]), FramesIn(rest);
      calc {
        FramesIn(StreamOf(fs) + rest);
        { Regroup(first, tail, rest); }
        FramesIn(first + (tail + rest));
        { FirstFrame(fs[0], tail + rest); }
        [fs[0]] + FramesIn(tail + rest);
        { FramesInPrefix(fs[1..], rest); }
        [fs[0]] + (fs[1..] + later);
        { Reassociate(fs, later); }
        fs + later;
      }
    }
  }

  lemma Reassociate(fs: seq<Frame>, later: seq<Frame>)
    requires fs != []
    ensures [fs[0]] + (fs[1..] + later) == fs + later
  {
  }

  /** A frame that did not go out whole is no frame. */
  lemma PartialFrame(f: Frame, n: nat)
    requires WellSized(f) && n < |FrameBytes(f)|
    ensures FramesIn(FrameBytes(f)[..n]) == []
  {
    var b := FrameBytes(f)[..n];
    if n >= HEADER_BYTES {
      HeaderRoundTrip(f.header);
      assert b[..HEADER_BYTES] == HeaderBytes(f.header);
    }
  }

  // ---- A peer that answers in order ----

  /** A peer's reply to a request may depend on all the requests that came before it. */
  type Replier = seq<Frame> -> Frame

  /** The replies to a sequence of requests, one for each. */
  function RepliesTo(fs: seq<Frame>, reply: Replier): (r: seq<Frame>)
    ensures |r| == |fs|
  {
    if fs == [] then [] else RepliesTo(fs[..|fs| - 1], reply) + [reply(fs)]
  }

  lemma {:induction false} ReplyAt(fs: seq<Frame>, reply: Replier, i: nat)
    requires i < |fs|
    ensures RepliesTo(fs, reply)[i] == reply(fs[..i + 1])
  {
    if i == |fs| - 1 {
      assert fs[..i + 1] == fs;
    } else {
      ReplyAt(fs[..|fs| - 1], reply, i);
      assert fs[..|fs| - 1][..i + 1] == fs[..i + 1];
    }
  }

  /** All that the peer will ever send, given what it has received. */
  function Replies(sent: seq<byte>, reply: Replier): seq<byte> {
    StreamOf(RepliesTo(FramesIn(sent), reply))
  }

  /** One more complete request brings one more complete reply, at the end. */
  lemma OneMoreReply(fs: seq<Frame>, f: Frame, reply: Replier)
    requires AllWellSized(fs) && WellSized(f)
    ensures Replies(StreamOf(fs + [f]), reply) == Replies(StreamOf(fs), reply) + FrameBytes(reply(fs + [f]))
  {
    FramesInStream(fs);
    FramesInStream(fs + [f]);
    assert (fs + [f])[..|fs|] == fs;
    StreamAppend(RepliesTo(fs, reply), reply(fs + [f]));
  }
}
