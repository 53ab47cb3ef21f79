/** Whole frames over a connection (src/transport/tcp/wire_framing.cpp). */
module WireFraming {
  import opened Status
  import opened Blocks
  import opened Words
  import opened WireCodec
  import opened WireMessages
  import opened WireStreams
  import opened TcpConnection

  /** The codes of failures on this side: never OK, and never one that only a store can give. */
  predicate Local(code: StatusCode) {
    code in {InvalidArgument, NetworkError, Unavailable, OutOfCapacity, Corruption}
  }

  /** A frame that the codec accepts and a std::string can carry. */
  predicate Writable(f: Frame, limits: Limits) {
    WellSized(f) && ValidHeader(f.header, limits) && |f.payload| < TWO_63
  }

  /** Header and payload read one after the other are a frame of the stream. */
  lemma ReadsFrame(peer: Peer, sent: seq<byte>, consumed: nat, b: seq<byte>, payload: seq<byte>)
    requires |b| == HEADER_BYTES && Preamble(b)
    requires Arrives(peer, sent, consumed, b) && Arrives(peer, sent, consumed + HEADER_BYTES, payload)
    ensures Arrives(peer, sent, consumed, FrameBytes(Frame(RawHeader(b), payload)))
  {
    RawRoundTrip(b);
    ArrivesMore(peer, sent, consumed, b, payload);
  }

  /** The stream goes on with the frame `f`. */
  ghost predicate NextIs(peer: Peer, sent: seq<byte>, consumed: nat, f: Frame) {
    !peer.Arbitrary? && WellSized(f) && Arrives(peer, sent, consumed, FrameBytes(f))
  }

  lemma NextHeader(peer: Peer, sent: seq<byte>, consumed: nat, f: Frame, b: seq<byte>)
    requires NextIs(peer, sent, consumed, f) && |b| == HEADER_BYTES && Arrives(peer, sent, consumed, b)
    ensures b == HeaderBytes(f.header) && Preamble(b) && RawHeader(b) == f.header
    ensures consumed + HEADER_BYTES + |f.payload| <= |Inbound(peer, sent)|
  {
    HeaderRoundTrip(f.header);
    assert b == FrameBytes(f)[..HEADER_BYTES];
  }

  lemma NextPayload(peer: Peer, sent: seq<byte>, consumed: nat, f: Frame, payload: seq<byte>)
    requires NextIs(peer, sent, consumed, f) && |payload| == |f.payload|
    requires Arrives(peer, sent, consumed + HEADER_BYTES, payload)
    ensures payload == f.payload
  {
    if payload == [] {
      assert f.payload == [];
    } else {
      assert payload == FrameBytes(f)[HEADER_BYTES..];
    }
  }

  /** Reads one frame. A failure leaves the connection not open; a success consumed exactly the frame. */
  method ReadWireFrame(conn: TcpConnection, limits: Limits) returns (r: Result<Frame>)
    requires conn.Valid()
    modifies conn`broken, conn.socket`consumed, conn.env
    ensures old(conn.env.injected) <= conn.env.injected
    ensures r.Failure? ==> !conn.IsOpen() && Local(r.code)
    ensures r.Success? ==>
      && conn.IsOpen() == old(conn.IsOpen()) && Writable(r.value, limits)
      && conn.socket.consumed == old(conn.socket.consumed) + |FrameBytes(r.value)|
      && Arrives(conn.socket.peer, conn.socket.sent, old(conn.socket.consumed), FrameBytes(r.value))
    ensures forall f :: NextIs(conn.socket.peer, conn.socket.sent, old(conn.socket.consumed), f) ==>
      && (r.Success? ==> r.value == f)
      && (old(conn.IsOpen()) && conn.env.injected == old(conn.env.injected) && Writable(f, limits) ==> r.Success?)
  {
    ghost var peer, sent, consumed := conn.socket.peer, conn.socket.sent, conn.socket.consumed;
    var status, encoded := conn.ReadExact(HEADER_BYTES);
    if status != OK {
      assert forall f :: NextIs(peer, sent, consumed, f) ==> consumed + HEADER_BYTES <= |Inbound(peer, sent)|;
      return Failure(status);
    }
    forall f | NextIs(peer, sent, consumed, f)
      ensures encoded == HeaderBytes(f.header) && Preamble(encoded) && RawHeader(encoded) == f.header
      ensures consumed + HEADER_BYTES + |f.payload| <= |Inbound(peer, sent)|
    {
      NextHeader(peer, sent, consumed, f, encoded);
    }
    var header := DecodeHeader(encoded, limits);
    if header.Failure? {
      conn.Shutdown();
      return Failure(header.code);
    }
    var frameSize := ValidateFrameSize(header.value.payloadBytes, limits);
    assert frameSize == Success(HEADER_BYTES + header.value.payloadBytes);
    var payloadSize := frameSize.value - HEADER_BYTES;
    var failed := conn.env.Fails();
    if failed || payloadSize >= TWO_63 {
      conn.Shutdown();
      return Failure(OutOfCapacity);
    }
    var payload;
    status, payload := conn.ReadExact(payloadSize);
    if status != OK {
      return Failure(status);
    }
    ReadsFrame(peer, sent, consumed, encoded, payload);
    forall f | NextIs(peer, sent, consumed, f)
      ensures payload == f.payload
    {
      NextPayload(peer, sent, consumed, f, payload);
    }
    return Success(Frame(header.value, payload));
  }

  lemma HeaderPart(f: Frame, n: nat)
    requires n <= HEADER_BYTES
    ensures FrameBytes(f)[..n] == HeaderBytes(f.header)[..n]
  {
  }

  lemma PayloadPart(sent: seq<byte>, f: Frame, n: nat)
    requires n <= |f.payload|
    ensures sent + HeaderBytes(f.header)[..HEADER_BYTES] + f.payload[..n] == sent + FrameBytes(f)[..HEADER_BYTES + n]
  {
    assert FrameBytes(f)[..HEADER_BYTES + n] == HeaderBytes(f.header)[..HEADER_BYTES] + f.payload[..n];
    Regroup(sent, HeaderBytes(f.header)[..HEADER_BYTES], f.payload[..n]);
  }

  /** Writes one frame. A failure has written nothing or has broken the connection. */
  method WriteWireFrame(conn: TcpConnection, f: Frame, limits: Limits) returns (status: StatusCode, ghost written: nat)
    requires conn.Valid() && |f.payload| < TWO_63
    modifies conn`broken, conn.socket`sent, conn.env
    ensures old(conn.env.injected) <= conn.env.injected
    ensures written <= |FrameBytes(f)| && conn.socket.sent == old(conn.socket.sent) + FrameBytes(f)[..written]
    ensures status == OK ==> written == |FrameBytes(f)| && conn.IsOpen() == old(conn.IsOpen())
    ensures status == OK ==> Writable(f, limits)
    ensures status != OK ==> Local(status) && (written == 0 || !conn.IsOpen())
    ensures !old(conn.IsOpen()) ==> status != OK && written == 0
    ensures old(conn.IsOpen()) && conn.env.injected == old(conn.env.injected) ==>
      (status == OK <==> Writable(f, limits))
  {
    ghost var sent := conn.socket.sent;
    assert sent + FrameBytes(f)[..0] == sent;
    if f.header.payloadBytes != |f.payload| {
      return InvalidArgument, 0;
    }
    var encoded := EncodeHeader(f.header, limits);
    if encoded.Failure? {
      return encoded.code, 0;
    }
    status, written := conn.WriteExact(encoded.value);
    HeaderPart(f, written);
    if status != OK {
      return;
    }
    if f.payload != [] {
      ghost var more;
      status, more := conn.WriteExact(f.payload);
      PayloadPart(sent, f, more);
      written := HEADER_BYTES + more;
    }
  }

  // ---- Sequences of frames ----

  lemma StreamGrows(before: seq<byte>, frames: seq<Frame>, i: nat)
    requires i < |frames|
    ensures before + StreamOf(frames[..i]) + FrameBytes(frames[i]) == before + StreamOf(frames[..i + 1])
    ensures |StreamOf(frames[..i + 1])| == |StreamOf(frames[..i])| + |FrameBytes(frames[i])|
  {
    StreamAppend(frames[..i], frames[i]);
    assert frames[..i + 1] == frames[..i] + [frames[i]];
    Regroup(before, StreamOf(frames[..i]), FrameBytes(frames[i]));
  }

  method WriteFrames(conn: TcpConnection, frames: seq<Frame>, limits: Limits) returns (status: StatusCode)
    requires conn.Valid() && forall i :: 0 <= i < |frames| ==> |frames[i].payload| < TWO_63
    modifies conn`broken, conn.socket`sent, conn.env
    ensures old(conn.env.injected) <= conn.env.injected
    ensures status == OK ==> conn.socket.sent == old(conn.socket.sent) + StreamOf(frames)
    ensures status == OK ==> forall i :: 0 <= i < |frames| ==> Writable(frames[i], limits)
    ensures old(conn.IsOpen()) && conn.env.injected == old(conn.env.injected) ==>
      (forall i :: 0 <= i < |frames| ==> Writable(frames[i], limits)) ==> status == OK
  {
    var i := 0;
    assert old(conn.socket.sent) + StreamOf(frames[..0]) == old(conn.socket.sent);
    while i < |frames|
      invariant 0 <= i <= |frames| && old(conn.env.injected) <= conn.env.injected
      invariant conn.IsOpen() == old(conn.IsOpen())
      invariant conn.socket.sent == old(conn.socket.sent) + StreamOf(frames[..i])
      invariant forall j :: 0 <= j < i ==> Writable(frames[j], limits)
    {
      status := WriteNext(conn, old(conn.socket.sent), frames, i, limits);
      if status != OK {
        return;
      }
      i := i + 1;
    }
    assert frames[..i] == frames;
    return OK;
  }

  method WriteNext(conn: TcpConnection, ghost before: seq<byte>, frames: seq<Frame>, i: nat, limits: Limits)
    returns (status: StatusCode)
    requires conn.Valid() && i < |frames| && conn.socket.sent == before + StreamOf(frames[..i])
    requires |frames[i].payload| < TWO_63
    modifies conn`broken, conn.socket`sent, conn.env
    ensures old(conn.env.injected) <= conn.env.injected
    ensures status == OK ==> Writable(frames[i], limits) && conn.IsOpen() == old(conn.IsOpen())
    ensures status == OK ==> conn.socket.sent == before + StreamOf(frames[..i + 1])
    ensures old(conn.IsOpen()) && conn.env.injected == old(conn.env.injected) && Writable(frames[i], limits) ==> status == OK
  {
    ghost var written;
    status, written := WriteWireFrame(conn, frames[i], limits);
    StreamGrows(before, frames, i);
    assert FrameBytes(frames[i])[..|FrameBytes(frames[i])|] == FrameBytes(frames[i]);
  }

  lemma {:induction false} StreamPrefix(frames: seq<Frame>, i: nat)
    requires i <= |frames|
    ensures StreamOf(frames[..i]) <= StreamOf(frames)
    decreases |frames| - i
  {
    if i == |frames| {
      assert frames[..i] == frames;
    } else {
      StreamPrefix(frames, i + 1);
      StreamAppend(frames[..i], frames[i]);
      assert frames[..i + 1] == frames[..i] + [frames[i]];
    }
  }

  lemma SliceOfPrefix(s: seq<byte>, p: seq<byte>, q: seq<byte>)
    requires p + q <= s
    ensures |p| + |q| <= |s| && s[|p|..|p| + |q|] == q
  {
    assert s[..|p| + |q|] == p + q;
  }

  /** After `i` frames of a scripted stream, frame `i` is next. */
  lemma NextOfScript(frames: seq<Frame>, i: nat, sent: seq<byte>)
    requires i < |frames| && AllWellSized(frames)
    ensures NextIs(Scripted(StreamOf(frames)), sent, |StreamOf(frames[..i])|, frames[i])
    ensures |StreamOf(frames[..i + 1])| == |StreamOf(frames[..i])| + |FrameBytes(frames[i])|
  {
    StreamAppend(frames[..i], frames[i]);
    assert frames[..i + 1] == frames[..i] + [frames[i]];
    StreamPrefix(frames, i + 1);
    SliceOfPrefix(StreamOf(frames), StreamOf(frames[..i]), FrameBytes(frames[i]));
  }

  /** The frames of a stream, read back one by one however the bytes are cut: the same sequence, up
      to the first failure. */
  method ReadFrames(conn: TcpConnection, limits: Limits, count: nat, ghost frames: seq<Frame>)
    returns (status: StatusCode, got: seq<Frame>)
    requires conn.Valid() && conn.socket.peer == Scripted(StreamOf(frames)) && conn.socket.consumed == 0
    requires AllWellSized(frames) && count <= |frames|
    modifies conn`broken, conn.socket`consumed, conn.env
    ensures old(conn.env.injected) <= conn.env.injected
    ensures got <= frames && (status == OK ==> |got| == count) && (status != OK ==> !conn.IsOpen())
    ensures old(conn.IsOpen()) && conn.env.injected == old(conn.env.injected) ==>
      (forall i :: 0 <= i < count ==> Writable(frames[i], limits)) ==> status == OK
  {
    got := [];
    assert frames[..0] == [];
    while |got| < count
      invariant |got| <= count && got == frames[..|got|] && old(conn.env.injected) <= conn.env.injected
      invariant conn.socket.consumed == |StreamOf(frames[..|got|])| && conn.IsOpen() == old(conn.IsOpen())
      decreases count - |got|
    {
      var r := ReadNext(conn, limits, frames, |got|);
      if r.Failure? {
        return r.code, got;
      }
      got := got + [r.value];
    }
    return OK, got;
  }

  method ReadNext(conn: TcpConnection, limits: Limits, ghost frames: seq<Frame>, ghost i: nat) returns (r: Result<Frame>)
    requires conn.Valid() && conn.socket.peer == Scripted(StreamOf(frames)) && AllWellSized(frames) && i < |frames|
    requires conn.socket.consumed == |StreamOf(frames[..i])|
    modifies conn`broken, conn.socket`consumed, conn.env
    ensures old(conn.env.injected) <= conn.env.injected
    ensures r.Failure? ==> !conn.IsOpen() && r.code != OK
    ensures r.Success? ==> r.value == frames[i] && conn.IsOpen() == old(conn.IsOpen())
    ensures r.Success? ==> conn.socket.consumed == |StreamOf(frames[..i + 1])|
    ensures old(conn.IsOpen()) && conn.env.injected == old(conn.env.injected) && Writable(frames[i], limits) ==> r.Success?
  {
    NextOfScript(frames, i, conn.socket.sent);
    r := ReadWireFrame(conn, limits);
  }

  /** Fragmented round trip: what one side writes, the other reads, under arbitrary short writes and
      short reads. */
  method Transfer(writer: TcpConnection, frames: seq<Frame>, limits: Limits)
    returns (status: StatusCode, got: seq<Frame>)
    requires writer.Valid() && writer.socket.sent == []
    requires forall i :: 0 <= i < |frames| ==> |frames[i].payload| < TWO_63
    modifies writer`broken, writer.socket`sent, writer.env
    ensures got <= frames && (status == OK ==> got == frames)
    ensures old(writer.IsOpen()) && writer.env.injected == old(writer.env.injected) ==>
      (forall i :: 0 <= i < |frames| ==> Writable(frames[i], limits)) ==> status == OK
  {
    got := [];
    status := WriteFrames(writer, frames, limits);
    if status != OK {
      return;
    }
    assert [] + StreamOf(frames) == StreamOf(frames);
    var socket := new Socket(writer.env, Scripted(writer.socket.sent));
    var reader := new TcpConnection(writer.env, socket);
    status, got := ReadFrames(reader, limits, |frames|, frames);
  }
}
