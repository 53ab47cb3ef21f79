/** The RPC client (src/rpc/tcp_connector.cpp): one connection, reused only while it is known to be
    at a frame boundary with nothing owed. */
module TcpConnector {
  import opened Status
  import opened Faults
  import opened Blocks
  import opened WireCodec
  import opened WireMessages
  import opened WireStreams
  import opened TcpConnection
  import opened WireFraming
  import BlockCodec

  /** The connection carried exactly the requests `asked`, all of them whole, and an in-order peer
      owes no byte of an answer. */
  ghost predicate InSync(peer: Peer, sent: seq<byte>, consumed: nat, asked: seq<Frame>) {
    && AllWellSized(asked) && sent == StreamOf(asked)
    && (peer.InOrder? ==> consumed == |Replies(sent, peer.reply)|)
  }

  /** A peer that answers with whole frames. What they say is up to the peer, and may depend on all the
      requests so far. */
  ghost predicate Orderly(peer: Peer) {
    !peer.Scripted? && forall fs :: RepliesWhole(peer, fs)
  }

  ghost predicate RepliesWhole(peer: Peer, fs: seq<Frame>) {
    peer.InOrder? ==> WellSized(peer.reply(fs))
  }

  lemma EndsWith(a: seq<byte>, b: seq<byte>)
    ensures (a + b)[|a|..|a| + |b|] == b
  {
  }

  lemma EndIsNext(peer: Peer, sent: seq<byte>, earlier: seq<byte>, f: Frame)
    requires !peer.Arbitrary? && WellSized(f) && Inbound(peer, sent) == earlier + FrameBytes(f)
    ensures NextIs(peer, sent, |earlier|, f)
  {
    EndsWith(earlier, FrameBytes(f));
  }

  /** Once the request is written, its own answer is next and the only one to come. */
  lemma AnswerIsNext(peer: Peer, sent: seq<byte>, consumed: nat, asked: seq<Frame>, request: Frame)
    requires InSync(peer, sent, consumed, asked) && WellSized(request) && peer.InOrder? && Orderly(peer)
    ensures NextIs(peer, sent + FrameBytes(request), consumed, peer.reply(asked + [request]))
    ensures consumed + |FrameBytes(peer.reply(asked + [request]))| == |Replies(sent + FrameBytes(request), peer.reply)|
  {
    StreamAppend(asked, request);
    OneMoreReply(asked, request, peer.reply);
    assert RepliesWhole(peer, asked + [request]);
    EndIsNext(peer, sent + FrameBytes(request), Replies(sent, peer.reply), peer.reply(asked + [request]));
  }

  lemma AskedMore(sent: seq<byte>, asked: seq<Frame>, request: Frame)
    requires AllWellSized(asked) && sent == StreamOf(asked) && WellSized(request)
    ensures AllWellSized(asked + [request]) && sent + FrameBytes(request) == StreamOf(asked + [request])
  {
    StreamAppend(asked, request);
  }

  /** Writes a request and reads a frame. */
  method Exchange(conn: TcpConnection, request: Frame, limits: Limits, ghost asked: seq<Frame>)
    returns (r: Result<Frame>, ghost written: nat)
    requires conn.Valid() && conn.IsOpen() && Orderly(conn.socket.peer) && |request.payload| < TWO_63
    requires InSync(conn.socket.peer, conn.socket.sent, conn.socket.consumed, asked)
    modifies conn`broken, conn.socket, conn.env
    ensures old(conn.env.injected) <= conn.env.injected
    ensures written <= |FrameBytes(request)| && conn.socket.sent == old(conn.socket.sent) + FrameBytes(request)[..written]
    ensures r.Success? ==>
      && conn.IsOpen() && Writable(r.value, limits) && written == |FrameBytes(request)|
      && InSync(conn.socket.peer, conn.socket.sent, conn.socket.consumed, asked + [request])
      && (conn.socket.peer.InOrder? ==> r.value == conn.socket.peer.reply(asked + [request]))
    ensures r.Failure? ==> Local(r.code)
    ensures conn.env.injected == old(conn.env.injected) && conn.socket.peer.InOrder? && Writable(request, limits) ==>
      (r.Success? <==> Writable(conn.socket.peer.reply(asked + [request]), limits))
  {
    ghost var peer, sent, consumed := conn.socket.peer, conn.socket.sent, conn.socket.consumed;
    var status;
    status, written := WriteWireFrame(conn, request, limits);
    if status != OK {
      return Failure(status), written;
    }
    assert FrameBytes(request)[..written] == FrameBytes(request);
    AskedMore(sent, asked, request);
    if peer.InOrder? {
      AnswerIsNext(peer, sent, consumed, asked, request);
    }
    r := ReadWireFrame(conn, limits);
  }

  /** The response is to this request. */
  predicate Answers(request: Frame, response: Frame) {
    && response.header.kind == RESPONSE
    && response.header.opcode == request.header.opcode
    && response.header.requestId == request.header.requestId
  }

  /** The checks on a received frame: kind, opcode, id, then its content, which may fail to be copied. */
  method CheckResponse(env: Environment, request: Frame, response: Frame, limits: Limits) returns (status: StatusCode)
    requires |response.payload| < TWO_63
    modifies env
    ensures old(env.injected) <= env.injected
    ensures status == OK ==> Answers(request, response) && ValidResponse(response, limits)
    ensures status != OK ==> Local(status)
    ensures status == OutOfCapacity ==> old(env.injected) < env.injected
    ensures !Answers(request, response) ==> status == Corruption
    ensures env.injected == old(env.injected) ==>
      (status == OK <==> Answers(request, response) && ValidResponse(response, limits))
    ensures status == OK ==>
      && response.header.kind == 2 && response.header.opcode == request.header.opcode
      && response.header.requestId == request.header.requestId
  {
    if response.header.kind != RESPONSE {
      return Corruption;
    }
    if response.header.opcode != request.header.opcode {
      return Corruption;
    }
    if response.header.requestId != request.header.requestId {
      return Corruption;
    }
    status := ValidateResponse(response, limits);
    if status == OK && response.payload != [] {
      var failed := env.Fails();
      if failed {
        return OutOfCapacity;
      }
    }
  }

  // ---- Request ids ----

  function NextId(id: u64): u64 {
    if id == TWO_64 - 1 then 1 else id + 1
  }

  function IdAfter(id: u64, n: nat): u64 {
    if n == 0 then id else NextId(IdAfter(id, n - 1))
  }

  /** Ids are never the reserved zero, and repeat only after 2^64 - 1 of them. */
  lemma {:induction false} IdsAreDistinct(id: u64, n: nat)
    requires id != 0
    ensures IdAfter(id, n) != 0
    ensures IdAfter(id, n) == (id - 1 + n) % (TWO_64 - 1) + 1
    ensures 0 < n < TWO_64 - 1 ==> IdAfter(id, n) != id
  {
    if n > 0 {
      IdsAreDistinct(id, n - 1);
    }
  }

  // ---- What the caller is told ----

  function RemoteStatus(response: Frame): StatusCode {
    match FromWireStatus(response.header.status)
    case Success(code) => code
    case Failure(code) => code
  }

  /** The result of a Get whose answer is `response`. */
  function GetResult(response: Frame): Result<Block>
    requires |response.payload| < TWO_63
  {
    if response.header.status != 0 then Failure(RemoteStatus(response))
    else
      match BlockCodec.ParseBlock(response.payload)
      case Success(block) => Success(block)
      case Failure(_) => Failure(Corruption)
  }

  /** What the client is told for each status on the wire. */
  lemma ClientIsTold(response: Frame, limits: Limits)
    requires ValidResponse(response, limits) && response.header.status != 0 && |response.payload| < TWO_63
    ensures GetResult(response) == Failure(RemoteStatus(response))
    ensures RemoteStatus(response) == NotImplemented <==> response.header.status == 1
    ensures RemoteStatus(response) == NotFound <==> response.header.status == 2
    ensures RemoteStatus(response) == InvalidArgument <==> response.header.status == 3
    ensures RemoteStatus(response) == AlreadyExists <==> response.header.status == 4
    ensures RemoteStatus(response) == IoError <==> response.header.status == 5
    ensures RemoteStatus(response) == NetworkError <==> response.header.status == 6
    ensures RemoteStatus(response) == Unavailable <==> response.header.status == 7
    ensures RemoteStatus(response) == OutOfCapacity <==> response.header.status == 8
    ensures RemoteStatus(response) == Corruption <==> response.header.status == 9
    ensures RemoteStatus(response) == Internal <==> response.header.status == 10
    ensures RemoteStatus(response) != OK
  {
  }

  /** The result of a Get is what its answer says. */
  ghost predicate IsResult(r: Result<Block>, answer: Option<Frame>) {
    answer.Some? && |answer.value.payload| < TWO_63 && r == GetResult(answer.value)
  }

  function RequestFrame(opcode: byte, id: u64, payload: seq<byte>): Frame
    requires |payload| < TWO_63
  {
    Frame(FrameHeader(REQUEST, opcode, 0, 0, id, |payload|), payload)
  }

  /** The request is the put of this block under this key, within the limits. */
  ghost predicate IsPut(request: Frame, id: u64, key: BlockKey, block: Block, limits: Limits) {
    && request.header.opcode == PUT && request.header.requestId == id && ValidRequest(request, limits)
    && PutOf(request) == Some(Update(key, block))
    && CanShip(block, limits)
  }

  lemma PutRequestIs(id: u64, key: BlockKey, block: Block, payload: seq<byte>, limits: Limits)
    requires payload == KeyBytes(key) + BlockCodec.Serialized(block) && |payload| < TWO_63
    requires ValidateBlockSize(block, limits) == OK && id != 0
    ensures IsPut(RequestFrame(PUT, id, payload), id, key, block, limits)
  {
    BlockTransfer(key, block, id, limits);
    BlockCodec.ParseSerialized(block);
    PutContent(RequestFrame(PUT, id, payload), key, block);
  }

  /** What one call did: whom it asked, after which requests on the same connection, what it asked, how
      much of that went out, and the answer it accepted. */
  datatype Trace = Trace(peer: Peer, asked: seq<Frame>, request: Frame, written: nat, answer: Option<Frame>)

  ghost function Reply(trace: Trace): Frame
    requires trace.peer.InOrder?
  {
    trace.peer.reply(trace.asked + [trace.request])
  }

  /** Whether an in-order peer answers the request with something the codec accepts as its answer. */
  ghost predicate AnsweredWell(trace: Trace, limits: Limits) {
    && trace.peer.InOrder? && ValidRequest(trace.request, limits) && Writable(Reply(trace), limits)
    && Answers(trace.request, Reply(trace)) && ValidResponse(Reply(trace), limits)
  }

  /** An accepted answer is a well-formed response to the request, and an in-order peer's own reply to it. */
  ghost predicate Accepts(limits: Limits, trace: Trace) {
    && trace.answer.Some? && Answers(trace.request, trace.answer.value)
    && ValidResponse(trace.answer.value, limits) && |trace.answer.value.payload| < TWO_63
    && trace.written == |FrameBytes(trace.request)|
    && (trace.peer.InOrder? ==> trace.answer.value == Reply(trace))
  }

  /** The requests on the connection after the call, if it is still held. */
  ghost function AskedAfter(trace: Trace): seq<Frame> {
    if trace.written == 0 then trace.asked else trace.asked + [trace.request]
  }

  datatype Endpoint = Endpoint(host: string, port: u16)

  /** In milliseconds. */
  datatype Timeouts = Timeouts(connect: int, read: int, write: int)

  class TcpConnector {
    const env: Environment
    const limits: Limits
    const endpoint: Endpoint
    const timeouts: Timeouts
    var connection: TcpConnection?
    var nextRequestId: u64
    var offered: Socket?  // what the next connect will reach, chosen by the network; none if nothing answers
    ghost var asked: seq<Frame>  // the requests on the held connection

    ghost function Parts(): set<object>
      reads this
    {
      (if connection == null then {} else {connection, connection.socket}) + (if offered == null then {} else {offered})
    }

    /** The socket that the next call would use. */
    ghost function Link(): Socket?
      reads this
    {
      if connection != null then connection.socket else offered
    }

    /** A held connection is open, at a frame boundary, and owed no response. */
    ghost predicate Valid()
      reads this, Parts()
    {
      && nextRequestId != 0
      && (connection == null || offered == null) && (connection == null ==> asked == [])
      && (Link() != null ==>
            && Link().env == env && Orderly(Link().peer)
            && InSync(Link().peer, Link().sent, Link().consumed, asked))
      && (connection != null ==> connection.Valid() && connection.env == env && connection.IsOpen())
    }

    constructor (env: Environment, limits: Limits, endpoint: Endpoint, timeouts: Timeouts)
      ensures Valid() && connection == null && offered == null && nextRequestId == 1
      ensures this.env == env && this.limits == limits && this.endpoint == endpoint && this.timeouts == timeouts
    {
      this.env, this.limits, this.endpoint, this.timeouts := env, limits, endpoint, timeouts;
      connection, nextRequestId, offered, asked := null, 1, null, [];
    }

    /** The network's move: from now on a connect reaches `socket`. */
    method Offer(socket: Socket)
      requires Valid() && Link() == null && socket.env == env && Orderly(socket.peer)
      requires socket.sent == [] && socket.consumed == 0
      modifies `offered
      ensures Valid() && Link() == socket && asked == [] && connection == null
    {
      offered := socket;
      EmptySync(socket.peer);
    }

    /** There is somewhere to connect to, and no timeout is negative. */
    predicate Configured() {
      endpoint.host != "" && endpoint.port != 0 && 0 <= timeouts.connect && 0 <= timeouts.read && 0 <= timeouts.write
    }

    method ValidateConfiguration() returns (status: StatusCode)
      ensures status == if Configured() && HEADER_BYTES <= limits.maxFrameBytes then OK else InvalidArgument
      ensures status == OK <==>
        && endpoint.host != "" && endpoint.port != 0 && 0 <= timeouts.connect && 0 <= timeouts.read && 0 <= timeouts.write
        && 32 <= limits.maxFrameBytes
    {
      if endpoint.host == "" {
        return InvalidArgument;
      }
      if endpoint.port == 0 {
        return InvalidArgument;
      }
      if timeouts.connect < 0 || timeouts.read < 0 || timeouts.write < 0 {
        return InvalidArgument;
      }
      if limits.maxFrameBytes < HEADER_BYTES {
        return InvalidArgument;
      }
      return OK;
    }

    method DropConnection()
      modifies `connection, `asked, connection
      ensures connection == null
      ensures asked == if old(connection) == null then old(asked) else []
      ensures old(connection) != null ==> !old(connection).IsOpen()
    {
      if connection == null {
        return;
      }
      connection.Close();
      connection, asked := null, [];
    }

    /** Reuses the held connection, or makes a new one. */
    method EnsureConnected() returns (status: StatusCode)
      requires Valid()
      modifies `connection, `offered, env
      ensures Valid() && old(env.injected) <= env.injected && Link() == old(Link())
      ensures status == OK ==> connection != null
      ensures status != OK ==>
        connection == null && Local(status) && (Link() == null || old(env.injected) < env.injected)
      ensures connection != null && connection != old(connection) ==> fresh(connection)
    {
      if connection != null && connection.IsOpen() {
        return OK;
      }
      assert connection == null;
      var failed := env.Fails();
      if failed || offered == null {
        status := *;
        if status != NetworkError && status != OutOfCapacity {
          status := Unavailable;
        }
        return;
      }
      connection := new TcpConnection(env, offered);
      offered := null;
      return OK;
    }

    method AllocateRequestId() returns (id: u64)
      modifies `nextRequestId
      ensures id == old(nextRequestId) && nextRequestId == NextId(id)
    {
      id := nextRequestId;
      nextRequestId := if id == TWO_64 - 1 then 1 else id + 1;
    }

    /** The network part of a call, on a held connection: the answer, or a failure after which the
        connection is gone unless its frame was read whole. */
    method Converse(request: Frame) returns (r: Result<Frame>, ghost trace: Trace)
      requires Valid() && connection != null && |request.payload| < TWO_63
      modifies `connection, `asked, connection, connection.socket, env
      ensures Valid() && old(env.injected) <= env.injected
      ensures connection == null || connection == old(connection)
      ensures trace.peer == old(connection).socket.peer && trace.asked == old(asked) && trace.request == request
      ensures trace.written <= |FrameBytes(request)|
      ensures old(connection).socket.sent == old(connection.socket.sent) + FrameBytes(request)[..trace.written]
      ensures connection != null ==> asked == old(asked) + [request] && trace.written == |FrameBytes(request)|
      ensures trace.answer == if r.Success? then Some(r.value) else None
      ensures r.Success? ==> Accepts(limits, trace) && connection != null
      ensures r.Failure? ==> Local(r.code)
      ensures r.Failure? && connection != null ==> r.code == OutOfCapacity && old(env.injected) < env.injected
      ensures env.injected == old(env.injected) && AnsweredWell(trace, limits) ==> r.Success?
    {
      ghost var peer, before, written := connection.socket.peer, asked, 0;
      r, written := Exchange(connection, request, limits, asked);
      trace := Trace(peer, before, request, written, None);
      if r.Failure? {
        DropConnection();
        return;
      }
      asked := asked + [request];
      var failed := env.Fails();
      if failed {
        DropConnection();
        return Failure(OutOfCapacity), trace;
      }
      var status := CheckResponse(env, request, r.value, limits);
      if status != OK {
        if status != OutOfCapacity {
          DropConnection();
        }
        return Failure(status), trace;
      }
      trace := Trace(peer, before, request, written, Some(r.value));
    }

    /** One RPC. The answer it returns is to its own request, which it sends at most once: it writes a
        prefix of the one frame to the one connection, and on return a held connection owes nothing. */
    method Execute(opcode: byte, payload: seq<byte>) returns (r: Result<Frame>, ghost trace: Trace)
      requires Valid() && |payload| < TWO_63
      modifies `connection, `nextRequestId, `offered, `asked, Parts(), env
      ensures Valid() && old(env.injected) <= env.injected && fresh(Parts() - old(Parts()))
      ensures trace.request == RequestFrame(opcode, old(nextRequestId), payload) && nextRequestId == NextId(old(nextRequestId))
      ensures trace.asked == old(asked) && (old(Link()) != null ==> trace.peer == old(Link()).peer)
      ensures trace.written <= |FrameBytes(trace.request)| && (trace.written > 0 ==> ValidRequest(trace.request, limits))
      ensures Link() == null || Link() == old(Link())
      ensures old(Link()) == null ==> trace.written == 0 && r.Failure?
      ensures old(Link()) != null ==>
        old(Link()).sent == old(Link().sent) + FrameBytes(trace.request)[..trace.written]
      ensures Link() != null ==> asked == AskedAfter(trace) && trace.written in {0, |FrameBytes(trace.request)|}
      ensures trace.answer == if r.Success? then Some(r.value) else None
      ensures r.Success? ==> Accepts(limits, trace) && connection != null
      ensures r.Success? ==>
        r.value.header.kind == 2 && r.value.header.opcode == opcode && r.value.header.requestId == old(nextRequestId)
      ensures r.Failure? ==> Local(r.code)
      ensures r.Failure? && Link() != null && trace.written > 0 ==>
        r.code == OutOfCapacity && old(env.injected) < env.injected
      ensures env.injected == old(env.injected) && old(Link()) != null && AnsweredWell(trace, limits) ==> r.Success?
    {
      ghost var peer := if Link() == null then Arbitrary else Link().peer;
      var id := AllocateRequestId();
      var request := RequestFrame(opcode, id, payload);
      trace := Trace(peer, asked, request, 0, None);
      assert FrameBytes(request)[..0] == [];
      var status := ValidateRequest(request, limits);
      if status != OK {
        return Failure(status), trace;
      }
      status := EnsureConnected();
      if status != OK {
        return Failure(status), trace;
      }
      r, trace := Converse(request);
    }

    /** Copies the message of a remote error. */
    method DecodeRemoteError(response: Frame) returns (status: StatusCode)
      requires ValidResponse(response, limits) && response.header.status != 0
      modifies env
      ensures old(env.injected) <= env.injected && status != OK
      ensures env.injected == old(env.injected) ==>
        (status == NotFound <==> response.header.status == 2) && (status == Corruption <==> response.header.status == 9)
      ensures status == RemoteStatus(response) || (status == OutOfCapacity && old(env.injected) < env.injected)
    {
      var message := DecodeErrorPayload(response.payload, limits);
      assert message.Success?;
      var failed := env.Fails();
      if failed {
        return OutOfCapacity;
      }
      var code := FromWireStatus(response.header.status);
      assert code.Success? && code.value != OK;
      return code.value;
    }

    /** Fetches a block. A success is the block in the answer to this very request. */
    method Get(key: BlockKey) returns (r: Result<Block>, ghost trace: Trace)
      requires Valid()
      modifies `connection, `nextRequestId, `offered, `asked, Parts(), env
      ensures Valid() && old(env.injected) <= env.injected && fresh(Parts() - old(Parts()))
      ensures trace.request == RequestFrame(GET, old(nextRequestId), KeyBytes(key))
      ensures trace.asked == old(asked) && (old(Link()) != null ==> trace.peer == old(Link()).peer)
      ensures trace.written <= |FrameBytes(trace.request)|
      ensures Link() == null || Link() == old(Link())
      ensures old(Link()) == null ==> trace.written == 0
      ensures old(Link()) != null ==>
        old(Link()).sent == old(Link().sent) + FrameBytes(trace.request)[..trace.written]
      ensures Link() != null ==> asked == AskedAfter(trace) && trace.written in {0, |FrameBytes(trace.request)|}
      ensures trace.answer.Some? ==> Accepts(limits, trace)
      ensures IsResult(r, trace.answer) || (r.Failure? && Local(r.code))
      ensures env.injected == old(env.injected) && Configured() && old(Link()) != null && AnsweredWell(trace, limits) ==>
        IsResult(r, trace.answer)
    {
      ghost var peer := if Link() == null then Arbitrary else Link().peer;
      trace := Trace(peer, asked, RequestFrame(GET, nextRequestId, KeyBytes(key)), 0, None);
      assert FrameBytes(trace.request)[..0] == [];
      var status := ValidateConfiguration();
      if status != OK {
        return Failure(status), trace;
      }
      var failed := env.Fails();
      if failed {
        return Failure(OutOfCapacity), trace;
      }
      var response;
      response, trace := Execute(GET, KeyBytes(key));
      if response.Failure? {
        return Failure(response.code), trace;
      }
      if response.value.header.status != 0 {
        status := DecodeRemoteError(response.value);
        return Failure(status), trace;
      }
      r := ReceiveBlock(response.value);
    }

    /** Decodes the blob of a successful Get. A blob that is no block ends the connection. */
    method ReceiveBlock(response: Frame) returns (r: Result<Block>)
      requires Valid() && connection != null && ValidResponse(response, limits) && |response.payload| < TWO_63
      requires response.header.status == 0 && response.header.opcode == GET
      modifies `connection, `asked, connection, env
      ensures Valid() && old(env.injected) <= env.injected
      ensures connection == null || (connection == old(connection) && asked == old(asked))
      ensures r == GetResult(response) || (r == Failure(OutOfCapacity) && old(env.injected) < env.injected)
    {
      var blob := DecodeGetSuccessPayload(response.payload, limits);
      assert blob == Success(response.payload);
      var failed := env.Fails();
      if failed {
        return Failure(OutOfCapacity);
      }
      var decoded := BlockCodec.DeserializeHeader(blob.value);
      if decoded.Failure? {
        DropConnection();
        return Failure(Corruption);
      }
      var h := decoded.value;
      failed := env.Fails();
      if failed {
        return Failure(OutOfCapacity);
      }
      return Success(Block(h.metadata, blob.value[h.payloadOffset..h.payloadOffset + h.payloadLen]));
    }

    /** The payload of a put, or the reason why there is none. */
    method EncodePut(key: BlockKey, block: Block) returns (r: Result<seq<byte>>)
      requires nextRequestId != 0
      modifies env
      ensures old(env.injected) <= env.injected && (r.Failure? ==> Local(r.code))
      ensures r.Success? ==>
        |r.value| < TWO_63 && IsPut(RequestFrame(PUT, nextRequestId, r.value), nextRequestId, key, block, limits)
      ensures env.injected == old(env.injected) ==> (r.Success? <==> Configured() && CanShip(block, limits))
    {
      var status := ValidateConfiguration();
      if status != OK {
        return Failure(status);
      }
      status := ValidateBlockSize(block, limits);
      if status != OK {
        return Failure(status);
      }
      var failed := env.Fails();
      if failed || KEY_BYTES + BlockCodec.HEADER_SIZE + block.Size() >= TWO_63 {
        return Failure(OutOfCapacity);
      }
      var blob := BlockCodec.SerializeBlock(block);
      BlockTransfer(key, block, 1, limits);
      r := EncodePutRequest(key, blob, limits);
      PutRequestIs(nextRequestId, key, block, r.value, limits);
    }

    /** Stores a block. The request carries exactly the key and the block. */
    method Put(key: BlockKey, block: Block) returns (status: StatusCode, ghost trace: Option<Trace>)
      requires Valid()
      modifies `connection, `nextRequestId, `offered, `asked, Parts(), env
      ensures Valid() && old(env.injected) <= env.injected && fresh(Parts() - old(Parts()))
      ensures Link() == null || Link() == old(Link())
      ensures trace.None? ==> Link() == old(Link()) && asked == old(asked) && (old(Link()) != null ==> old(Link()).sent == old(Link().sent))
      ensures trace.Some? ==>
        && IsPut(trace.value.request, old(nextRequestId), key, block, limits)
        && trace.value.asked == old(asked) && (old(Link()) != null ==> trace.value.peer == old(Link()).peer)
        && trace.value.written <= |FrameBytes(trace.value.request)|
        && (old(Link()) == null ==> trace.value.written == 0)
        && (old(Link()) != null ==>
              old(Link()).sent == old(Link().sent) + FrameBytes(trace.value.request)[..trace.value.written])
        && (Link() != null ==>
              asked == AskedAfter(trace.value) && trace.value.written in {0, |FrameBytes(trace.value.request)|})
        && (trace.value.answer.Some? ==> Accepts(limits, trace.value) && Link() != null)
      ensures status == OK <==> trace.Some? && trace.value.answer.Some? && trace.value.answer.value.header.status == 0
      ensures env.injected == old(env.injected) && trace.Some? && old(Link()) != null && AnsweredWell(trace.value, limits) ==>
        trace.value.answer.Some? && status == RemoteStatus(trace.value.answer.value)
      ensures env.injected == old(env.injected) ==> (trace.Some? <==> Configured() && CanShip(block, limits))
    {
      trace := None;
      var payload := EncodePut(key, block);
      if payload.Failure? {
        return payload.code, trace;
      }
      var response, made := Execute(PUT, payload.value);
      trace := Some(made);
      status := Conclude(response);
    }

    /** The end of a call that returns only a status. */
    method Conclude(response: Result<Frame>) returns (status: StatusCode)
      requires response.Success? ==> ValidResponse(response.value, limits)
      requires response != Failure(OK)
      modifies env
      ensures old(env.injected) <= env.injected
      ensures response.Failure? ==> status == response.code
      ensures response.Success? ==> (status == OK <==> response.value.header.status == 0)
      ensures response.Success? ==>
        || status == RemoteStatus(response.value)
        || (status == OutOfCapacity && response.value.header.status != 0 && old(env.injected) < env.injected)
    {
      if response.Failure? {
        return response.code;
      }
      if response.value.header.status != 0 {
        status := DecodeRemoteError(response.value);
        return;
      }
      return OK;
    }

    method Ping() returns (status: StatusCode, ghost trace: Trace)
      requires Valid()
      modifies `connection, `nextRequestId, `offered, `asked, Parts(), env
      ensures Valid() && old(env.injected) <= env.injected && fresh(Parts() - old(Parts()))
      ensures trace.request == RequestFrame(PING, old(nextRequestId), [])
      ensures trace.asked == old(asked) && (old(Link()) != null ==> trace.peer == old(Link()).peer)
      ensures trace.written <= |FrameBytes(trace.request)|
      ensures Link() == null || Link() == old(Link())
      ensures old(Link()) == null ==> trace.written == 0
      ensures old(Link()) != null ==>
        old(Link()).sent == old(Link().sent) + FrameBytes(trace.request)[..trace.written]
      ensures Link() != null ==> asked == AskedAfter(trace) && trace.written in {0, |FrameBytes(trace.request)|}
      ensures trace.answer.Some? ==> Accepts(limits, trace)
      ensures status == OK ==> trace.answer.Some? && trace.answer.value.header.status == 0
      ensures env.injected == old(env.injected) && Configured() && old(Link()) != null && AnsweredWell(trace, limits) ==>
        trace.answer.Some? && status == RemoteStatus(trace.answer.value)
    {
      ghost var peer := if Link() == null then Arbitrary else Link().peer;
      trace := Trace(peer, asked, RequestFrame(PING, nextRequestId, []), 0, None);
      assert FrameBytes(trace.request)[..0] == [];
      status := ValidateConfiguration();
      if status != OK {
        return;
      }
      var response;
      response, trace := Execute(PING, []);
      status := Conclude(response);
    }

    method Close()
      requires Valid()
      modifies `connection, `asked, connection
      ensures Valid() && connection == null && offered == old(offered)
      ensures old(connection) == null ==> asked == old(asked)
    {
      DropConnection();
    }
  }

  lemma EmptySync(peer: Peer)
    ensures InSync(peer, [], 0, [])
  {
  }
}
