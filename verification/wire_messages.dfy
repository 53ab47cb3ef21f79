/** The payloads of wire protocol v1 and whole messages (src/protocol/wire_codec.cpp). */
module WireMessages {
  import opened Status
  import opened Blocks
  import opened Words
  import opened WireCodec
  import BlockCodec

  /** A received or constructed frame: header and contiguous payload. */
  datatype Frame = Frame(header: FrameHeader, payload: seq<byte>)

  // ---- Keys ----

  function KeyBytes(key: BlockKey): (r: seq<byte>)
    ensures |r| == KEY_BYTES
  {
    Big(8, key.prefixHash) + Big(4, key.prefixLen) + Big(4, key.modelFingerprint)
  }

  function KeyOf(b: seq<byte>): BlockKey
    requires |b| == KEY_BYTES
  {
    BigFits(b[0..8]);
    BigFits(b[8..12]);
    BigFits(b[12..16]);
    BlockKey(FromBig(b[0..8]), FromBig(b[8..12]), FromBig(b[12..16]))
  }

  function DecodeBlockKey(b: seq<byte>): Result<BlockKey> {
    if |b| != KEY_BYTES then Failure(Corruption) else Success(KeyOf(b))
  }

  /** Keys and 16-byte strings correspond one to one. */
  lemma KeyBijection(b: seq<byte>, key: BlockKey)
    ensures DecodeBlockKey(b) == Success(key) <==> b == KeyBytes(key)
  {
    var c := KeyBytes(key);
    WordSizes();
    BigRoundTrip(8, key.prefixHash);
    BigRoundTrip(4, key.prefixLen);
    BigRoundTrip(4, key.modelFingerprint);
    assert c[0..8] == Big(8, key.prefixHash);
    assert c[8..12] == Big(4, key.prefixLen);
    assert c[12..16] == Big(4, key.modelFingerprint);
    if |b| == KEY_BYTES {
      FromBigRoundTrip(b[0..8]);
      FromBigRoundTrip(b[8..12]);
      FromBigRoundTrip(b[12..16]);
      SliceJoin(b, 0, 8, 12);
      SliceJoin(b, 0, 12, 16);
      assert b[0..16] == b;
    }
  }

  // ---- Payloads ----

  function EncodeGetSuccessPayload(blob: seq<byte>, limits: Limits): Result<seq<byte>>
    requires |blob| < TWO_64
  {
    if blob == [] then Failure(InvalidArgument)
    else if ValidateFrameSize(|blob|, limits).Failure? then Failure(ValidateFrameSize(|blob|, limits).code)
    else Success(blob)
  }

  function DecodeGetSuccessPayload(payload: seq<byte>, limits: Limits): Result<seq<byte>>
    requires |payload| < TWO_64
  {
    if payload == [] then Failure(Corruption)
    else
      match ValidateFrameSizeImpl(|payload|, limits, true)
      case Failure(c) => Failure(c)
      case Success(_) => Success(payload)
  }

  function EncodePutRequest(key: BlockKey, blob: seq<byte>, limits: Limits): Result<seq<byte>>
    requires |blob| < TWO_64
  {
    if blob == [] then Failure(InvalidArgument)
    else if |blob| > TWO_64 - 1 - KEY_BYTES then Failure(InvalidArgument)
    else
      match ValidateFrameSize(Wrap(KEY_BYTES + |blob|, TWO_64 - 1), limits)
      case Failure(c) => Failure(c)
      case Success(_) => Success(KeyBytes(key) + blob)
  }

  function DecodePutRequest(payload: seq<byte>, limits: Limits): Result<(BlockKey, seq<byte>)>
    requires |payload| < TWO_64
  {
    if |payload| <= KEY_BYTES then Failure(Corruption)
    else
      match ValidateFrameSizeImpl(|payload|, limits, true)
      case Failure(c) => Failure(c)
      case Success(_) => Success((KeyOf(payload[..KEY_BYTES]), payload[KEY_BYTES..]))
  }

  function EncodeErrorPayload(message: seq<byte>, limits: Limits): Result<seq<byte>>
    requires |message| < TWO_64
  {
    if |message| > limits.maxErrorMessageBytes then Failure(InvalidArgument)
    else
      match ValidateFrameSize(Wrap(4 + |message|, TWO_64 - 1), limits)
      case Failure(c) => Failure(c)
      case Success(_) => Success(Big(4, |message|) + message)
  }

  function DecodeErrorPayload(payload: seq<byte>, limits: Limits): Result<seq<byte>>
    requires |payload| < TWO_64
  {
    if |payload| < 4 then Failure(Corruption)
    else
      match ValidateFrameSizeImpl(|payload|, limits, true)
      case Failure(c) => Failure(c)
      case Success(_) =>
        var n := FromBig(payload[..4]);
        if n > limits.maxErrorMessageBytes then Failure(Corruption)
        else if n != |payload| - 4 then Failure(Corruption)
        else Success(payload[4..])
  }

  /** A payload decodes to a key and a blob exactly if it is what they encode to. */
  lemma PutPayloadBijection(payload: seq<byte>, key: BlockKey, blob: seq<byte>, limits: Limits)
    requires |payload| < TWO_64 && |blob| < TWO_64 && HEADER_BYTES <= limits.maxFrameBytes
    ensures DecodePutRequest(payload, limits) == Success((key, blob)) <==>
            EncodePutRequest(key, blob, limits) == Success(payload)
  {
    if |payload| >= KEY_BYTES {
      KeyBijection(payload[..KEY_BYTES], key);
      assert payload == payload[..KEY_BYTES] + payload[KEY_BYTES..];
    }
    var encoded := KeyBytes(key) + blob;
    assert encoded[..KEY_BYTES] == KeyBytes(key) && encoded[KEY_BYTES..] == blob;
  }

  lemma ErrorPayloadBijection(payload: seq<byte>, message: seq<byte>, limits: Limits)
    requires |payload| < TWO_64 && |message| < TWO_64 && HEADER_BYTES <= limits.maxFrameBytes
    ensures DecodeErrorPayload(payload, limits) == Success(message) <==>
            EncodeErrorPayload(message, limits) == Success(payload)
  {
    if |payload| >= 4 {
      FromBigRoundTrip(payload[..4]);
      assert payload == payload[..4] + payload[4..];
    }
    if |message| <= limits.maxErrorMessageBytes {
      WordSizes();
      BigRoundTrip(4, |message|);
      var encoded := Big(4, |message|) + message;
      assert encoded[..4] == Big(4, |message|) && encoded[4..] == message;
    }
  }

  // ---- Whole frames ----

  predicate ValidRequest(f: Frame, limits: Limits) {
    && ValidHeader(f.header, limits) && f.header.kind == REQUEST && f.header.requestId != 0
    && |f.payload| == f.header.payloadBytes
  }

  predicate ValidResponse(f: Frame, limits: Limits) {
    && ValidHeader(f.header, limits) && f.header.kind == RESPONSE && f.header.requestId != 0
    && |f.payload| == f.header.payloadBytes
    && (f.header.status != 0 ==> FromBig(f.payload[..4]) == |f.payload| - 4)
  }

  method ValidateRequest(f: Frame, limits: Limits) returns (r: StatusCode)
    requires |f.payload| < TWO_64
    ensures r == OK <==> ValidRequest(f, limits)
    ensures r in {OK, Corruption, InvalidArgument}
  {
    r := ValidateHeaderFields(f.header, limits, true);
    if r != OK {
      return;
    }
    if f.header.kind != REQUEST || f.header.requestId == 0 || f.header.payloadBytes != |f.payload| {
      return Corruption;
    }
    if f.header.opcode == GET {
      return DecodeBlockKey(f.payload).Code();
    }
    if f.header.opcode == PUT {
      return DecodePutRequest(f.payload, limits).Code();
    }
    return if f.payload == [] then OK else Corruption;
  }

  method ValidateResponse(f: Frame, limits: Limits) returns (r: StatusCode)
    requires |f.payload| < TWO_64
    ensures r == OK <==> ValidResponse(f, limits)
    ensures r in {OK, Corruption, InvalidArgument}
  {
    r := ValidateHeaderFields(f.header, limits, true);
    if r != OK {
      return;
    }
    if f.header.kind != RESPONSE || f.header.requestId == 0 || f.header.payloadBytes != |f.payload| {
      return Corruption;
    }
    if f.header.status != 0 {
      return DecodeErrorPayload(f.payload, limits).Code();
    }
    if f.header.opcode == GET {
      return DecodeGetSuccessPayload(f.payload, limits).Code();
    }
    return if f.payload == [] then OK else Corruption;
  }

  // ---- Messages ----

  datatype Message =
    | GetRequest(key: BlockKey)
    | PutRequest(key: BlockKey, blob: seq<byte>)
    | PingRequest
    | GetReply(blob: seq<byte>)
    | PutReply
    | PingReply
    | ErrorReply(opcode: byte, status: u16, text: seq<byte>)

  function PayloadOf(m: Message): seq<byte> {
    match m
    case GetRequest(key) => KeyBytes(key)
    case PutRequest(key, blob) => KeyBytes(key) + blob
    case GetReply(blob) => blob
    case ErrorReply(_, _, text) => Big(4, |text|) + text
    case _ => []
  }

  function FrameOf(m: Message, id: u64): Frame
    requires |PayloadOf(m)| < TWO_64
  {
    var kind := if m.GetRequest? || m.PutRequest? || m.PingRequest? then REQUEST else RESPONSE;
    var opcode :=
      match m
      case GetRequest(_) => GET
      case PutRequest(_, _) => PUT
      case PingRequest => PING
      case GetReply(_) => GET
      case PutReply => PUT
      case PingReply => PING
      case ErrorReply(op, _, _) => op;
    var status := if m.ErrorReply? then m.status else 0;
    Frame(FrameHeader(kind, opcode, status, 0, id, |PayloadOf(m)|), PayloadOf(m))
  }

  /** What the protocol lets a message carry under the limits. */
  predicate Sendable(m: Message, limits: Limits) {
    && HEADER_BYTES + |PayloadOf(m)| <= limits.maxFrameBytes && HEADER_BYTES + |PayloadOf(m)| <= limits.sizeMax
    && (m.PutRequest? || m.GetReply? ==> m.blob != [])
    && (m.ErrorReply? ==> m.opcode in {GET, PUT, PING} && 1 <= m.status <= 10 && |m.text| <= limits.maxErrorMessageBytes)
  }

  function MessageOf(f: Frame): Message
    requires |f.payload| == f.header.payloadBytes
    requires f.header.kind == REQUEST && f.header.opcode in {GET, PUT} ==> |f.payload| >= KEY_BYTES
    requires f.header.kind == REQUEST && f.header.opcode == GET ==> |f.payload| == KEY_BYTES
    requires f.header.kind != REQUEST && f.header.status != 0 ==> |f.payload| >= 4
  {
    var h := f.header;
    if h.kind == REQUEST then
      if h.opcode == GET then GetRequest(KeyOf(f.payload))
      else if h.opcode == PUT then PutRequest(KeyOf(f.payload[..KEY_BYTES]), f.payload[KEY_BYTES..])
      else PingRequest
    else if h.status != 0 then ErrorReply(h.opcode, h.status, f.payload[4..])
    else if h.opcode == GET then GetReply(f.payload)
    else if h.opcode == PUT then PutReply
    else PingReply
  }

  predicate Accepted(f: Frame, limits: Limits) {
    ValidRequest(f, limits) || ValidResponse(f, limits)
  }

  /** Every message that may be sent is accepted, and read back as itself. */
  lemma SentIsAccepted(m: Message, id: u64, limits: Limits)
    requires Sendable(m, limits) && id != 0
    ensures Accepted(FrameOf(m, id), limits) && MessageOf(FrameOf(m, id)) == m
  {
    match m
    case GetRequest(key) => KeyBijection(KeyBytes(key), key);
    case PutRequest(key, blob) =>
      KeyBijection(KeyBytes(key), key);
      assert PayloadOf(m)[..KEY_BYTES] == KeyBytes(key) && PayloadOf(m)[KEY_BYTES..] == blob;
    case ErrorReply(_, _, text) =>
      WordSizes();
      BigRoundTrip(4, |text|);
      assert PayloadOf(m)[..4] == Big(4, |text|) && PayloadOf(m)[4..] == text;
    case _ =>
  }

  /** Every accepted frame is the frame of exactly one message. */
  lemma AcceptedIsSent(f: Frame, limits: Limits)
    requires Accepted(f, limits)
    ensures Sendable(MessageOf(f), limits) && FrameOf(MessageOf(f), f.header.requestId) == f
  {
    var m := MessageOf(f);
    match m
    case GetRequest(key) => KeyBijection(f.payload, key);
    case PutRequest(key, blob) =>
      KeyBijection(f.payload[..KEY_BYTES], key);
      assert f.payload == f.payload[..KEY_BYTES] + f.payload[KEY_BYTES..];
    case ErrorReply(_, _, text) =>
      FromBigRoundTrip(f.payload[..4]);
      assert f.payload == f.payload[..4] + f.payload[4..];
    case _ =>
  }

  // ---- Status codes ----

  function ToWireStatus(code: StatusCode): u16 {
    match code
    case OK => 0
    case NotImplemented => 1
    case NotFound => 2
    case InvalidArgument => 3
    case AlreadyExists => 4
    case IoError => 5
    case NetworkError => 6
    case Unavailable => 7
    case OutOfCapacity => 8
    case Corruption => 9
    case Internal => 10
  }

  function FromWireStatus(status: u16): Result<StatusCode> {
    match status
    case 0 => Success(OK)
    case 1 => Success(NotImplemented)
    case 2 => Success(NotFound)
    case 3 => Success(InvalidArgument)
    case 4 => Success(AlreadyExists)
    case 5 => Success(IoError)
    case 6 => Success(NetworkError)
    case 7 => Success(Unavailable)
    case 8 => Success(OutOfCapacity)
    case 9 => Success(Corruption)
    case 10 => Success(Internal)
    case _ => Failure(Corruption)
  }

  /** The numbers on the wire. */
  lemma StatusNumbers()
    ensures ToWireStatus(OK) == 0 && ToWireStatus(NotImplemented) == 1 && ToWireStatus(NotFound) == 2
    ensures ToWireStatus(InvalidArgument) == 3 && ToWireStatus(AlreadyExists) == 4 && ToWireStatus(IoError) == 5
    ensures ToWireStatus(NetworkError) == 6 && ToWireStatus(Unavailable) == 7 && ToWireStatus(OutOfCapacity) == 8
    ensures ToWireStatus(Corruption) == 9 && ToWireStatus(Internal) == 10
  {
  }

  lemma StatusBijection(status: u16, code: StatusCode)
    ensures FromWireStatus(status) == Success(code) <==> status == ToWireStatus(code)
    ensures FromWireStatus(status).Success? <==> status <= 10
  {
  }

  // ---- A block, end to end ----

  /** The client's size check (src/rpc/tcp_connector.cpp:40-62). */
  function ValidateBlockSize(block: Block, limits: Limits): (r: StatusCode)
    ensures r == OK <==> var n := HEADER_BYTES + KEY_BYTES + BlockCodec.HEADER_SIZE + block.Size();
                         n <= limits.maxFrameBytes && n <= limits.sizeMax
  {
    var envelope := KEY_BYTES + BlockCodec.HEADER_SIZE;
    if block.Size() > TWO_64 - 1 - envelope then OutOfCapacity
    else ValidateFrameSize(Wrap(envelope + block.Size(), TWO_64 - 1), limits).Code()
  }

  /** A block that the client can send: the payload of its put fits memory, too. */
  predicate CanShip(block: Block, limits: Limits) {
    ValidateBlockSize(block, limits) == OK && block.Size() < TWO_63 - (KEY_BYTES + BlockCodec.HEADER_SIZE)
  }

  /** A block that passes the client's size check is encoded, accepted by a server with the same
      limits, and decoded to the same key and block. */
  lemma BlockTransfer(key: BlockKey, block: Block, id: u64, limits: Limits)
    requires ValidateBlockSize(block, limits) == OK && id != 0
    ensures var blob := BlockCodec.Serialized(block);
            var m := PutRequest(key, blob);
            && EncodePutRequest(key, blob, limits) == Success(PayloadOf(m))
            && ValidRequest(FrameOf(m, id), limits)
            && DecodePutRequest(PayloadOf(m), limits) == Success((key, blob))
            && BlockCodec.ParseBlock(blob) == Success(block)
  {
    var blob := BlockCodec.Serialized(block);
    BlockCodec.ParseSerialized(block);
    SentIsAccepted(PutRequest(key, blob), id, limits);
    PutPayloadBijection(KeyBytes(key) + blob, key, blob, limits);
  }

  /** The same for the block in the answer to a Get. */
  lemma BlockReturns(block: Block, id: u64, limits: Limits)
    requires ValidateBlockSize(block, limits) == OK && id != 0
    ensures var blob := BlockCodec.Serialized(block);
            && EncodeGetSuccessPayload(blob, limits) == Success(blob)
            && ValidResponse(FrameOf(GetReply(blob), id), limits)
            && DecodeGetSuccessPayload(blob, limits) == Success(blob)
            && BlockCodec.ParseBlock(blob) == Success(block)
  {
    BlockCodec.ParseSerialized(block);
    SentIsAccepted(GetReply(BlockCodec.Serialized(block)), id, limits);
  }

  // ---- The content of a put ----

  /** A key and the block that is put under it. */
  datatype Update = Update(key: BlockKey, block: Block)

  /** What a put request carries, if it carries a block at all. */
  function PutOf(f: Frame): Option<Update> {
    if f.header.opcode != PUT || |f.payload| <= KEY_BYTES || |f.payload| >= TWO_63 then None
    else
      match BlockCodec.ParseBlock(f.payload[KEY_BYTES..])
      case Failure(_) => None
      case Success(block) => Some(Update(KeyOf(f.payload[..KEY_BYTES]), block))
  }

  /** A put request carries a key and a block exactly if its payload is the two of them encoded. */
  lemma PutContent(f: Frame, key: BlockKey, block: Block)
    requires f.header.opcode == PUT && |f.payload| < TWO_63
    ensures PutOf(f) == Some(Update(key, block)) <==> f.payload == KeyBytes(key) + BlockCodec.Serialized(block)
  {
    var blob := BlockCodec.Serialized(block);
    BlockCodec.ParseSerialized(block);
    if |f.payload| > KEY_BYTES {
      KeyBijection(f.payload[..KEY_BYTES], key);
      BlockCodec.BlobBijection(f.payload[KEY_BYTES..], block);
      assert f.payload == f.payload[..KEY_BYTES] + f.payload[KEY_BYTES..];
    }
    var whole := KeyBytes(key) + blob;
    assert whole[..KEY_BYTES] == KeyBytes(key) && whole[KEY_BYTES..] == blob;
  }
}
