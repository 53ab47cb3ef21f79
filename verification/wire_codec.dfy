/** Wire protocol v1 (src/protocol/wire_codec.cpp): a 32-byte big-endian header and the payloads of
    the three operations. Null pointers and failed allocations are not part of this module. */
module WireCodec {
  import opened Status
  import opened Blocks
  import opened Words

  const MAGIC: u32 := 0x54504e57
  const VERSION: u16 := 1
  const HEADER_BYTES: nat := 32
  const KEY_BYTES: nat := 16

  const REQUEST: byte := 1
  const RESPONSE: byte := 2
  const GET: byte := 1
  const PUT: byte := 2
  const PING: byte := 3

  /** Kind, opcode and status are the numbers on the wire: an enum class can hold any of them. */
  datatype FrameHeader = FrameHeader(
    kind: byte,
    opcode: byte,
    status: u16,
    flags: u32,
    requestId: u64,
    payloadBytes: u64)

  /** The codec's limits, and the largest size_t of the platform it runs on. */
  datatype CodecLimits = CodecLimits(maxFrameBytes: u64, maxErrorMessageBytes: u32, sizeMax: nat)

  type Limits = l: CodecLimits | 36 <= l.sizeMax < 0x1_0000_0000_0000_0000
    witness CodecLimits(0, 0, 0xffff_ffff)

  function InputError(network: bool): StatusCode {
    if network then Corruption else InvalidArgument
  }

  // ---- Frame size ----

  /** Unsigned arithmetic of a word whose largest value is `max`. */
  function Wrap(x: int, max: nat): nat {
    if 0 <= x <= max then x else x % (max + 1)
  }

  /** The code's checks, every sum and difference taken in the width it has there. They accept
      exactly the frames that fit the limit and size_t, and then nothing has wrapped. */
  function ValidateFrameSizeImpl(payload: u64, limits: Limits, network: bool): (r: Result<nat>)
    ensures r.Success? <==> HEADER_BYTES + payload <= limits.maxFrameBytes && HEADER_BYTES + payload <= limits.sizeMax
    ensures r.Success? ==> r.value == HEADER_BYTES + payload
    ensures r.Failure? ==> r.code == InputError(network && HEADER_BYTES <= limits.maxFrameBytes)
  {
    if limits.maxFrameBytes < HEADER_BYTES then Failure(InvalidArgument)
    else
      var maxPayload := Wrap(limits.maxFrameBytes - HEADER_BYTES, TWO_64 - 1);
      if payload > maxPayload then Failure(InputError(network))
      else if limits.sizeMax < TWO_64 - 1 && payload > limits.sizeMax then Failure(InputError(network))
      else if payload > Wrap(limits.sizeMax - HEADER_BYTES, limits.sizeMax) then Failure(InputError(network))
      else Success(Wrap(HEADER_BYTES + Wrap(payload, limits.sizeMax), limits.sizeMax))
  }

  function ValidateFrameSize(payload: u64, limits: Limits): Result<nat> {
    ValidateFrameSizeImpl(payload, limits, false)
  }

  // ---- Header validation ----

  /** How many payload bytes the header's kind of message has. */
  predicate PayloadFits(h: FrameHeader, limits: Limits) {
    if h.kind == REQUEST then
      && h.status == 0
      && (h.opcode == GET ==> h.payloadBytes == KEY_BYTES)
      && (h.opcode == PUT ==> h.payloadBytes > KEY_BYTES)
      && (h.opcode == PING ==> h.payloadBytes == 0)
    else if h.status != 0 then 4 <= h.payloadBytes <= 4 + limits.maxErrorMessageBytes
    else if h.opcode == GET then h.payloadBytes > 0
    else h.payloadBytes == 0
  }

  predicate ValidHeader(h: FrameHeader, limits: Limits) {
    && h.kind in {REQUEST, RESPONSE} && h.opcode in {GET, PUT, PING} && h.status <= 10 && h.flags == 0
    && HEADER_BYTES + h.payloadBytes <= limits.maxFrameBytes && HEADER_BYTES + h.payloadBytes <= limits.sizeMax
    && PayloadFits(h, limits)
  }

  method ValidatePayloadLength(h: FrameHeader, limits: Limits, network: bool) returns (r: StatusCode)
    requires h.kind in {REQUEST, RESPONSE} && h.opcode in {GET, PUT, PING}
    ensures r == if PayloadFits(h, limits) then OK else InputError(network)
  {
    if h.kind == REQUEST {
      if h.status != 0 {
        return InputError(network);
      }
      if h.opcode == GET {
        if h.payloadBytes != KEY_BYTES {
          return InputError(network);
        }
      } else if h.opcode == PUT {
        if h.payloadBytes <= KEY_BYTES {
          return InputError(network);
        }
      } else {
        if h.payloadBytes != 0 {
          return InputError(network);
        }
      }
      return OK;
    }
    if h.status != 0 {
      if h.payloadBytes < 4 {
        return InputError(network);
      }
      var maxErrorPayload := Wrap(4 + limits.maxErrorMessageBytes, TWO_64 - 1);
      if h.payloadBytes > maxErrorPayload {
        return InputError(network);
      }
      return OK;
    }
    if h.opcode == GET {
      if h.payloadBytes == 0 {
        return InputError(network);
      }
    } else {
      if h.payloadBytes != 0 {
        return InputError(network);
      }
    }
    return OK;
  }

  /** Accepts exactly the valid headers. */
  method ValidateHeaderFields(h: FrameHeader, limits: Limits, network: bool) returns (r: StatusCode)
    ensures r == OK <==> ValidHeader(h, limits)
    ensures r != OK && HEADER_BYTES <= limits.maxFrameBytes ==> r == InputError(network)
    ensures r != OK ==> r == InvalidArgument || (network && r == Corruption)
  {
    if h.kind != REQUEST && h.kind != RESPONSE {
      return InputError(network);
    }
    if h.opcode != GET && h.opcode != PUT && h.opcode != PING {
      return InputError(network);
    }
    if h.status > 10 {
      return InputError(network);
    }
    if h.flags != 0 {
      return InputError(network);
    }
    var frameSize := ValidateFrameSizeImpl(h.payloadBytes, limits, network);
    if frameSize.Failure? {
      return frameSize.code;
    }
    r := ValidatePayloadLength(h, limits, network);
  }

  // ---- Header bytes ----

  function Front(h: FrameHeader): (r: seq<byte>)
    ensures |r| == 16
  {
    Big(4, MAGIC) + Big(2, VERSION) + Big(2, HEADER_BYTES) + [h.kind] + [h.opcode] + Big(2, h.status) + Big(4, h.flags)
  }

  function HeaderBytes(h: FrameHeader): (r: seq<byte>)
    ensures |r| == HEADER_BYTES
  {
    Front(h) + Big(8, h.requestId) + Big(8, h.payloadBytes)
  }

  lemma BigFits(b: seq<byte>)
    ensures |b| == 2 ==> FromBig(b) < TWO_16
    ensures |b| == 4 ==> FromBig(b) < TWO_32
    ensures |b| == 8 ==> FromBig(b) < TWO_64
  {
    WordSizes();
    FromBigRoundTrip(b);
  }

  /** The fields of 32 bytes, whatever they say. */
  function RawHeader(b: seq<byte>): FrameHeader
    requires |b| == HEADER_BYTES
  {
    BigFits(b[10..12]);
    BigFits(b[12..16]);
    BigFits(b[16..24]);
    BigFits(b[24..32]);
    FrameHeader(b[8], b[9], FromBig(b[10..12]), FromBig(b[12..16]), FromBig(b[16..24]), FromBig(b[24..32]))
  }

  predicate Preamble(b: seq<byte>)
    requires |b| == HEADER_BYTES
  {
    FromBig(b[0..4]) == MAGIC && FromBig(b[4..6]) == VERSION && FromBig(b[6..8]) == HEADER_BYTES
  }

  lemma FrontRoundTrip(h: FrameHeader)
    ensures var b := Front(h);
            && FromBig(b[0..4]) == MAGIC && FromBig(b[4..6]) == VERSION && FromBig(b[6..8]) == HEADER_BYTES
            && b[8] == h.kind && b[9] == h.opcode
            && FromBig(b[10..12]) == h.status && FromBig(b[12..16]) == h.flags
  {
    var b := Front(h);
    WordSizes();
    BigRoundTrip(4, MAGIC);
    BigRoundTrip(2, VERSION);
    BigRoundTrip(2, HEADER_BYTES);
    BigRoundTrip(2, h.status);
    BigRoundTrip(4, h.flags);
    assert b[0..4] == Big(4, MAGIC);
    assert b[4..6] == Big(2, VERSION);
    assert b[6..8] == Big(2, HEADER_BYTES);
    assert b[10..12] == Big(2, h.status);
    assert b[12..16] == Big(4, h.flags);
  }

  lemma HeaderRoundTrip(h: FrameHeader)
    ensures Preamble(HeaderBytes(h)) && RawHeader(HeaderBytes(h)) == h
  {
    var b := HeaderBytes(h);
    WordSizes();
    FrontRoundTrip(h);
    BigRoundTrip(8, h.requestId);
    BigRoundTrip(8, h.payloadBytes);
    assert b[0..16] == Front(h);
    SliceSlice(b, 0, 16, 0, 4);
    SliceSlice(b, 0, 16, 4, 6);
    SliceSlice(b, 0, 16, 6, 8);
    SliceSlice(b, 0, 16, 10, 12);
    SliceSlice(b, 0, 16, 12, 16);
    assert b[16..24] == Big(8, h.requestId);
    assert b[24..32] == Big(8, h.payloadBytes);
  }

  lemma FrontOfRaw(b: seq<byte>)
    requires |b| == HEADER_BYTES && Preamble(b)
    ensures Front(RawHeader(b)) == b[0..16]
  {
    FromBigRoundTrip(b[0..4]);
    FromBigRoundTrip(b[4..6]);
    FromBigRoundTrip(b[6..8]);
    FromBigRoundTrip(b[10..12]);
    FromBigRoundTrip(b[12..16]);
    SliceJoin(b, 0, 4, 6);
    SliceJoin(b, 0, 6, 8);
    SliceJoin(b, 0, 8, 9);
    SliceJoin(b, 0, 9, 10);
    SliceJoin(b, 0, 10, 12);
    SliceJoin(b, 0, 12, 16);
    assert b[8..9] == [b[8]] && b[9..10] == [b[9]];
  }

  lemma RawRoundTrip(b: seq<byte>)
    requires |b| == HEADER_BYTES && Preamble(b)
    ensures HeaderBytes(RawHeader(b)) == b
  {
    FrontOfRaw(b);
    FromBigRoundTrip(b[16..24]);
    FromBigRoundTrip(b[24..32]);
    SliceJoin(b, 0, 16, 24);
    SliceJoin(b, 0, 24, 32);
    assert b[0..32] == b;
  }

  /** What DecodeHeader answers. */
  function ParseFrameHeader(b: seq<byte>, limits: Limits): Result<FrameHeader> {
    if |b| != HEADER_BYTES then Failure(Corruption)
    else if limits.maxFrameBytes < HEADER_BYTES then Failure(InvalidArgument)
    else if Preamble(b) && ValidHeader(RawHeader(b), limits) then Success(RawHeader(b))
    else Failure(Corruption)
  }

  /** For all limits, a header encodes if and only if its bytes decode, and both ways are inverse. */
  lemma HeaderBijection(b: seq<byte>, h: FrameHeader, limits: Limits)
    ensures ParseFrameHeader(b, limits) == Success(h) <==> b == HeaderBytes(h) && ValidHeader(h, limits)
  {
    HeaderRoundTrip(h);
    if |b| == HEADER_BYTES && Preamble(b) {
      RawRoundTrip(b);
    }
  }

  method AppendBig(out: array<byte>, offset: nat, n: nat, v: nat, ghost prefix: seq<byte>)
    requires offset + n <= out.Length && out[..offset] == prefix
    modifies out
    ensures out[..offset + n] == prefix + Big(n, v)
  {
    PutBig(out, offset, n, v);
    assert out[..offset + n] == out[..][..offset + n];
  }

  method AppendByte(out: array<byte>, offset: nat, v: byte, ghost prefix: seq<byte>)
    requires offset < out.Length && out[..offset] == prefix
    modifies out
    ensures out[..offset + 1] == prefix + [v]
  {
    out[offset] := v;
  }

  method WriteFront(out: array<byte>, h: FrameHeader)
    requires out.Length == HEADER_BYTES
    modifies out
    ensures out[..16] == Front(h)
  {
    ghost var p: seq<byte> := Big(4, MAGIC);
    AppendBig(out, 0, 4, MAGIC, []);
    AppendBig(out, 4, 2, VERSION, p);
    p := p + Big(2, VERSION);
    AppendBig(out, 6, 2, HEADER_BYTES, p);
    p := p + Big(2, HEADER_BYTES);
    AppendByte(out, 8, h.kind, p);
    p := p + [h.kind];
    AppendByte(out, 9, h.opcode, p);
    p := p + [h.opcode];
    AppendBig(out, 10, 2, h.status, p);
    p := p + Big(2, h.status);
    AppendBig(out, 12, 4, h.flags, p);
  }

  method EncodeHeader(h: FrameHeader, limits: Limits) returns (r: Result<seq<byte>>)
    ensures r.Success? <==> ValidHeader(h, limits)
    ensures r.Success? ==> r.value == HeaderBytes(h)
    ensures r.Failure? ==> r.code == InvalidArgument
  {
    var status := ValidateHeaderFields(h, limits, false);
    if status != OK {
      return Failure(status);
    }
    var encoded := new byte[32];
    WriteFront(encoded, h);
    AppendBig(encoded, 16, 8, h.requestId, Front(h));
    AppendBig(encoded, 24, 8, h.payloadBytes, Front(h) + Big(8, h.requestId));
    assert encoded[..32] == encoded[..];
    return Success(encoded[..]);
  }

  method DecodeHeader(b: seq<byte>, limits: Limits) returns (r: Result<FrameHeader>)
    ensures r == ParseFrameHeader(b, limits)
  {
    if |b| < HEADER_BYTES || |b| > HEADER_BYTES {
      return Failure(Corruption);
    }
    if limits.maxFrameBytes < HEADER_BYTES {
      return Failure(InvalidArgument);
    }
    var magic := GetBig(b, 0, 4);
    if magic != MAGIC {
      return Failure(Corruption);
    }
    var version := GetBig(b, 4, 2);
    if version != VERSION {
      return Failure(Corruption);
    }
    var size := GetBig(b, 6, 2);
    if size != HEADER_BYTES {
      return Failure(Corruption);
    }
    var h := DecodeFields(b);
    var status := ValidateHeaderFields(h, limits, true);
    if status != OK {
      return Failure(status);
    }
    return Success(h);
  }

  method DecodeFields(b: seq<byte>) returns (h: FrameHeader)
    requires |b| == HEADER_BYTES
    ensures h == RawHeader(b)
  {
    BigFits(b[10..12]);
    BigFits(b[12..16]);
    BigFits(b[16..24]);
    BigFits(b[24..32]);
    var status := GetBig(b, 10, 2);
    var flags := GetBig(b, 12, 4);
    var requestId := GetBig(b, 16, 8);
    var payloadBytes := GetBig(b, 24, 8);
    return FrameHeader(b[8], b[9], status, flags, requestId, payloadBytes);
  }
}
