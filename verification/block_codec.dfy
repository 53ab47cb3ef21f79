/** The self-describing block blob (src/api/block_codec.cpp): a 36-byte little-endian header and the
    payload, verbatim. */
module BlockCodec {
  import opened Status
  import opened Blocks
  import opened Words

  const HEADER_SIZE: nat := 36
  const MAGIC0: byte := 84
  const MAGIC1: byte := 80
  const VERSION: byte := 1
  const SERDE_RAW: byte := 0

  /** A string that can hold the largest block. */
  type Blob = s: seq<byte> | |s| < 0x8000_0000_0000_0000 + 36

  datatype Header = Header(metadata: BlockMetadata, payloadLen: nat, payloadOffset: nat)

  function Shape(m: BlockMetadata): (r: seq<byte>)
    ensures |r| == 24
  {
    Little(4, m.numTokens) + Little(4, m.numLayers) + Little(2, m.dtypeSize) + Little(2, m.kvHeads)
    + Little(8, m.createdUnixNs) + Little(4, m.modelFingerprint)
  }

  function Serialized(block: Block): Blob {
    [MAGIC0, MAGIC1, VERSION, SERDE_RAW] + Shape(block.metadata) + Little(8, block.Size()) + block.data
  }

  method SerializeBlock(block: Block) returns (r: Blob)
    ensures r == Serialized(block)
  {
    var m := block.metadata;
    ghost var magic := [MAGIC0, MAGIC1, VERSION, SERDE_RAW];
    ghost var shape := Little(4, m.numTokens);
    var blob := [MAGIC0, MAGIC1, VERSION, SERDE_RAW];
    blob := PutLittle(blob, 4, m.numTokens);
    blob := PutLittle(blob, 4, m.numLayers);
    Regroup(magic, shape, Little(4, m.numLayers));
    shape := shape + Little(4, m.numLayers);
    blob := PutLittle(blob, 2, m.dtypeSize);
    Regroup(magic, shape, Little(2, m.dtypeSize));
    shape := shape + Little(2, m.dtypeSize);
    blob := PutLittle(blob, 2, m.kvHeads);
    Regroup(magic, shape, Little(2, m.kvHeads));
    shape := shape + Little(2, m.kvHeads);
    blob := PutLittle(blob, 8, m.createdUnixNs);
    Regroup(magic, shape, Little(8, m.createdUnixNs));
    shape := shape + Little(8, m.createdUnixNs);
    blob := PutLittle(blob, 4, m.modelFingerprint);
    Regroup(magic, shape, Little(4, m.modelFingerprint));
    blob := PutLittle(blob, 8, block.Size());
    return blob + block.data;
  }

  /** The metadata in the 24 bytes after the magic. */
  function ShapeOf(b: seq<byte>): BlockMetadata
    requires |b| == 24
  {
    FieldsFit(b);
    BlockMetadata(FromLittle(b[0..4]), FromLittle(b[4..8]), FromLittle(b[8..10]), FromLittle(b[10..12]),
                  FromLittle(b[12..20]), FromLittle(b[20..24]))
  }

  lemma FieldsFit(b: seq<byte>)
    requires |b| == 24
    ensures FromLittle(b[0..4]) < TWO_32 && FromLittle(b[4..8]) < TWO_32
    ensures FromLittle(b[8..10]) < TWO_16 && FromLittle(b[10..12]) < TWO_16
    ensures FromLittle(b[12..20]) < TWO_64 && FromLittle(b[20..24]) < TWO_32
  {
    WordSizes();
    FromLittleRoundTrip(b[0..4]);
    FromLittleRoundTrip(b[4..8]);
    FromLittleRoundTrip(b[8..10]);
    FromLittleRoundTrip(b[10..12]);
    FromLittleRoundTrip(b[12..20]);
    FromLittleRoundTrip(b[20..24]);
  }

  lemma ShapeRoundTrip(m: BlockMetadata)
    ensures ShapeOf(Shape(m)) == m
  {
    var b := Shape(m);
    WordSizes();
    assert b[0..4] == Little(4, m.numTokens);
    assert b[4..8] == Little(4, m.numLayers);
    assert b[8..10] == Little(2, m.dtypeSize);
    assert b[10..12] == Little(2, m.kvHeads);
    assert b[12..20] == Little(8, m.createdUnixNs);
    assert b[20..24] == Little(4, m.modelFingerprint);
    LittleRoundTrip(4, m.numTokens);
    LittleRoundTrip(4, m.numLayers);
    LittleRoundTrip(2, m.dtypeSize);
    LittleRoundTrip(2, m.kvHeads);
    LittleRoundTrip(8, m.createdUnixNs);
    LittleRoundTrip(4, m.modelFingerprint);
  }

  lemma ShapeOfRoundTrip(b: seq<byte>)
    requires |b| == 24
    ensures Shape(ShapeOf(b)) == b
  {
    FromLittleRoundTrip(b[0..4]);
    FromLittleRoundTrip(b[4..8]);
    FromLittleRoundTrip(b[8..10]);
    FromLittleRoundTrip(b[10..12]);
    FromLittleRoundTrip(b[12..20]);
    FromLittleRoundTrip(b[20..24]);
    SliceJoin(b, 0, 4, 8);
    SliceJoin(b, 0, 8, 10);
    SliceJoin(b, 0, 10, 12);
    SliceJoin(b, 0, 12, 20);
    SliceJoin(b, 0, 20, 24);
    assert b[0..24] == b;
  }

  /** What a reader accepts, and the error it reports otherwise. */
  function ParseHeader(blob: Blob): Result<Header> {
    if |blob| < HEADER_SIZE then Failure(InvalidArgument)
    else if blob[0] != MAGIC0 || blob[1] != MAGIC1 then Failure(InvalidArgument)
    else if blob[2] != VERSION then Failure(InvalidArgument)
    else if blob[3] != SERDE_RAW then Failure(NotImplemented)
    else if FromLittle(blob[28..36]) != |blob| - HEADER_SIZE then Failure(InvalidArgument)
    else Success(Header(ShapeOf(blob[4..28]), |blob| - HEADER_SIZE, HEADER_SIZE))
  }

  method DeserializeHeader(blob: Blob) returns (r: Result<Header>)
    ensures r == ParseHeader(blob)
  {
    if |blob| < HEADER_SIZE {
      return Failure(InvalidArgument);
    }
    if blob[0] != MAGIC0 || blob[1] != MAGIC1 {
      return Failure(InvalidArgument);
    }
    if blob[2] != VERSION {
      return Failure(InvalidArgument);
    }
    if blob[3] != SERDE_RAW {
      return Failure(NotImplemented);
    }
    var payloadLen := GetLittle(blob, 28, 8);
    var available := |blob| - HEADER_SIZE;
    if payloadLen != available {
      return Failure(InvalidArgument);
    }
    FieldsFit(blob[4..28]);
    SliceSlice(blob, 4, 28, 0, 4);
    SliceSlice(blob, 4, 28, 4, 8);
    SliceSlice(blob, 4, 28, 8, 10);
    SliceSlice(blob, 4, 28, 10, 12);
    SliceSlice(blob, 4, 28, 12, 20);
    SliceSlice(blob, 4, 28, 20, 24);
    var numTokens := GetLittle(blob, 4, 4);
    var numLayers := GetLittle(blob, 8, 4);
    var dtypeSize := GetLittle(blob, 12, 2);
    var kvHeads := GetLittle(blob, 14, 2);
    var createdUnixNs := GetLittle(blob, 16, 8);
    var modelFingerprint := GetLittle(blob, 24, 4);
    return Success(Header(BlockMetadata(numTokens, numLayers, dtypeSize, kvHeads, createdUnixNs, modelFingerprint),
                          payloadLen, HEADER_SIZE));
  }

  /** Header and payload together: the block a reader reconstructs from a blob. */
  function ParseBlock(blob: Blob): Result<Block> {
    match ParseHeader(blob)
    case Failure(c) => Failure(c)
    case Success(h) => Success(Block(h.metadata, blob[h.payloadOffset..h.payloadOffset + h.payloadLen]))
  }

  lemma ParseSerialized(block: Block)
    ensures ParseBlock(Serialized(block)) == Success(block)
    ensures |Serialized(block)| == HEADER_SIZE + block.Size()
  {
    var blob := Serialized(block);
    assert blob[4..28] == Shape(block.metadata);
    assert blob[28..36] == Little(8, block.Size());
    assert blob[36..] == block.data;
    WordSizes();
    LittleRoundTrip(8, block.Size());
    ShapeRoundTrip(block.metadata);
    assert blob[36..36 + block.Size()] == block.data;
  }

  lemma SerializeParsed(blob: Blob)
    requires ParseBlock(blob).Success?
    ensures Serialized(ParseBlock(blob).value) == blob
  {
    var block := ParseBlock(blob).value;
    FromLittleRoundTrip(blob[28..36]);
    ShapeOfRoundTrip(blob[4..28]);
    assert blob[0..4] == [MAGIC0, MAGIC1, VERSION, SERDE_RAW];
    assert blob[36..] == block.data;
    SliceJoin(blob, 0, 4, 28);
    SliceJoin(blob, 0, 28, 36);
    assert blob == blob[0..36] + blob[36..];
  }

  /** Blocks and accepted blobs correspond one to one. */
  lemma BlobBijection(blob: Blob, block: Block)
    ensures ParseBlock(blob) == Success(block) <==> blob == Serialized(block)
  {
    ParseSerialized(block);
    if ParseBlock(blob) == Success(block) {
      SerializeParsed(blob);
    }
  }
}
