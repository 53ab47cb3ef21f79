/** Keys, blocks and locations (include/tidepool/api/). */
module Blocks {

  const TWO_16: int := 0x1_0000
  const TWO_32: int := 0x1_0000_0000
  const TWO_63: int := 0x8000_0000_0000_0000
  const TWO_64: int := 0x1_0000_0000_0000_0000

  type byte = x: int | 0 <= x < 256
  type u16 = x: int | 0 <= x < 0x1_0000
  type u32 = x: int | 0 <= x < 0x1_0000_0000
  type u64 = x: int | 0 <= x < 0x1_0000_0000_0000_0000

  /** The bytes of a std::vector, whose length never exceeds PTRDIFF_MAX. */
  type Payload = s: seq<byte> | |s| < 0x8000_0000_0000_0000

  datatype BlockKey = BlockKey(prefixHash: u64, prefixLen: u32, modelFingerprint: u32)

  datatype BlockMetadata = BlockMetadata(
    numTokens: u32,
    numLayers: u32,
    dtypeSize: u16,
    kvHeads: u16,
    createdUnixNs: u64,
    modelFingerprint: u32)

  datatype Block = Block(metadata: BlockMetadata, data: Payload) {
    function Size(): nat {
      |data|
    }
  }

  datatype BlockInfo = BlockInfo(metadata: BlockMetadata, payloadSize: nat, handle: nat)

  datatype TierType = DramType | SsdType

  datatype Location = Location(tier: TierType, handle: nat)

  /** The SSD tier accepts a block under a key only when the two agree
      (src/store/tier/ssd/ssd_tier.cpp:47-55). */
  predicate Consistent(key: BlockKey, metadata: BlockMetadata) {
    && metadata.modelFingerprint == key.modelFingerprint
    && (metadata.numTokens == 0 || metadata.numTokens == key.prefixLen)
  }
}
