/** The formats byte by byte, with the numbers they have on the wire and on disk
    (src/protocol/wire_codec.cpp, src/api/block_codec.cpp, src/api/block_key.cpp). */
module WireLayout {
  import opened Status
  import opened Blocks
  import opened Words
  import opened WireCodec
  import opened WireMessages
  import opened WireStreams
  import BlockCodec
  import BlockKeyText

  // ---- Byte order ----

  /** The number with these bytes, the most significant first. */
  function Of2(a: int, b: int): int {
    a * 0x100 + b
  }

  function Of4(a: int, b: int, c: int, d: int): int {
    a * 0x100_0000 + b * 0x1_0000 + c * 0x100 + d
  }

  function Of8(a: int, b: int, c: int, d: int, e: int, f: int, g: int, h: int): int {
    Of4(a, b, c, d) * 0x1_0000_0000 + Of4(e, f, g, h)
  }

  lemma {:induction false} BigJoin(a: seq<byte>, b: seq<byte>)
    ensures FromBig(a + b) == FromBig(a) * Pow256(|b|) + FromBig(b)
  {
    if b == [] {
      assert a + b == a;
    } else {
      var rest := b[..|b| - 1];
      assert (a + b)[..|a + b| - 1] == a + rest;
      BigJoin(a, rest);
      assert FromBig(a) * Pow256(|rest|) * 256 == FromBig(a) * Pow256(|b|);
    }
  }

  lemma BigWord2(b: seq<byte>)
    requires |b| == 2
    ensures FromBig(b) == Of2(b[0], b[1])
  {
    assert b[..1][..0] == [];
    assert FromBig(b[..1]) == b[0];
  }

  lemma BigWord4(b: seq<byte>)
    requires |b| == 4
    ensures FromBig(b) == Of4(b[0], b[1], b[2], b[3])
  {
    assert b == b[..2] + b[2..];
    BigJoin(b[..2], b[2..]);
    BigWord2(b[..2]);
    BigWord2(b[2..]);
    WordSizes();
  }

  /** Big-endian: the first byte is the most significant. */
  lemma BigWord8(b: seq<byte>)
    requires |b| == 8
    ensures FromBig(b) == Of8(b[0], b[1], b[2], b[3], b[4], b[5], b[6], b[7])
  {
    assert b == b[..4] + b[4..];
    BigJoin(b[..4], b[4..]);
    BigWord4(b[..4]);
    BigWord4(b[4..]);
    WordSizes();
  }

  lemma {:induction false} LittleJoin(a: seq<byte>, b: seq<byte>)
    ensures FromLittle(a + b) == FromLittle(a) + FromLittle(b) * Pow256(|a|)
  {
    if a == [] {
      assert a + b == b;
    } else {
      assert (a + b)[1..] == a[1..] + b;
      LittleJoin(a[1..], b);
      assert 256 * (FromLittle(b) * Pow256(|a| - 1)) == FromLittle(b) * Pow256(|a|);
    }
  }

  lemma LittleWord2(b: seq<byte>)
    requires |b| == 2
    ensures FromLittle(b) == Of2(b[1], b[0])
  {
    assert b[1..][1..] == [];
    assert FromLittle(b[1..]) == b[1];
  }

  lemma LittleWord4(b: seq<byte>)
    requires |b| == 4
    ensures FromLittle(b) == Of4(b[3], b[2], b[1], b[0])
  {
    assert b == b[..2] + b[2..];
    LittleJoin(b[..2], b[2..]);
    LittleWord2(b[..2]);
    LittleWord2(b[2..]);
    WordSizes();
  }

  /** Little-endian: the first byte is the least significant. */
  lemma LittleWord8(b: seq<byte>)
    requires |b| == 8
    ensures FromLittle(b) == Of8(b[7], b[6], b[5], b[4], b[3], b[2], b[1], b[0])
  {
    assert b == b[..4] + b[4..];
    LittleJoin(b[..4], b[4..]);
    LittleWord4(b[..4]);
    LittleWord4(b[4..]);
    WordSizes();
  }

  // ---- The wire ----

  lemma SmallWord(b: seq<byte>)
    requires |b| == 2 && FromBig(b) < 0x100
    ensures b == [0, FromBig(b)]
  {
    BigWord2(b);
  }

  lemma MagicBytes(b: seq<byte>)
    requires |b| == 4 && FromBig(b) == 0x54504e57
    ensures b == [0x54, 0x50, 0x4e, 0x57]
  {
    BigWord4(b);
    assert Of4(b[0], b[1], b[2], b[3]) == Of4(0x54, 0x50, 0x4e, 0x57);
    assert b[0] == 0x54;
    assert b[1] == 0x50;
    assert b[2] == 0x4e;
  }

  /** "TPNW", version 1 and the header's own length come first. */
  lemma HeaderStarts(h: FrameHeader)
    ensures HeaderBytes(h)[..8] == [0x54, 0x50, 0x4e, 0x57, 0, 1, 0, 32]
  {
    var b := HeaderBytes(h);
    HeaderRoundTrip(h);
    MagicBytes(b[0..4]);
    SmallWord(b[4..6]);
    SmallWord(b[6..8]);
    assert b[..8] == b[0..4] + b[4..6] + b[6..8];
  }

  /** Then kind, opcode, status, flags, id and length, most significant byte first. */
  lemma HeaderLayout(h: FrameHeader)
    ensures var b := HeaderBytes(h);
            && b[8] == h.kind && b[9] == h.opcode && h.status == Of2(b[10], b[11])
            && h.flags == Of4(b[12], b[13], b[14], b[15])
            && h.requestId == Of8(b[16], b[17], b[18], b[19], b[20], b[21], b[22], b[23])
            && h.payloadBytes == Of8(b[24], b[25], b[26], b[27], b[28], b[29], b[30], b[31])
  {
    var b := HeaderBytes(h);
    HeaderRoundTrip(h);
    BigWord2(b[10..12]);
    BigWord4(b[12..16]);
    BigWord8(b[16..24]);
    BigWord8(b[24..32]);
  }

  /** A frame is its header and then its payload. */
  lemma FrameLayout(f: Frame)
    ensures FrameBytes(f)[..32] == HeaderBytes(f.header) && FrameBytes(f)[32..] == f.payload
  {
  }

  /** Requests are kind 1 and responses kind 2; Get is 1, Put is 2 and Ping is 3; only errors have a status. */
  lemma FrameNumbers(m: Message, id: u64)
    requires |PayloadOf(m)| < TWO_64
    ensures var h := FrameOf(m, id).header;
            && (h.kind == 1 <==> m.GetRequest? || m.PutRequest? || m.PingRequest?)
            && (h.kind == 2 <==> m.GetReply? || m.PutReply? || m.PingReply? || m.ErrorReply?)
            && (!m.ErrorReply? ==>
                  && (h.opcode == 1 <==> m.GetRequest? || m.GetReply?)
                  && (h.opcode == 2 <==> m.PutRequest? || m.PutReply?)
                  && (h.opcode == 3 <==> m.PingRequest? || m.PingReply?))
            && (m.ErrorReply? ==> h.opcode == m.opcode && h.status == m.status)
            && (!m.ErrorReply? ==> h.status == 0) && h.flags == 0 && h.requestId == id
  {
  }

  /** A key: its hash, its length and its model, most significant byte first. */
  lemma KeyLayout(key: BlockKey)
    ensures var b := KeyBytes(key);
            && |b| == 16
            && key.prefixHash == Of8(b[0], b[1], b[2], b[3], b[4], b[5], b[6], b[7])
            && key.prefixLen == Of4(b[8], b[9], b[10], b[11])
            && key.modelFingerprint == Of4(b[12], b[13], b[14], b[15])
  {
    var b := KeyBytes(key);
    KeyBijection(b, key);
    BigWord8(b[0..8]);
    BigWord4(b[8..12]);
    BigWord4(b[12..16]);
  }

  /** A put carries the key and then the block; an error carries the length of its text and then the text. */
  lemma PayloadLayout(key: BlockKey, blob: seq<byte>, opcode: byte, status: u16, text: seq<byte>)
    requires |text| < TWO_32
    ensures PayloadOf(PutRequest(key, blob))[..16] == KeyBytes(key) && PayloadOf(PutRequest(key, blob))[16..] == blob
    ensures var b := PayloadOf(ErrorReply(opcode, status, text));
            |b| == 4 + |text| && b[4..] == text && |text| == Of4(b[0], b[1], b[2], b[3])
  {
    var b := PayloadOf(ErrorReply(opcode, status, text));
    WordSizes();
    BigRoundTrip(4, |text|);
    assert b[..4] == Big(4, |text|);
    BigWord4(b[..4]);
  }

  // ---- The disk ----

  /** "TP", version 1 and the raw serde come first. */
  lemma BlobStarts(block: Block)
    ensures BlockCodec.Serialized(block)[..4] == [0x54, 0x50, 1, 0]
  {
  }

  /** Then the metadata, the length of the payload, all least significant byte first, and the payload. */
  lemma BlobLayout(block: Block)
    ensures var b, m := BlockCodec.Serialized(block), block.metadata;
            && |b| == 36 + |block.data| && b[36..] == block.data
            && m.numTokens == Of4(b[7], b[6], b[5], b[4]) && m.numLayers == Of4(b[11], b[10], b[9], b[8])
            && m.dtypeSize == Of2(b[13], b[12]) && m.kvHeads == Of2(b[15], b[14])
            && m.modelFingerprint == Of4(b[27], b[26], b[25], b[24])
  {
    var b, shape := BlockCodec.Serialized(block), BlockCodec.Shape(block.metadata);
    BlockCodec.ShapeRoundTrip(block.metadata);
    assert b[4..28] == shape;
    LittleWord4(shape[0..4]);
    LittleWord4(shape[4..8]);
    LittleWord2(shape[8..10]);
    LittleWord2(shape[10..12]);
    LittleWord4(shape[20..24]);
    assert forall i :: 0 <= i < 24 ==> shape[i] == b[4 + i];
  }

  lemma BlobLengths(block: Block)
    ensures var b := BlockCodec.Serialized(block);
            && |b| >= 36
            && block.metadata.createdUnixNs == Of8(b[23], b[22], b[21], b[20], b[19], b[18], b[17], b[16])
            && |block.data| == Of8(b[35], b[34], b[33], b[32], b[31], b[30], b[29], b[28])
  {
    var b, shape := BlockCodec.Serialized(block), BlockCodec.Shape(block.metadata);
    BlockCodec.ShapeRoundTrip(block.metadata);
    WordSizes();
    LittleRoundTrip(8, block.Size());
    assert b[4..28] == shape;
    assert b[28..36] == Little(8, block.Size());
    LittleWord8(shape[12..20]);
    LittleWord8(b[28..36]);
    assert forall i :: 0 <= i < 24 ==> shape[i] == b[4 + i];
  }

  // ---- The text of a key ----

  lemma DivTwice(v: nat, m: nat)
    requires m > 0
    ensures v / 16 / m == v / (16 * m)
  {
    var q, r := v / (16 * m), v % (16 * m);
    assert v == 16 * (m * q) + r;
    assert v / 16 == m * q + r / 16;
    DivUnique(v / 16, m, q, r / 16);
  }

  /** The digits of a hexadecimal number are in lower case, the most significant first. */
  lemma {:induction false} HexDigits(n: nat, v: nat, i: nat)
    requires i < n
    ensures BlockKeyText.Pow16(n - 1 - i) > 0
    ensures BlockKeyText.Hex(n, v)[i] == "0123456789abcdef"[v / BlockKeyText.Pow16(n - 1 - i) % 16]
  {
    if i < n - 1 {
      HexDigits(n - 1, v / 16, i);
      DivTwice(v, BlockKeyText.Pow16(n - 2 - i));
    }
  }

  lemma {:induction false} NoLeadingZero(v: nat)
    ensures BlockKeyText.Dec(v)[0] == '0' <==> v == 0
    ensures v == 0 ==> BlockKeyText.Dec(v) == "0"
  {
    if v >= 10 {
      NoLeadingZero(v / 10);
    }
  }

  /** A key prints as the sixteen hexadecimal digits of its hash, a colon, its length, a colon and its model,
      both in decimal without leading zeros. */
  lemma TextLayout(key: BlockKey, i: nat) returns (colon: nat)
    requires i < 16
    ensures var s := BlockKeyText.ToString(key);
            && 17 < colon < |s| - 1 && s[16] == ':' && s[colon] == ':'
            && BlockKeyText.Pow16(15 - i) > 0
            && s[i] == "0123456789abcdef"[key.prefixHash / BlockKeyText.Pow16(15 - i) % 16]
            && BlockKeyText.ValueOf(s[17..colon], 10) == Some(key.prefixLen) && (s[17] == '0' <==> key.prefixLen == 0)
            && BlockKeyText.ValueOf(s[colon + 1..], 10) == Some(key.modelFingerprint)
            && (s[colon + 1] == '0' <==> key.modelFingerprint == 0)
  {
    var hash, len, model :=
      BlockKeyText.Hex(16, key.prefixHash), BlockKeyText.Dec(key.prefixLen), BlockKeyText.Dec(key.modelFingerprint);
    colon := 17 + |len|;
    BlockKeyText.NeverTruncated(key);
    BlockKeyText.Separators(hash, len, model);
    BlockKeyText.DecValue(key.prefixLen);
    BlockKeyText.DecValue(key.modelFingerprint);
    NoLeadingZero(key.prefixLen);
    NoLeadingZero(key.modelFingerprint);
    HexDigits(16, key.prefixHash, i);
    var s := BlockKeyText.ToString(key);
    assert s[..16][i] == hash[i] && s[17..colon][0] == len[0] && s[colon + 1..][0] == model[0];
  }
}
