/** The bytes of the two header structs as `out.write((char*) header,
    sizeof(...))` puts them on the wire and `in.read` takes them back:
    fields in declaration order, no padding, little-endian. */
module Headers {
  import opened Types
  import opened Wire
  import opened Rcm

  const FileHeaderSize: nat := 6
  const ObjectHeaderSize: nat := 16

  function EncodeFileHeader(h: FileHeader): (r: seq<byte>)
    ensures |r| == FileHeaderSize
    ensures r[0] == h.magicNumber0 && r[1] == h.magicNumber1
    ensures r[2] == h.versionMajor && r[3] == h.versionMinor
    ensures r[4] == h.objectCount && r[5] == h.unused
  {
    [h.magicNumber0, h.magicNumber1, h.versionMajor, h.versionMinor, h.objectCount, h.unused]
  }

  function DecodeFileHeader(b: seq<byte>): (h: FileHeader)
    requires |b| == FileHeaderSize
    ensures h.magicNumber0 == b[0] && h.magicNumber1 == b[1]
  {
    FileHeader(b[0], b[1], b[2], b[3], b[4], b[5])
  }

  /** `type`, `vertexSize`, the flag word, then the three counts. */
  function EncodeObjectHeader(h: ObjectHeader): (r: seq<byte>)
    ensures |r| == ObjectHeaderSize
    ensures r[0] == h.objectType && r[1] == h.vertexSize
    ensures r[2..4] == EncodeFlags(h.vertexFlags)
    ensures r[4..8] == EncodeU32(h.vertexCount) && r[8..12] == EncodeU32(h.indexCount)
    ensures r[12..] == EncodeU32(h.boneCount)
  {
    [h.objectType, h.vertexSize] + EncodeFlags(h.vertexFlags)
      + EncodeU32(h.vertexCount) + EncodeU32(h.indexCount) + EncodeU32(h.boneCount)
  }

  function DecodeObjectHeader(b: seq<byte>): (h: ObjectHeader)
    requires |b| == ObjectHeaderSize
  {
    ObjectHeader(b[0], b[1], DecodeFlags(b[2], b[3]),
                 DecodeU32(b[4], b[5], b[6], b[7]),
                 DecodeU32(b[8], b[9], b[10], b[11]),
                 DecodeU32(b[12], b[13], b[14], b[15]))
  }

  lemma FileHeaderRoundTrip(h: FileHeader)
    ensures DecodeFileHeader(EncodeFileHeader(h)) == h
  {
  }

  lemma FileHeaderBytesRoundTrip(b: seq<byte>)
    requires |b| == FileHeaderSize
    ensures EncodeFileHeader(DecodeFileHeader(b)) == b
  {
  }

  /** Every field of an object header survives the write and the read. */
  lemma ObjectHeaderRoundTrip(h: ObjectHeader)
    ensures DecodeObjectHeader(EncodeObjectHeader(h)) == h
  {
    var b := EncodeObjectHeader(h);
    FlagsRoundTrip(h.vertexFlags);
    U32RoundTrip(h.vertexCount);
    U32RoundTrip(h.indexCount);
    U32RoundTrip(h.boneCount);
    assert b[2..4] == EncodeFlags(h.vertexFlags);
    assert b[4..8] == EncodeU32(h.vertexCount);
    assert b[8..12] == EncodeU32(h.indexCount);
    assert b[12..16] == EncodeU32(h.boneCount);
  }

  /** Every 16 bytes are the image of exactly one header. */
  lemma ObjectHeaderBytesRoundTrip(b: seq<byte>)
    requires |b| == ObjectHeaderSize
    ensures EncodeObjectHeader(DecodeObjectHeader(b)) == b
  {
    FlagsInjective(b[2], b[3]);
    U32Injective(b[4], b[5], b[6], b[7]);
    U32Injective(b[8], b[9], b[10], b[11]);
    U32Injective(b[12], b[13], b[14], b[15]);
    assert b == b[..2] + b[2..4] + b[4..8] + b[8..12] + b[12..16];
  }
}
