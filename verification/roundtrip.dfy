/** What the reader makes of what the writer wrote: the file header, and
    each object layout read back with the reader for its type. */
module RoundTrip {
  import opened Types
  import opened Wire
  import opened Rcm
  import opened RcmInternal
  import opened Weld
  import opened Headers
  import opened RcmWriter
  import opened RcmReader

  // ------------------------------------------------------------- generic reads

  /** The stream is open and `bytes` lie at its position. */
  predicate At(s: Stream, bytes: seq<byte>)
  {
    s.open && s.pos + |bytes| <= |s.data| && s.data[s.pos .. s.pos + |bytes|] == bytes
  }

  lemma AtSplit(s: Stream, a: seq<byte>, b: seq<byte>)
    requires At(s, a + b)
    ensures At(s, a) && At(s.(pos := s.pos + |a|), b)
  {
    assert s.data[s.pos .. s.pos + |a|] == (a + b)[..|a|];
    assert s.data[s.pos + |a| .. s.pos + |a| + |b|] == (a + b)[|a|..];
  }

  /** Two index lists with the same bytes are the same list. */
  lemma EncodeIndicesInjective(xs: seq<Index>, ys: seq<Index>)
    requires EncodeIndices(xs) == EncodeIndices(ys)
    ensures xs == ys
  {
    IndicesRoundTrip(xs);
    IndicesRoundTrip(ys);
  }

  /** Blocks fit the gated slots: a set gate's block has the slot's count
      of floats, a clear gate's block is empty. */
  predicate BlocksFit(blocks: seq<seq<Float>>, gates: seq<bool>, counts: seq<nat>)
    requires |blocks| == |gates| == |counts|
  {
    blocks == [] ||
    (&& (if gates[0] then |blocks[0]| == counts[0] else blocks[0] == [])
     && BlocksFit(blocks[1..], gates[1..], counts[1..]))
  }

  /** Blocks fit when each one fits its slot. */
  lemma {:induction false} BlocksFitEach(blocks: seq<seq<Float>>, gates: seq<bool>, counts: seq<nat>)
    requires |blocks| == |gates| == |counts|
    requires forall k :: 0 <= k < |gates| ==> if gates[k] then |blocks[k]| == counts[k] else blocks[k] == []
    ensures BlocksFit(blocks, gates, counts)
    decreases |blocks|
  {
    if blocks != [] {
      forall k | 0 <= k < |gates| - 1
        ensures if gates[1..][k] then |blocks[1..][k]| == counts[1..][k] else blocks[1..][k] == []
      {
        assert blocks[1..][k] == blocks[k + 1];
      }
      BlocksFitEach(blocks[1..], gates[1..], counts[1..]);
    }
  }

  /** The slots a read fills from `blocks`: slot `k` holds block `k`
      when its gate is set and is null otherwise. */
  function Gated(blocks: seq<seq<Float>>, gates: seq<bool>): (r: seq<Option<seq<Float>>>)
    requires |blocks| == |gates|
    ensures |r| == |gates|
  {
    seq(|gates|, k requires 0 <= k < |gates| => if gates[k] then Some(blocks[k]) else None)
  }

  lemma GatedCons(blocks: seq<seq<Float>>, gates: seq<bool>)
    requires |blocks| == |gates| > 0
    ensures Gated(blocks, gates)
         == [if gates[0] then Some(blocks[0]) else None] + Gated(blocks[1..], gates[1..])
  {
    var r := [if gates[0] then Some(blocks[0]) else None] + Gated(blocks[1..], gates[1..]);
    forall k | 0 <= k < |gates|
      ensures Gated(blocks, gates)[k] == r[k]
    {
      if k > 0 {
        assert blocks[1..][k - 1] == blocks[k];
      }
    }
  }

  /** A block at the position is read back as itself. */
  lemma ReadsBlock(s: Stream, block: seq<Float>, count: nat)
    requires |block| == count && At(s, EncodeFloats(block))
    ensures Remains(s, FloatBytes(count))
    ensures ReadFloats(s, count) == (block, s.(pos := s.pos + FloatBytes(count)))
  {
    var bytes := EncodeFloats(block);
    assert |bytes| == FloatBytes(count);
    assert s.data[s.pos .. s.pos + FloatBytes(count)] == bytes;
    EncodeFloatsInjective(ReadFloats(s, count).0, block);
  }

  /** Indices at the position are read back as themselves. */
  lemma ReadsIndexBlock(s: Stream, indices: seq<Index>, count: nat)
    requires |indices| == count && At(s, EncodeIndices(indices))
    ensures Remains(s, IndexBytes(count))
    ensures ReadIndices(s, count) == (indices, s.(pos := s.pos + IndexBytes(count)))
  {
    var bytes := EncodeIndices(indices);
    assert |bytes| == IndexBytes(count);
    assert s.data[s.pos .. s.pos + IndexBytes(count)] == bytes;
    EncodeIndicesInjective(ReadIndices(s, count).0, indices);
  }

  /** Blocks written one after the other are read back slot by slot: each
      gated slot gets its block, the others stay null, and the reads take
      exactly the written bytes. */
  lemma {:induction false} SlotsReadBack(s: Stream, blocks: seq<seq<Float>>, gates: seq<bool>, counts: seq<nat>)
    requires |blocks| == |gates| == |counts|
    requires BlocksFit(blocks, gates, counts)
    requires At(s, EncodeFloats(Flatten(blocks)))
    ensures SlotBytes(gates, counts) == FloatBytes(|Flatten(blocks)|)
    ensures ReadSlots(s, gates, counts).0 == Gated(blocks, gates)
    decreases |gates|
  {
    if gates != [] {
      var b0 := blocks[0];
      var rest := blocks[1..];
      assert Flatten(blocks) == b0 + Flatten(rest);
      EncodeFloatsAppend(b0, Flatten(rest));
      AtSplit(s, EncodeFloats(b0), EncodeFloats(Flatten(rest)));
      var s1 := s.(pos := s.pos + FloatBytes(|b0|));
      SlotsReadBack(s1, rest, gates[1..], counts[1..]);
      GatedCons(blocks, gates);
      var tail := ReadSlots(s1, gates[1..], counts[1..]).0;
      if gates[0] {
        ReadsBlock(s, b0, counts[0]);
        assert ReadSlots(s, gates, counts).0 == [Some(b0)] + tail;
      } else {
        assert b0 == [];
        assert s1 == s;
        assert ReadSlots(s, gates, counts).0 == [None] + tail;
      }
    }
  }

  // ------------------------------------------------------------------ headers

  /** Cutting to 32 bits and then to 8 is cutting to 8. */
  lemma ByteOfWord(n: nat)
    ensures ToU8(ToU32(n)) == n % 0x100
  {
    var q := n / 0x1_0000_0000;
    assert n == q * 0x1_0000_0000 + ToU32(n);
    assert q * 0x1_0000_0000 == (q * 0x100_0000) * 0x100;
  }

  /** A header with the magic number, followed by anything, is read back
      as itself and leaves the stream just after it. */
  lemma FileHeaderReadsItself(header: FileHeader, rest: seq<byte>)
    requires header.magicNumber0 == MagicNumber0 && header.magicNumber1 == MagicNumber1
    ensures var data := EncodeFileHeader(header) + rest;
      ReadFileHeader(Stream(true, data, 0)) == (Some(header), Stream(true, data, FileHeaderSize))
  {
    var data := EncodeFileHeader(header) + rest;
    assert data[..FileHeaderSize] == EncodeFileHeader(header);
    var (h, _) := ReadFileHeader(Stream(true, data, 0));
    FileHeaderRoundTrip(header);
    FileHeaderRoundTrip(h.value);
  }

  /** `createFileHeader`'s header, written at the start of a file, reads
      back with the magic number, version 0.1, the object count cut to a
      byte and a zero spare byte. */
  lemma CreatedFileHeaderReadBack(numObjects: u32, rest: seq<byte>)
    ensures var data := EncodeFileHeader(CreateFileHeader(numObjects)) + rest;
      var h := ReadFileHeader(Stream(true, data, 0)).0;
      && h.Some?
      && h.value.magicNumber0 == 0xDE && h.value.magicNumber1 == 0xAD
      && h.value.versionMajor == 0x0 && h.value.versionMinor == 0x1
      && h.value.objectCount == numObjects % 0x100 && h.value.unused == 0
  {
    FileHeaderReadsItself(CreateFileHeader(numObjects), rest);
  }

  /** `createObjectHeader`'s header reads back with type 1 exactly when the
      struct-of-arrays layout was asked for, type 2 otherwise, and every
      other argument unchanged. */
  lemma CreatedObjectHeaderReadBack(s: Stream, vertexFlags: Flags, vertexCount: u32, indexCount: u32,
                                    boneCount: u32, vertexSize: byte, useStructOfArrays: bool, rest: seq<byte>)
    requires At(s, EncodeObjectHeader(CreateObjectHeader(vertexFlags, vertexCount, indexCount,
                                                         boneCount, vertexSize, useStructOfArrays)) + rest)
    ensures var h := ReadObjectHeader(s).0;
      && h.Some?
      && (h.value.objectType == 0x1 <==> useStructOfArrays)
      && (h.value.objectType == 0x2 <==> !useStructOfArrays)
      && h.value.vertexFlags == vertexFlags && h.value.vertexSize == vertexSize
      && h.value.vertexCount == vertexCount && h.value.indexCount == indexCount
      && h.value.boneCount == boneCount
  {
    ObjectHeaderReadsItself(s, CreateObjectHeader(vertexFlags, vertexCount, indexCount,
                                                  boneCount, vertexSize, useStructOfArrays), rest);
  }

  /** The file `writeFile` writes opens with a header the reader accepts:
      magic number, version 0.1, and the number of meshes cut to a byte. */
  lemma FileHeaderReadBack(meshes: seq<Option<Mesh>>, doOptimize: bool, useStructOfArrays: bool)
    requires AllWritable(meshes, doOptimize, useStructOfArrays)
    ensures var out := WriteFile(meshes, true, doOptimize, useStructOfArrays).value;
      var (h, s) := ReadFileHeader(Stream(true, out, 0));
      && h.Some?
      && h.value.versionMajor == FileFormatVersionMajor && h.value.versionMinor == FileFormatVersionMinor
      && h.value.objectCount == |meshes| % 0x100
      && s == Stream(true, out, FileHeaderSize)
  {
    var header := CreateFileHeader(ToU32(|meshes|));
    var rest := WriteObjects(meshes, doOptimize, useStructOfArrays);
    assert WriteFile(meshes, true, doOptimize, useStructOfArrays).value == EncodeFileHeader(header) + rest;
    ByteOfWord(|meshes|);
    FileHeaderReadsItself(header, rest);
  }

  /** An object header at the position is read back as itself, and the
      stream moves past it onto what follows. */
  lemma ObjectHeaderReadsItself(s: Stream, header: ObjectHeader, rest: seq<byte>)
    requires At(s, EncodeObjectHeader(header) + rest)
    ensures Remains(s, ObjectHeaderSize)
    ensures ReadObjectHeader(s) == (Some(header), s.(pos := s.pos + ObjectHeaderSize))
    ensures At(s.(pos := s.pos + ObjectHeaderSize), rest)
  {
    AtSplit(s, EncodeObjectHeader(header), rest);
    ObjectHeaderRoundTrip(header);
  }

  /** The header of each branch is read back as built. */
  lemma ObjectHeaderReadBack(s: Stream, m: Mesh, doOptimize: bool, useStructOfArrays: bool)
    requires Writable(m, doOptimize, useStructOfArrays)
    requires At(s, ObjectBytes(m, doOptimize, useStructOfArrays))
    ensures Remains(s, ObjectHeaderSize)
    ensures var (h, s1) := ReadObjectHeader(s);
      && h == Some(if doOptimize then OptimizedHeader(m, useStructOfArrays) else UnoptimizedHeader(m, useStructOfArrays))
      && s1 == s.(pos := s.pos + ObjectHeaderSize)
      && At(s1, if doOptimize then OptimizedData(m, useStructOfArrays) else UnoptimizedData(m, useStructOfArrays))
  {
    if doOptimize {
      ObjectHeaderReadsItself(s, OptimizedHeader(m, useStructOfArrays), OptimizedData(m, useStructOfArrays));
    } else {
      ObjectHeaderReadsItself(s, UnoptimizedHeader(m, useStructOfArrays), UnoptimizedData(m, useStructOfArrays));
    }
  }

  /** Equal concatenations with equal first lengths have equal parts. */
  lemma SplitEqual(a: seq<byte>, b: seq<byte>, c: seq<byte>, d: seq<byte>)
    requires a + b == c + d && |a| == |c|
    ensures a == c && b == d
  {
    assert a == (a + b)[..|a|] && c == (c + d)[..|c|];
    assert b == (a + b)[|a|..] && d == (c + d)[|c|..];
  }

  /** A count below 2^32 survives the 32-bit cut. */
  lemma NoWrap32(n: int)
    requires 0 <= n < 0x1_0000_0000
    ensures ToU32(n) == n
  {
  }

  /** A product below 2^32 survives the 32-bit cut. */
  lemma ProductNoWrap(a: nat, b: nat, c: nat)
    requires b == c && a * c < 0x1_0000_0000
    ensures ToU32(a * b) == a * c
  {
    NoWrap32(a * c);
  }

  // --------------------------------------------------- unoptimized objects

  /** The reader's array-of-structs size for the unoptimized header is the
      number of floats the writer wrote. */
  lemma UnoptimizedFloatCount(m: Mesh)
    requires CalcVertexSize(m.flags) == m.vertexSize
    requires m.FloatCount() < 0x1_0000_0000
    ensures AosFloatCount(UnoptimizedHeader(m, false)) == m.FloatCount()
  {
    var h := UnoptimizedHeader(m, false);
    assert h.vertexCount == m.numVertices && h.vertexFlags == m.flags;
    ProductNoWrap(h.vertexCount, CalcVertexSize(h.vertexFlags), m.vertexSize);
  }

  /** The array-of-structs read for `h` stays inside the stream, gives
      `floats` as its one vertex block and `indices`, and ends just after
      them. */
  predicate ReadsArrayOfStructs(s: Stream, h: ObjectHeader, floats: seq<Float>, indices: seq<Index>)
  {
    && Remains(s, FloatBytes(AosFloatCount(h)) + IndexBytes(h.indexCount))
    && ReadArrayOfStructs(s, h).0 == Some(Bla(h, [Some(floats)], indices))
    && ReadArrayOfStructs(s, h).1.pos == s.pos + FloatBytes(|floats|) + IndexBytes(|indices|)
  }

  /** A float block of the header's array-of-structs size followed by the
      header's index count of indices reads back as exactly those values. */
  lemma ArrayOfStructsReadsBlock(s: Stream, h: ObjectHeader, floats: seq<Float>, indices: seq<Index>)
    requires |floats| == AosFloatCount(h) && |indices| == h.indexCount
    requires At(s, EncodeFloats(floats) + EncodeIndices(indices))
    ensures ReadsArrayOfStructs(s, h, floats, indices)
  {
    var b := ReadArrayOfStructs(s, h).0.value;
    SplitEqual(EncodeFloats(b.vertices[0].value), EncodeIndices(b.indices),
               EncodeFloats(floats), EncodeIndices(indices));
    EncodeFloatsInjective(b.vertices[0].value, floats);
    EncodeIndicesInjective(b.indices, indices);
  }

  /** The unoptimized array-of-structs branch writes the vertex block as
      it stands and then the indices. */
  lemma UnoptimizedArrayOfStructsBytes(m: Mesh)
    requires Writable(m, false, false)
    ensures UnoptimizedData(m, false)
         == EncodeFloats(m.vertices[..m.FloatCount()]) + EncodeIndices(m.indices[..m.numIndices])
  {
  }

  /** After its header, an unoptimized array-of-structs object whose
      stride is the one its flags give reads back as the mesh's vertex
      block and its first `numIndices` indices, and the read ends where
      the object ends. */
  lemma UnoptimizedArrayOfStructsReadBack(s: Stream, m: Mesh)
    requires Writable(m, false, false)
    requires CalcVertexSize(m.flags) == m.vertexSize
    requires m.FloatCount() < 0x1_0000_0000
    requires At(s, UnoptimizedData(m, false))
    ensures ReadsArrayOfStructs(s, UnoptimizedHeader(m, false),
                                m.vertices[..m.FloatCount()], m.indices[..m.numIndices])
  {
    var h := UnoptimizedHeader(m, false);
    var floats := m.vertices[..m.FloatCount()];
    var indices := m.indices[..m.numIndices];
    UnoptimizedArrayOfStructsBytes(m);
    UnoptimizedFloatCount(m);
    assert |floats| == AosFloatCount(h);
    assert |indices| == h.indexCount;
    ArrayOfStructsReadsBlock(s, h, floats, indices);
  }

  // ------------------------------------- unoptimized struct-of-arrays objects

  /** The buffer holds `numVertices` strides, each wide enough for the
      components the flags enable. */
  predicate Strides(m: Mesh)
  {
    CalcVertexSize(m.flags) <= m.vertexSize && m.FloatCount() <= |m.vertices|
  }

  /** Reference column of component `c`: its floats, taken at the offset
      the enabled components before it leave, from every stride. */
  function StridedColumn(m: Mesh, c: Component): (r: seq<Float>)
    requires Strides(m) && Enabled(c, m.flags)
    ensures |r| == m.numVertices * Size(c)
  {
    ComponentInsideStride(c, m.flags);
    var parts := Strided(m.vertices, m.vertexSize, ScanOffset(c, m.flags), Size(c), m.numVertices);
    FlattenUniformLength(parts, Size(c));
    Flatten(parts)
  }

  /** With positions present, the element array of an enabled component
      is its reference column. */
  lemma ElementArrayIsColumn(m: Mesh, c: Component)
    requires Strides(m) && HasPositions(m.flags) && Enabled(c, m.flags)
    ensures SlicesFit(m.vertices, m.FloatCount(), m.vertexSize, Offset(c, m.flags), Size(c))
    ensures ElementRun(m.vertices, m.FloatCount(), m.vertexSize, Offset(c, m.flags), Size(c))
         == StridedColumn(m, c)
  {
    OffsetIsScanOffset(c, m.flags);
    ComponentInsideStride(c, m.flags);
    var offset := ScanOffset(c, m.flags);
    var parts := Strided(m.vertices, m.vertexSize, offset, Size(c), m.numVertices);
    ElementRunStrided(m.vertices, m.numVertices, m.vertexSize, offset, Size(c), 0);
    assert 0 * m.vertexSize + offset == offset;
    assert parts[0..] == parts;
  }

  /** With positions present, every element array fits the buffer. */
  lemma ElementsFitInside(m: Mesh)
    requires Strides(m) && HasPositions(m.flags)
    ensures ElementsFit(m)
  {
    forall c | Enabled(c, m.flags)
      ensures SlicesFit(m.vertices, m.FloatCount(), m.vertexSize, Offset(c, m.flags), Size(c))
    {
      ElementArrayIsColumn(m, c);
    }
  }

  /** Block `k` of the element arrays is the reference column of
      component `k` when it is enabled, and empty otherwise. */
  lemma ElementBlockIsColumn(m: Mesh, k: nat)
    requires Strides(m) && HasPositions(m.flags) && k < ComponentCount
    ensures ElementsFit(m)
    ensures ElementBlocks(m)[k] == if Enabled(Canonical[k], m.flags) then StridedColumn(m, Canonical[k]) else []
  {
    ElementsFitInside(m);
    if Enabled(Canonical[k], m.flags) {
      ElementArrayIsColumn(m, Canonical[k]);
    }
  }

  /** The reader's slot sizes are the component sizes. */
  lemma SlotSizesAreSizes(k: nat)
    requires k < ComponentCount
    ensures SlotSizes[k] == Size(Canonical[k])
  {
  }

  lemma {:induction false} MulMonotone(a: nat, b: nat, n: nat)
    requires a <= b
    ensures a * n <= b * n
  {
    if n > 0 {
      MulMonotone(a, b, n - 1);
      assert a * n == a * (n - 1) + a && b * n == b * (n - 1) + b;
    }
  }

  /** A count no larger than one that fits in 32 bits fits too. */
  lemma ScaledNoWrap(a: nat, b: nat, n: nat)
    requires a <= b && n * b < 0x1_0000_0000
    ensures ToU32(a * n) == n * a
  {
    MulMonotone(a, b, n);
    assert a * n == n * a && b * n == n * b;
    NoWrap32(n * a);
  }

  /** When the whole buffer is below 2^32 floats, no slot count wraps. */
  lemma SlotCountNoWrap(m: Mesh, k: nat)
    requires Strides(m) && k < ComponentCount && Enabled(Canonical[k], m.flags)
    requires m.FloatCount() < 0x1_0000_0000
    ensures SlotCounts(m.numVertices)[k] == m.numVertices * Size(Canonical[k])
  {
    var c := Canonical[k];
    SlotSizesAreSizes(k);
    ComponentInsideStride(c, m.flags);
    assert Size(c) <= m.vertexSize;
    ScaledNoWrap(SlotSizes[k], m.vertexSize, m.numVertices);
  }

  /** The element arrays fit the slots the corrected reader reads. */
  lemma ElementBlocksFitSlots(m: Mesh)
    requires Strides(m) && HasPositions(m.flags)
    requires m.FloatCount() < 0x1_0000_0000
    ensures ElementsFit(m)
    ensures BlocksFit(ElementBlocks(m), WriterGates(m.flags), SlotCounts(m.numVertices))
  {
    ElementsFitInside(m);
    forall k | 0 <= k < ComponentCount
      ensures if WriterGates(m.flags)[k] then |ElementBlocks(m)[k]| == SlotCounts(m.numVertices)[k]
              else ElementBlocks(m)[k] == []
    {
      ElementBlockIsColumn(m, k);
      if Enabled(Canonical[k], m.flags) {
        SlotCountNoWrap(m, k);
      }
    }
    BlocksFitEach(ElementBlocks(m), WriterGates(m.flags), SlotCounts(m.numVertices));
  }

  /** The unoptimized struct-of-arrays branch writes the element arrays
      and then the indices. */
  lemma UnoptimizedStructOfArraysBytes(m: Mesh)
    requires Writable(m, false, true)
    ensures UnoptimizedData(m, true) == WriteElementArrays(m) + EncodeIndices(m.indices[..m.numIndices])
  {
  }

  /** The struct-of-arrays read for `h` under `gates` stays inside the
      stream, gives `slots` and `indices`, and ends `size` bytes on. */
  predicate ReadsSlotsAndIndices(s: Stream, h: ObjectHeader, gates: seq<bool>,
                                 slots: seq<Option<seq<Float>>>, indices: seq<Index>, size: nat)
    requires |gates| == ComponentCount
  {
    && Remains(s, SoaBytes(h, gates))
    && ReadSlotsAndIndices(s, h, gates).0 == Some(Bla(h, slots, indices))
    && ReadSlotsAndIndices(s, h, gates).1.pos == s.pos + size
  }

  /** Blocks that fit the gated slots, followed by the header's index
      count of indices, read back as those blocks in their slots and those
      indices, and the read takes exactly those bytes. */
  lemma SlotsAndIndicesReadBack(s: Stream, h: ObjectHeader, gates: seq<bool>,
                                blocks: seq<seq<Float>>, indices: seq<Index>)
    requires |gates| == |blocks| == ComponentCount
    requires BlocksFit(blocks, gates, SlotCounts(h.vertexCount)) && |indices| == h.indexCount
    requires At(s, EncodeFloats(Flatten(blocks)) + EncodeIndices(indices))
    ensures ReadsSlotsAndIndices(s, h, gates, Gated(blocks, gates), indices, FloatBytes(|Flatten(blocks)|) + IndexBytes(|indices|))
  {
    var floats := EncodeFloats(Flatten(blocks));
    var counts := SlotCounts(h.vertexCount);
    AtSplit(s, floats, EncodeIndices(indices));
    SlotsReadBack(s, blocks, gates, counts);
    var s1 := s.(pos := s.pos + |floats|);
    assert |floats| == SlotBytes(gates, counts);
    assert ReadSlots(s, gates, counts).1 == s1;
    ReadsIndexBlock(s1, indices, h.indexCount);
    assert SoaBytes(h, gates) == |floats| + IndexBytes(h.indexCount);
  }

  /** Reference columns of a mesh: component `k`'s strided column when it
      is enabled, nothing otherwise. */
  function ReferenceColumns(m: Mesh): (r: seq<seq<Float>>)
    requires Strides(m)
    ensures |r| == ComponentCount
  {
    seq(ComponentCount, k requires 0 <= k < ComponentCount =>
      if Enabled(Canonical[k], m.flags) then StridedColumn(m, Canonical[k]) else [])
  }

  /** With positions present, the element arrays are the reference
      columns. */
  lemma ElementBlocksAreColumns(m: Mesh)
    requires Strides(m) && HasPositions(m.flags)
    ensures ElementsFit(m)
    ensures ElementBlocks(m) == ReferenceColumns(m)
  {
    ElementsFitInside(m);
    forall k | 0 <= k < ComponentCount
      ensures ElementBlocks(m)[k] == ReferenceColumns(m)[k]
    {
      ElementBlockIsColumn(m, k);
    }
  }

  /** After its header, an unoptimized struct-of-arrays object with
      positions, read with the slot tests the writer's layout calls for,
      gives slot `k` the reference column of component `k` when that
      component is enabled and null otherwise, then the mesh's first
      `numIndices` indices, and the read ends where the object ends. */
  lemma UnoptimizedStructOfArraysReadBack(s: Stream, m: Mesh)
    requires Writable(m, false, true) && Strides(m) && HasPositions(m.flags)
    requires m.FloatCount() < 0x1_0000_0000
    requires At(s, UnoptimizedData(m, true))
    ensures ReadsSlotsAndIndices(s, UnoptimizedHeader(m, true), WriterGates(m.flags),
                                 Gated(ReferenceColumns(m), WriterGates(m.flags)), m.indices[..m.numIndices],
                                 |UnoptimizedData(m, true)|)
  {
    var h := UnoptimizedHeader(m, true);
    var blocks := ElementBlocks(m);
    UnoptimizedStructOfArraysBytes(m);
    ElementBlocksFitSlots(m);
    ElementBlocksAreColumns(m);
    SlotsAndIndicesReadBack(s, h, WriterGates(m.flags), blocks, m.indices[..m.numIndices]);
  }

  // ------------------------------------------------------- the normals slot

  /** The reader tests every slot as the writer does, except the normals
      slot, which it tests on the positions flag. */
  lemma ReaderGatesAreWriterGates(f: Flags)
    ensures ReaderGates(f) == WriterGates(f)[1 := HasPositions(f)]
  {
    var r := ReaderGates(f);
    var w := WriterGates(f)[1 := HasPositions(f)];
    forall k | 0 <= k < ComponentCount
      ensures r[k] == w[k]
    {
      if k == 0 { assert Canonical[0] == Position; }
      else if k == 1 { }
      else if k == 2 { assert Canonical[2] == TexCoord0; }
      else if k == 3 { assert Canonical[3] == TexCoord1; }
      else if k == 4 { assert Canonical[4] == TexCoord2; }
      else if k == 5 { assert Canonical[5] == TexCoord3; }
      else if k == 6 { assert Canonical[6] == Color0; }
      else if k == 7 { assert Canonical[7] == Color1; }
      else if k == 8 { assert Canonical[8] == Color2; }
      else if k == 9 { assert Canonical[9] == Color3; }
      else if k == 10 { assert Canonical[10] == Tangent; }
      else { assert Canonical[11] == Bitangent; }
    }
  }

  /** The reader's slot tests are the writer's exactly when the position
      and normals flags agree. */
  lemma GatesAgreeIff(f: Flags)
    ensures ReaderGates(f) == WriterGates(f) <==> HasPositions(f) == HasNormals(f)
  {
    ReaderGatesAreWriterGates(f);
    if HasPositions(f) != HasNormals(f) {
      assert ReaderGates(f)[1] != WriterGates(f)[1];
    } else {
      assert WriterGates(f)[1] == HasNormals(f);
      assert WriterGates(f)[1 := HasPositions(f)] == WriterGates(f);
    }
  }

  /** Gates that differ only in slot 1 differ in bytes by that slot's block. */
  lemma SlotBytesAtOne(gates: seq<bool>, counts: seq<nat>)
    requires |gates| == |counts| >= 2
    ensures SlotBytes(gates[1 := true], counts) == SlotBytes(gates[1 := false], counts) + FloatBytes(counts[1])
  {
    var t := gates[1 := true];
    var u := gates[1 := false];
    assert t[1..][1..] == u[1..][1..] == gates[2..];
    assert SlotBytes(t[1..], counts[1..]) == FloatBytes(counts[1]) + SlotBytes(gates[2..], counts[2..]);
    assert SlotBytes(u[1..], counts[1..]) == SlotBytes(gates[2..], counts[2..]);
  }

  /** Three floats per vertex are never cut to zero by the 32-bit product. */
  lemma NormalsCountNonZero(vertexCount: u32)
    requires vertexCount > 0
    ensures ReadCount(NormalsSize, vertexCount) > 0
  {
    var p := NormalsSize * vertexCount;
    assert 0 < p < 3 * 0x1_0000_0000;
  }

  /** The mismatch as written: with positions but no normals and at least one
      vertex, `readStructOfArrays` asks for a normals column the writer
      never wrote, so it consumes more bytes than the writer produced. */
  lemma NormalsGateOverreads(h: ObjectHeader)
    requires HasPositions(h.vertexFlags) && !HasNormals(h.vertexFlags) && h.vertexCount > 0
    ensures SoaBytes(h, ReaderGates(h.vertexFlags))
         == SoaBytes(h, WriterGates(h.vertexFlags)) + FloatBytes(ReadCount(NormalsSize, h.vertexCount))
    ensures SoaBytes(h, ReaderGates(h.vertexFlags)) > SoaBytes(h, WriterGates(h.vertexFlags))
  {
    var f := h.vertexFlags;
    var counts := SlotCounts(h.vertexCount);
    ReaderGatesAreWriterGates(f);
    assert WriterGates(f)[1] == HasNormals(f);
    assert WriterGates(f) == WriterGates(f)[1 := false];
    SlotBytesAtOne(WriterGates(f), counts);
    NormalsCountNonZero(h.vertexCount);
  }

  /** Whenever the position and normals flags agree, the reader as written
      and the corrected one read the same. */
  lemma ReadersAgree(s: Stream, h: ObjectHeader)
    requires HasPositions(h.vertexFlags) == HasNormals(h.vertexFlags)
    requires s.open ==> Remains(s, SoaBytes(h, ReaderGates(h.vertexFlags)))
    requires s.open ==> Remains(s, SoaBytes(h, WriterGates(h.vertexFlags)))
    ensures ReadStructOfArrays(s, h) == ReadStructOfArraysCorrected(s, h)
  {
    GatesAgreeIff(h.vertexFlags);
  }
}
