/** What the reader makes of an optimized object: the welded vertices in
    either layout and the weld's index list, each original vertex found
    again through its index. */
module OptimizedRoundTrip {
  import opened Types
  import opened Wire
  import opened Rcm
  import opened RcmInternal
  import opened Weld
  import opened RcmWriter
  import opened RcmReader
  import opened RoundTrip

  // ---------------------------------------------------------------- headers

  /** With at most 2^16 vertices, the optimized header counts the welded
      vertices and one index per original vertex, with no 32-bit cut. */
  lemma OptimizedHeaderCounts(m: Mesh, useStructOfArrays: bool)
    requires Writable(m, true, useStructOfArrays) && m.numVertices <= 0x1_0000
    ensures var h := OptimizedHeader(m, useStructOfArrays);
      && h.vertexCount == |WeldVertices(m.vertices, m.numVertices)| <= m.numVertices
      && h.indexCount == m.numVertices == |WeldIndices(m.vertices, m.numVertices)|
      && h.vertexFlags == m.flags
  {
    WeldedAreKeys(m.vertices, m.numVertices);
    NoWrap32(|WeldVertices(m.vertices, m.numVertices)|);
    NoWrap32(m.numVertices);
  }

  // ------------------------------------------------------ array of structs

  /** The floats of the optimized array-of-structs block: the eight floats
      of every welded vertex, in weld order. */
  function WeldedFloats(m: Mesh): (r: seq<Float>)
    requires Writable(m, true, false)
    ensures |r| == |WeldVertices(m.vertices, m.numVertices)| * KeySize
  {
    var w := WeldVertices(m.vertices, m.numVertices);
    WeldedAreKeys(m.vertices, m.numVertices);
    FlattenUniformLength(Heads(w, KeySize), KeySize);
    Flatten(Heads(w, KeySize))
  }

  /** The optimized array-of-structs branch writes the welded floats, then
      the weld's indices. */
  lemma OptimizedArrayOfStructsBytes(m: Mesh)
    requires Writable(m, true, false)
    ensures OptimizedData(m, false)
         == EncodeFloats(WeldedFloats(m)) + EncodeIndices(WeldIndices(m.vertices, m.numVertices))
  {
    var w := WeldVertices(m.vertices, m.numVertices);
    WeldedAreKeys(m.vertices, m.numVertices);
    if w == [] {
      assert Heads(w, KeySize) == [];
    } else {
      assert w[0].size == KeySize;
    }
  }

  /** Original vertex `n` is the run of eight welded floats its index
      points at. */
  lemma WeldedFloatsRecover(m: Mesh, n: nat)
    requires Writable(m, true, false) && m.numVertices <= 0x1_0000 && n < m.numVertices
    ensures var i := WeldIndices(m.vertices, m.numVertices)[n];
      && i * KeySize + KeySize <= |WeldedFloats(m)|
      && KeySize * n + KeySize <= |m.vertices|
      && Chunk(WeldedFloats(m), KeySize, i) == m.vertices[KeySize * n .. KeySize * n + KeySize]
  {
    var w := WeldVertices(m.vertices, m.numVertices);
    var i := WeldIndices(m.vertices, m.numVertices)[n];
    WeldRecovers(m.vertices, m.numVertices, n);
    WeldedAreKeys(m.vertices, m.numVertices);
    ChunkFits(n, m.numVertices, KeySize);
    assert n * KeySize == KeySize * n && m.numVertices * KeySize == KeySize * m.numVertices;
    FlattenUniformChunk(Heads(w, KeySize), KeySize, i);
    assert Heads(w, KeySize)[i] == w[i].values[..KeySize] == Key(m.vertices, n).values;
  }

  /** After its header, an optimized array-of-structs object whose flags
      give a stride of eight floats reads back as the welded floats and the
      weld's indices, and the read ends where the object ends. */
  lemma OptimizedArrayOfStructsReadBack(s: Stream, m: Mesh)
    requires Writable(m, true, false) && CalcVertexSize(m.flags) == KeySize
    requires m.numVertices <= 0x1_0000
    requires At(s, OptimizedData(m, false))
    ensures ReadsArrayOfStructs(s, OptimizedHeader(m, false),
                                WeldedFloats(m), WeldIndices(m.vertices, m.numVertices))
  {
    var h := OptimizedHeader(m, false);
    var w := WeldVertices(m.vertices, m.numVertices);
    OptimizedHeaderCounts(m, false);
    MulMonotone(|w|, 0x1_0000, KeySize);
    ProductNoWrap(h.vertexCount, CalcVertexSize(h.vertexFlags), KeySize);
    assert |WeldedFloats(m)| == AosFloatCount(h);
    OptimizedArrayOfStructsBytes(m);
    ArrayOfStructsReadsBlock(s, h, WeldedFloats(m), WeldIndices(m.vertices, m.numVertices));
  }

  // ------------------------------------------------------ struct of arrays

  /** The welded vertices hold every component the flags enable. */
  lemma WeldedHoldStride(m: Mesh)
    requires Writable(m, true, true)
    ensures HoldStride(WeldVertices(m.vertices, m.numVertices), m.flags)
  {
    WeldedAreKeys(m.vertices, m.numVertices);
  }

  /** The twelve blocks of the optimized struct-of-arrays branch. */
  function WeldedBlocks(m: Mesh): (r: seq<seq<Float>>)
    requires Writable(m, true, true)
    ensures |r| == ComponentCount
  {
    SoaBlocks(WeldedColumns(m))
  }

  /** Block `k` is the welded column of component `k` when that component
      is enabled, and empty otherwise; the position block, written
      without a test, is empty when positions are disabled. */
  lemma WeldedBlock(m: Mesh, k: nat)
    requires Writable(m, true, true) && k < ComponentCount
    ensures WeldedBlocks(m)[k]
         == if Enabled(Canonical[k], m.flags) then Column(WeldedColumns(m), Canonical[k]) else []
  {
    if k == 0 && !Enabled(Position, m.flags) {
      WeldedHoldStride(m);
      DisabledColumnEmpty(WeldVertices(m.vertices, m.numVertices), m.flags, m.vertexSize, Position);
    }
  }

  /** Component `c` of key `n` is the run of the buffer at the key's start
      plus the component's scan offset. */
  lemma KeyComponent(buf: seq<Float>, n: nat, c: Component, f: Flags)
    requires KeySize * n + KeySize <= |buf| && CalcVertexSize(f) <= KeySize && Enabled(c, f)
    ensures ScanOffset(c, f) + Size(c) <= KeySize
    ensures Key(buf, n).values[ScanOffset(c, f) .. ScanOffset(c, f) + Size(c)]
         == buf[KeySize * n + ScanOffset(c, f) .. KeySize * n + ScanOffset(c, f) + Size(c)]
  {
    ComponentInsideStride(c, f);
    var o := ScanOffset(c, f);
    var b := KeySize * n;
    var v := Key(buf, n).values;
    assert v == buf[b .. b + KeySize];
    var part := v[o .. o + Size(c)];
    assert forall j :: 0 <= j < |part| ==> part[j] == buf[b + o + j];
  }

  /** Welded keys hold every component of a stride of at most eight. */
  lemma KeysHoldStride(buf: seq<Float>, count: nat, f: Flags)
    requires KeySize * count <= |buf| && CalcVertexSize(f) <= KeySize
    ensures HoldStride(WeldVertices(buf, count), f)
  {
    WeldedAreKeys(buf, count);
  }

  /** When vertex `i` of a list is key `n` of the buffer, chunk `i` of the
      list's column of `c` is the buffer run of that key's component. */
  lemma KeyColumnChunk(buf: seq<Float>, n: nat, w: seq<Vertex>, i: nat, f: Flags, vertexSize: nat, c: Component)
    requires KeySize * n + KeySize <= |buf| && CalcVertexSize(f) <= KeySize && Enabled(c, f)
    requires HoldStride(w, f) && i < |w| && w[i] == Key(buf, n)
    ensures var column := Column(ConvertArrayOfStructsToStructOfArrays(w, f, vertexSize), c);
      && i * Size(c) + Size(c) <= |column|
      && KeySize * n + ScanOffset(c, f) + Size(c) <= |buf|
      && Chunk(column, Size(c), i)
         == buf[KeySize * n + ScanOffset(c, f) .. KeySize * n + ScanOffset(c, f) + Size(c)]
  {
    ColumnChunk(w, f, vertexSize, c, i);
    KeyComponent(buf, n, c, f);
  }

  /** On a buffer of `count` keys, component `c` of key `n` is the chunk
      of the welded column of `c` that the key's weld index points at. */
  lemma WeldedColumnRecoversKey(buf: seq<Float>, count: nat, f: Flags, vertexSize: nat, c: Component, n: nat)
    requires KeySize * count <= |buf| && count <= 0x1_0000 && n < count
    requires CalcVertexSize(f) <= KeySize && Enabled(c, f)
    ensures HoldStride(WeldVertices(buf, count), f)
    ensures var i := WeldIndices(buf, count)[n];
      var column := Column(ConvertArrayOfStructsToStructOfArrays(WeldVertices(buf, count), f, vertexSize), c);
      && i * Size(c) + Size(c) <= |column|
      && KeySize * n + ScanOffset(c, f) + Size(c) <= |buf|
      && Chunk(column, Size(c), i)
         == buf[KeySize * n + ScanOffset(c, f) .. KeySize * n + ScanOffset(c, f) + Size(c)]
  {
    KeysHoldStride(buf, count, f);
    WeldRecovers(buf, count, n);
    assert KeySize * n + KeySize <= |buf| by {
      ChunkFits(n, count, KeySize);
      assert n * KeySize == KeySize * n && count * KeySize == KeySize * count;
    }
    KeyColumnChunk(buf, n, WeldVertices(buf, count), WeldIndices(buf, count)[n], f, vertexSize, c);
  }

  /** Component `c` of original vertex `n` is the chunk of the welded
      column of `c` that the vertex's weld index points at. */
  lemma WeldedColumnRecovers(m: Mesh, c: Component, n: nat)
    requires Writable(m, true, true) && m.numVertices <= 0x1_0000 && n < m.numVertices
    requires Enabled(c, m.flags)
    ensures var i := WeldIndices(m.vertices, m.numVertices)[n];
      var column := Column(WeldedColumns(m), c);
      && i * Size(c) + Size(c) <= |column|
      && KeySize * n + ScanOffset(c, m.flags) + Size(c) <= |m.vertices|
      && Chunk(column, Size(c), i)
         == m.vertices[KeySize * n + ScanOffset(c, m.flags) .. KeySize * n + ScanOffset(c, m.flags) + Size(c)]
  {
    WeldedColumnRecoversKey(m.vertices, m.numVertices, m.flags, m.vertexSize, c, n);
  }

  /** Reading an optimized struct-of-arrays object with the writer's slot
      tests fills the slot of every enabled component with its welded
      column, whose chunks `WeldedColumnRecovers` traces back to the
      original vertices. */
  lemma WeldedSlot(m: Mesh, k: nat)
    requires Writable(m, true, true) && k < ComponentCount && Enabled(Canonical[k], m.flags)
    ensures Gated(WeldedBlocks(m), WriterGates(m.flags))[k] == Some(Column(WeldedColumns(m), Canonical[k]))
  {
    WeldedBlock(m, k);
  }

  /** Block `k` fits slot `k` of the corrected reader: `Size` floats per
      welded vertex when the component is enabled, none otherwise. */
  lemma WeldedBlockFits(m: Mesh, k: nat)
    requires Writable(m, true, true) && m.numVertices <= 0x1_0000 && k < ComponentCount
    ensures var counts := SlotCounts(OptimizedHeader(m, true).vertexCount);
      if WriterGates(m.flags)[k] then |WeldedBlocks(m)[k]| == counts[k] else WeldedBlocks(m)[k] == []
  {
    var w := WeldVertices(m.vertices, m.numVertices);
    var c := Canonical[k];
    WeldedBlock(m, k);
    if Enabled(c, m.flags) {
      OptimizedHeaderCounts(m, true);
      WeldedHoldStride(m);
      FlattenUniformLength(Parts(w, c, m.flags), Size(c));
      SlotSizesAreSizes(k);
      SizeAtMostFour(c);
      SmallCountNoWrap(Size(c), |w|);
    }
  }

  /** No component holds more than four floats. */
  lemma SizeAtMostFour(c: Component)
    ensures Size(c) <= 4
  {
  }

  /** At most four floats for each of at most 2^16 vertices stay below
      2^32. */
  lemma SmallCountNoWrap(size: nat, count: nat)
    requires size <= 4 && count <= 0x1_0000
    ensures ToU32(size * count) == count * size
  {
    MulMonotone(size, 4, count);
    MulMonotone(count, 0x1_0000, 4);
    NoWrap32(size * count);
  }

  /** The welded blocks fit the slots the corrected reader reads for the
      optimized header. */
  lemma WeldedBlocksFitSlots(m: Mesh)
    requires Writable(m, true, true) && m.numVertices <= 0x1_0000
    ensures BlocksFit(WeldedBlocks(m), WriterGates(m.flags), SlotCounts(OptimizedHeader(m, true).vertexCount))
  {
    var counts := SlotCounts(OptimizedHeader(m, true).vertexCount);
    forall k | 0 <= k < ComponentCount
      ensures if WriterGates(m.flags)[k] then |WeldedBlocks(m)[k]| == counts[k]
              else WeldedBlocks(m)[k] == []
    {
      WeldedBlockFits(m, k);
    }
    BlocksFitEach(WeldedBlocks(m), WriterGates(m.flags), counts);
  }

  /** After its header, an optimized struct-of-arrays object read with the
      slot tests the writer's layout calls for gives slot `k` the welded
      column of component `k` when it is enabled and null otherwise, then
      the weld's indices, and the read ends where the object ends. */
  lemma OptimizedStructOfArraysReadBack(s: Stream, m: Mesh)
    requires Writable(m, true, true) && m.numVertices <= 0x1_0000
    requires At(s, OptimizedData(m, true))
    ensures ReadsSlotsAndIndices(s, OptimizedHeader(m, true), WriterGates(m.flags),
                                 Gated(WeldedBlocks(m), WriterGates(m.flags)),
                                 WeldIndices(m.vertices, m.numVertices), |OptimizedData(m, true)|)
  {
    var h := OptimizedHeader(m, true);
    var indices := WeldIndices(m.vertices, m.numVertices);
    OptimizedHeaderCounts(m, true);
    WeldedBlocksFitSlots(m);
    assert OptimizedData(m, true) == EncodeFloats(Flatten(WeldedBlocks(m))) + EncodeIndices(indices);
    SlotsAndIndicesReadBack(s, h, WriterGates(m.flags), WeldedBlocks(m), indices);
  }
}
