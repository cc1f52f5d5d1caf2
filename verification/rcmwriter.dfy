/** The writer: object and file headers, the weld, the struct-of-arrays
    transcoding and the bytes `writeObject` and `writeFile` put on the
    output stream. A stream is modelled by the bytes written to it. */
module RcmWriter {
  import opened Types
  import opened Wire
  import opened Rcm
  import opened RcmInternal
  import opened Weld
  import opened Headers

  /** `struct Mesh` without its name: `vertices` is the interleaved vertex
      buffer (`vertexSize` floats per vertex), `indices` the index list. */
  datatype Mesh = Mesh(
    flags: Flags,
    numVertices: u32, numIndices: u32, numBones: u32,
    numColors: u32, numTexCoords: u32,
    vertexSize: nat,
    vertices: seq<Float>, indices: seq<Index>)
  {
    /** The length of the interleaved buffer the counts describe. */
    function FloatCount(): nat
    {
      numVertices * vertexSize
    }
  }

  // ---------------------------------------------------------------- headers

  /** `createFileHeader`: the magic number, version 0.1 and the object count
      cut to its byte. */
  function CreateFileHeader(numObjects: u32): (r: FileHeader)
    ensures EncodeFileHeader(r)[..2] == [MagicNumber0, MagicNumber1]
    ensures r.versionMajor == FileFormatVersionMajor && r.versionMinor == FileFormatVersionMinor
    ensures r.objectCount == numObjects % 0x100 && r.unused == 0
  {
    FileHeader(MagicNumber0, MagicNumber1, FileFormatVersionMajor, FileFormatVersionMinor,
               ToU8(numObjects), 0)
  }

  /** `createObjectHeader`: type 1 for struct-of-arrays, 2 otherwise; the
      remaining arguments are stored as given. */
  function CreateObjectHeader(vertexFlags: Flags, vertexCount: u32, indexCount: u32,
                              boneCount: u32, vertexSize: byte, useStructOfArrays: bool): (r: ObjectHeader)
    ensures r.objectType == StructOfArrays <==> useStructOfArrays
    ensures r.objectType == ArrayOfStructs <==> !useStructOfArrays
    ensures r.vertexFlags == vertexFlags && r.vertexSize == vertexSize
    ensures r.vertexCount == vertexCount && r.indexCount == indexCount && r.boneCount == boneCount
  {
    ObjectHeader(if useStructOfArrays then StructOfArrays else ArrayOfStructs,
                 vertexSize, vertexFlags, vertexCount, indexCount, boneCount)
  }

  // ------------------------------------------------ array of structs to columns

  /** Component `k` in canonical order has rank `k`, and when it is enabled
      a scan standing at it reads inside the stride. */
  lemma ScanStep(k: nat, f: Flags)
    requires k < ComponentCount
    ensures Rank(Canonical[k]) == k
    ensures Enabled(Canonical[k], f) ==> SizeBefore(k, f) + Size(Canonical[k]) <= CalcVertexSize(f)
  {
    SizeBeforeSplit(k + 1, ComponentCount, f);
  }

  /** The floats of component `c` inside one vertex, at the position a scan
      of the enabled components in canonical order gives it; none when the
      component is disabled. */
  function Part(v: Vertex, c: Component, f: Flags): (r: seq<Float>)
    requires CalcVertexSize(f) <= |v.values|
    ensures |r| == Contribution(c, f)
  {
    if Enabled(c, f) then
      ComponentInsideStride(c, f);
      v.values[ScanOffset(c, f) .. ScanOffset(c, f) + Size(c)]
    else
      []
  }

  /** Every vertex holds at least one stride of floats. */
  predicate HoldStride(vertices: seq<Vertex>, f: Flags)
  {
    forall i :: 0 <= i < |vertices| ==> CalcVertexSize(f) <= |vertices[i].values|
  }

  /** The part of component `c` of every vertex, in vertex order. */
  function Parts(vertices: seq<Vertex>, c: Component, f: Flags): (r: seq<seq<Float>>)
    requires HoldStride(vertices, f)
    ensures |r| == |vertices| && Uniform(r, Contribution(c, f))
  {
    seq(|vertices|, i requires 0 <= i < |vertices| => Part(vertices[i], c, f))
  }

  /** One component of the loop body: an enabled component's floats at
      the read position are pushed onto its column, and nothing else moves. */
  function ScanComponent(d: ObjectData, v: Vertex, k: nat, index: nat): (r: ObjectData)
    requires k < ComponentCount && CalcVertexSize(d.vertexFlags) <= |v.values|
    requires index == SizeBefore(k, d.vertexFlags)
    ensures r.vertexFlags == d.vertexFlags
    ensures forall c :: Column(r, c) == Column(d, c) + (if Rank(c) == k then Part(v, c, d.vertexFlags) else [])
  {
    var c := Canonical[k];
    ScanStep(k, d.vertexFlags);
    if Enabled(c, d.vertexFlags) then
      Push(d, c, v.values[index .. index + Size(c)])
    else
      d
  }

  /** Pushing component `k` and then the components after it is pushing
      the components from `k` on. */
  lemma ScanCombine(d: ObjectData, e: ObjectData, r: ObjectData, v: Vertex, k: nat)
    requires CalcVertexSize(d.vertexFlags) <= |v.values|
    requires forall c :: Column(e, c) == Column(d, c) + (if Rank(c) == k then Part(v, c, d.vertexFlags) else [])
    requires forall c :: Column(r, c) == Column(e, c) + (if k + 1 <= Rank(c) then Part(v, c, d.vertexFlags) else [])
    ensures forall c :: Column(r, c) == Column(d, c) + (if k <= Rank(c) then Part(v, c, d.vertexFlags) else [])
  {
    forall c ensures Column(r, c) == Column(d, c) + (if k <= Rank(c) then Part(v, c, d.vertexFlags) else []) {
      if Rank(c) == k {
        assert Column(r, c) == Column(e, c);
      } else {
        assert Column(e, c) == Column(d, c);
      }
    }
  }

  /** One pass of the loop body over vertex `v`, from canonical component
      `k` on, with the read position `index` where the scan stands. */
  function ScanVertex(d: ObjectData, v: Vertex, k: nat, index: nat): (r: ObjectData)
    requires k <= ComponentCount && CalcVertexSize(d.vertexFlags) <= |v.values|
    requires index == SizeBefore(k, d.vertexFlags)
    ensures r.vertexFlags == d.vertexFlags
    ensures forall c :: Column(r, c) == Column(d, c) + (if k <= Rank(c) then Part(v, c, d.vertexFlags) else [])
    decreases ComponentCount - k
  {
    if k == ComponentCount then
      d
    else
      var e := ScanComponent(d, v, k, index);
      var r := ScanVertex(e, v, k + 1, index + Contribution(Canonical[k], d.vertexFlags));
      ScanCombine(d, e, r, v, k);
      r
  }

  /** Appending one vertex extends the part lists by its parts. */
  lemma PartsSnoc(vertices: seq<Vertex>, f: Flags, c: Component)
    requires |vertices| > 0 && HoldStride(vertices, f)
    ensures HoldStride(vertices[..|vertices| - 1], f)
    ensures Flatten(Parts(vertices, c, f))
         == Flatten(Parts(vertices[..|vertices| - 1], c, f)) + Part(vertices[|vertices| - 1], c, f)
  {
    var n := |vertices| - 1;
    assert Parts(vertices, c, f) == Parts(vertices[..n], c, f) + [Part(vertices[n], c, f)];
    FlattenAppend(Parts(vertices[..n], c, f), [Part(vertices[n], c, f)]);
  }

  /** `convertArrayOfStructsToStructOfArrays`: for every vertex, each
      enabled component is pushed onto its column in canonical order. Each
      column is the parts of that component, vertex after vertex; a
      disabled component's column stays empty. */
  function ConvertArrayOfStructsToStructOfArrays(vertices: seq<Vertex>, vertexFlags: Flags,
                                                 vertexSize: nat): (d: ObjectData)
    requires HoldStride(vertices, vertexFlags)
    ensures d.vertexFlags == vertexFlags
    ensures forall c :: Column(d, c) == Flatten(Parts(vertices, c, vertexFlags))
  {
    if vertices == [] then
      EmptyObjectData(vertexFlags)
    else
      var n := |vertices| - 1;
      var d := ConvertArrayOfStructsToStructOfArrays(vertices[..n], vertexFlags, vertexSize);
      var r := ScanVertex(d, vertices[n], 0, 0);
      assert forall c :: Column(r, c) == Flatten(Parts(vertices, c, vertexFlags)) by {
        forall c ensures Column(r, c) == Flatten(Parts(vertices, c, vertexFlags)) {
          PartsSnoc(vertices, vertexFlags, c);
        }
      }
      r
  }

  /** Element `j` of an enabled component's column is that component of
      vertex `j`, taken at its scan position. */
  lemma ColumnChunk(vertices: seq<Vertex>, f: Flags, vertexSize: nat, c: Component, j: nat)
    requires HoldStride(vertices, f)
    requires Enabled(c, f) && j < |vertices|
    ensures var column := Column(ConvertArrayOfStructsToStructOfArrays(vertices, f, vertexSize), c);
      j * Size(c) + Size(c) <= |column|
      && ScanOffset(c, f) + Size(c) <= |vertices[j].values|
      && Chunk(column, Size(c), j) == vertices[j].values[ScanOffset(c, f) .. ScanOffset(c, f) + Size(c)]
  {
    var parts := Parts(vertices, c, f);
    var column := Column(ConvertArrayOfStructsToStructOfArrays(vertices, f, vertexSize), c);
    assert column == Flatten(parts);
    assert Contribution(c, f) == Size(c);
    FlattenUniformChunk(parts, Size(c), j);
    ComponentInsideStride(c, f);
    assert parts[j] == Part(vertices[j], c, f);
  }

  /** A disabled component's column is empty. */
  lemma DisabledColumnEmpty(vertices: seq<Vertex>, f: Flags, vertexSize: nat, c: Component)
    requires HoldStride(vertices, f)
    requires !Enabled(c, f)
    ensures Column(ConvertArrayOfStructsToStructOfArrays(vertices, f, vertexSize), c) == []
  {
    FlattenUniformLength(Parts(vertices, c, f), 0);
  }

  // ------------------------------------------------------------ data blocks

  /** Encoding the lists from `k` on is encoding list `k`, then the rest. */
  lemma EncodeFlattenFrom(bs: seq<seq<Float>>, k: nat)
    requires k < |bs|
    ensures EncodeFloats(Flatten(bs[k..])) == EncodeFloats(bs[k]) + EncodeFloats(Flatten(bs[k + 1..]))
  {
    assert bs[k..][0] == bs[k];
    assert bs[k..][1..] == bs[k + 1..];
    EncodeFloatsAppend(bs[k], Flatten(bs[k + 1..]));
  }

  /** The first `size` floats of every vertex, in order. */
  function Heads(vertices: seq<Vertex>, size: nat): (r: seq<seq<Float>>)
    requires forall n :: 0 <= n < |vertices| ==> size <= |vertices[n].values|
    ensures |r| == |vertices| && Uniform(r, size)
  {
    seq(|vertices|, n requires 0 <= n < |vertices| => vertices[n].values[..size])
  }

  /** One more vertex adds its head to the encoded heads. */
  lemma HeadsSnoc(vertices: seq<Vertex>, size: nat)
    requires forall n :: 0 <= n < |vertices| ==> size <= |vertices[n].values|
    requires vertices != []
    ensures var n := |vertices| - 1;
      EncodeFloats(Flatten(Heads(vertices, size)))
      == EncodeFloats(Flatten(Heads(vertices[..n], size))) + EncodeFloats(vertices[n].values[..size])
  {
    var n := |vertices| - 1;
    var head := vertices[n].values[..size];
    var before := Heads(vertices[..n], size);
    assert Heads(vertices, size) == before + [head];
    FlattenAppend(before, [head]);
    assert Flatten([head]) == head + Flatten([]);
    assert Flatten([head]) == head;
    assert Flatten(Heads(vertices, size)) == Flatten(before) + head;
    EncodeFloatsAppend(Flatten(before), head);
  }

  /** The loop of `writeArrayOfStructsData`: `size` floats of each vertex's
      array, vertex after vertex. */
  function WriteVertexArrays(vertices: seq<Vertex>, size: nat): (r: seq<byte>)
    requires forall n :: 0 <= n < |vertices| ==> size <= |vertices[n].values|
    ensures r == EncodeFloats(Flatten(Heads(vertices, size)))
  {
    if vertices == [] then
      []
    else
      var n := |vertices| - 1;
      var r := WriteVertexArrays(vertices[..n], size);
      HeadsSnoc(vertices, size);
      r + EncodeFloats(vertices[n].values[..size])
  }

  /** `writeArrayOfStructsData`: every vertex's array, each as long as the
      first vertex's `size` says. */
  function WriteArrayOfStructsData(vertices: seq<Vertex>): (r: seq<byte>)
    requires forall n :: 0 <= n < |vertices| ==> vertices[0].size <= |vertices[n].values|
    ensures vertices == [] ==> r == []
    ensures vertices != [] ==> r == EncodeFloats(Flatten(Heads(vertices, vertices[0].size)))
  {
    if vertices == [] then [] else WriteVertexArrays(vertices, vertices[0].size)
  }

  /** Decoding the written data gives back vertex `n`'s first `size`
      floats as the `n`-th run of `size` floats. */
  lemma ArrayOfStructsChunk(vertices: seq<Vertex>, n: nat)
    requires forall m :: 0 <= m < |vertices| ==> vertices[0].size <= |vertices[m].values|
    requires n < |vertices|
    ensures var floats := DecodeFloats(WriteArrayOfStructsData(vertices));
      var size := vertices[0].size;
      n * size + size <= |floats| && Chunk(floats, size, n) == vertices[n].values[..size]
  {
    var size := vertices[0].size;
    var heads := Heads(vertices, size);
    FloatsRoundTrip(Flatten(heads));
    FlattenUniformChunk(heads, size, n);
  }

  /** The twelve blocks `writeStructOfArraysData` emits, in canonical
      order: the position column always, every other column when its
      component is enabled. */
  function SoaBlocks(d: ObjectData): (r: seq<seq<Float>>)
    ensures |r| == ComponentCount
  {
    seq(ComponentCount, k requires 0 <= k < ComponentCount =>
      if k == 0 || Enabled(Canonical[k], d.vertexFlags) then Column(d, Canonical[k]) else [])
  }

  /** The writer's test of one column's flag: the column, or nothing. */
  function WriteColumn(d: ObjectData, c: Component): seq<byte>
  {
    if Enabled(c, d.vertexFlags) then EncodeFloats(Column(d, c)) else []
  }

  /** Block `k`, encoded, is what the writer emits for component `k`. */
  lemma SoaBlockEncoded(d: ObjectData, k: nat)
    requires 0 < k < ComponentCount
    ensures EncodeFloats(SoaBlocks(d)[k]) == WriteColumn(d, Canonical[k])
  {
    assert EncodeFloats([]) == [];
  }

  /** The columns `writeStructOfArraysData` writes from canonical slot `k`
      on: the position column unconditionally, then each column whose flag
      is set; tangents and bitangents share one flag, so its single test
      writes both. */
  function WriteColumnsFrom(d: ObjectData, k: nat): seq<byte>
    requires k <= ComponentCount
    decreases ComponentCount - k
  {
    if k == ComponentCount then []
    else (if k == 0 then EncodeFloats(d.position) else WriteColumn(d, Canonical[k])) + WriteColumnsFrom(d, k + 1)
  }

  /** From slot `k` on, the writer emits the encoded blocks from `k` on. */
  lemma {:induction false} ColumnsFromAreBlocks(d: ObjectData, k: nat)
    requires k <= ComponentCount
    ensures WriteColumnsFrom(d, k) == EncodeFloats(Flatten(SoaBlocks(d)[k..]))
    decreases ComponentCount - k
  {
    var bs := SoaBlocks(d);
    if k == ComponentCount {
      assert bs[k..] == [];
    } else {
      ColumnsFromAreBlocks(d, k + 1);
      EncodeFlattenFrom(bs, k);
      if k == 0 {
        assert bs[0] == d.position;
      } else {
        SoaBlockEncoded(d, k);
      }
    }
  }

  /** `writeStructOfArraysData`: the twelve blocks in canonical order. */
  function WriteStructOfArraysData(d: ObjectData): (r: seq<byte>)
    ensures r == EncodeFloats(Flatten(SoaBlocks(d)))
  {
    ColumnsFromAreBlocks(d, 0);
    assert SoaBlocks(d)[0..] == SoaBlocks(d);
    WriteColumnsFrom(d, 0)
  }

  // ---------------------------------------------------------- element arrays

  /** Every read of the `writeElementArray` loop from position `i` on stays
      inside the buffer, and the loop advances. */
  predicate SlicesFit(buf: seq<Float>, limit: nat, stride: nat, i: nat, size: nat)
    decreases limit - i
  {
    i < limit ==> stride > 0 && i + size <= |buf| && SlicesFit(buf, limit, stride, i + stride, size)
  }

  /** The loop of `writeElementArray` from position `i`: `size` floats at
      `i`, `i + stride`, ... for every position below `limit`. */
  function ElementRun(buf: seq<Float>, limit: nat, stride: nat, i: nat, size: nat): seq<Float>
    requires SlicesFit(buf, limit, stride, i, size)
    decreases limit - i
  {
    if i < limit then buf[i .. i + size] + ElementRun(buf, limit, stride, i + stride, size) else []
  }

  /** The `size` floats at `offset` inside stride `j` of the buffer. */
  function StrideElement(buf: seq<Float>, stride: nat, offset: nat, size: nat, count: nat, j: nat): (r: seq<Float>)
    requires offset + size <= stride && count * stride <= |buf| && j < count
    ensures |r| == size
  {
    ChunkFits(j, count, stride);
    buf[j * stride + offset .. j * stride + offset + size]
  }

  /** Reference layout: the element at `offset` of each of the first
      `count` strides of the buffer. */
  function Strided(buf: seq<Float>, stride: nat, offset: nat, size: nat, count: nat): (r: seq<seq<Float>>)
    requires offset + size <= stride && count * stride <= |buf|
    ensures |r| == count && Uniform(r, size)
  {
    seq(count, j requires 0 <= j < count => StrideElement(buf, stride, offset, size, count, j))
  }

  /** When the element lies inside the stride, the loop started at vertex
      `j` writes the element of every vertex from `j` on. */
  lemma {:induction false} ElementRunStrided(buf: seq<Float>, count: nat, stride: nat, offset: nat,
                                             size: nat, j: nat)
    requires offset + size <= stride && count * stride <= |buf| && j <= count
    ensures SlicesFit(buf, count * stride, stride, j * stride + offset, size)
    ensures ElementRun(buf, count * stride, stride, j * stride + offset, size)
         == Flatten(Strided(buf, stride, offset, size, count)[j..])
    decreases count - j
  {
    var s := Strided(buf, stride, offset, size, count);
    if j < count {
      ChunkFits(j, count, stride);
      assert (j + 1) * stride + offset == j * stride + offset + stride;
      ElementRunStrided(buf, count, stride, offset, size, j + 1);
      assert s[j..][0] == s[j];
      assert s[j..][1..] == s[j + 1..];
      if stride == 0 {
        assert s[j] == [];
      }
    } else {
      assert s[j..] == [];
    }
  }

  /** `writeElementArray`: the loop from `offset` up to
      `numVertices * vertexSize` in steps of `vertexSize`. When the element
      lies inside the stride and the buffer holds every vertex, it writes
      that element of every vertex, in vertex order. */
  function WriteElementArray(mesh: Mesh, offset: nat, elementSize: nat): (r: seq<byte>)
    requires SlicesFit(mesh.vertices, mesh.FloatCount(), mesh.vertexSize, offset, elementSize)
    ensures offset + elementSize <= mesh.vertexSize && mesh.FloatCount() <= |mesh.vertices| ==>
      r == EncodeFloats(Flatten(Strided(mesh.vertices, mesh.vertexSize, offset, elementSize, mesh.numVertices)))
  {
    var run := ElementRun(mesh.vertices, mesh.FloatCount(), mesh.vertexSize, offset, elementSize);
    var strided := if offset + elementSize <= mesh.vertexSize && mesh.FloatCount() <= |mesh.vertices|
                   then Strided(mesh.vertices, mesh.vertexSize, offset, elementSize, mesh.numVertices)
                   else [];
    assert offset + elementSize <= mesh.vertexSize && mesh.FloatCount() <= |mesh.vertices| ==>
      run == Flatten(strided) by {
      if offset + elementSize <= mesh.vertexSize && mesh.FloatCount() <= |mesh.vertices| {
        ElementRunStrided(mesh.vertices, mesh.numVertices, mesh.vertexSize, offset, elementSize, 0);
        assert strided[0..] == strided;
      }
    }
    EncodeFloats(run)
  }

  // ------------------------------------------------------------------ objects

  /** Every element array the unoptimized struct-of-arrays branch writes
      is read from inside the buffer. */
  predicate ElementsFit(mesh: Mesh)
  {
    forall c :: Enabled(c, mesh.flags) ==>
      SlicesFit(mesh.vertices, mesh.FloatCount(), mesh.vertexSize, Offset(c, mesh.flags), Size(c))
  }

  /** The element array of one component: its elements at the offset the
      `*Offset` function gives, stride after stride; nothing when the
      component is disabled. */
  function ComponentRun(mesh: Mesh, c: Component): seq<Float>
    requires ElementsFit(mesh)
  {
    if Enabled(c, mesh.flags) then
      ElementRun(mesh.vertices, mesh.FloatCount(), mesh.vertexSize, Offset(c, mesh.flags), Size(c))
    else []
  }

  /** The element arrays of that branch, one block per component in
      canonical order, empty for a disabled component. */
  function ElementBlocks(mesh: Mesh): (r: seq<seq<Float>>)
    requires ElementsFit(mesh)
    ensures |r| == ComponentCount
  {
    seq(ComponentCount, k requires 0 <= k < ComponentCount => ComponentRun(mesh, Canonical[k]))
  }

  /** The branch's test of one component's flag: its element array at
      the offset the `*Offset` function of that component gives, or
      nothing. Tangents and bitangents share a flag, so the branch's
      single test writes both. */
  function WriteComponentArray(mesh: Mesh, c: Component): seq<byte>
    requires ElementsFit(mesh)
  {
    if Enabled(c, mesh.flags) then WriteElementArray(mesh, Offset(c, mesh.flags), Size(c)) else []
  }

  /** Block `k`, encoded, is the array written for component `k`. */
  lemma ElementBlockEncoded(mesh: Mesh, k: nat)
    requires ElementsFit(mesh) && k < ComponentCount
    ensures EncodeFloats(ElementBlocks(mesh)[k]) == WriteComponentArray(mesh, Canonical[k])
  {
    assert EncodeFloats([]) == [];
  }

  /** The arrays the unoptimized struct-of-arrays branch writes from
      canonical slot `k` on. */
  function WriteComponentArraysFrom(mesh: Mesh, k: nat): seq<byte>
    requires ElementsFit(mesh) && k <= ComponentCount
    decreases ComponentCount - k
  {
    if k == ComponentCount then []
    else WriteComponentArray(mesh, Canonical[k]) + WriteComponentArraysFrom(mesh, k + 1)
  }

  /** From slot `k` on, the branch emits the encoded blocks from `k` on. */
  lemma {:induction false} ComponentArraysFromAreBlocks(mesh: Mesh, k: nat)
    requires ElementsFit(mesh) && k <= ComponentCount
    ensures WriteComponentArraysFrom(mesh, k) == EncodeFloats(Flatten(ElementBlocks(mesh)[k..]))
    decreases ComponentCount - k
  {
    var bs := ElementBlocks(mesh);
    if k == ComponentCount {
      assert bs[k..] == [];
    } else {
      ComponentArraysFromAreBlocks(mesh, k + 1);
      EncodeFlattenFrom(bs, k);
      ElementBlockEncoded(mesh, k);
    }
  }

  /** The unoptimized struct-of-arrays branch: the arrays of the enabled
      components in canonical order. */
  function WriteElementArrays(mesh: Mesh): (r: seq<byte>)
    requires ElementsFit(mesh)
    ensures r == EncodeFloats(Flatten(ElementBlocks(mesh)))
  {
    ComponentArraysFromAreBlocks(mesh, 0);
    assert ElementBlocks(mesh)[0..] == ElementBlocks(mesh);
    WriteComponentArraysFrom(mesh, 0)
  }

  /** What `writeObject` needs of a mesh so that every read stays inside
      its buffers: the weld copies eight floats per vertex and the
      transcoding reads a stride from each welded vertex; the unoptimized
      branch reads the element arrays or the whole vertex block, and the
      first `numIndices` indices. */
  predicate Writable(mesh: Mesh, doOptimize: bool, useStructOfArrays: bool)
  {
    if doOptimize then
      && mesh.vertexSize == KeySize
      && KeySize * mesh.numVertices <= |mesh.vertices|
      && (useStructOfArrays ==> CalcVertexSize(mesh.flags) <= KeySize)
    else
      && mesh.numIndices <= |mesh.indices|
      && (useStructOfArrays ==> ElementsFit(mesh))
      && (!useStructOfArrays ==> mesh.FloatCount() <= |mesh.vertices|)
  }

  /** The header of the optimized branch: the welded vertex count and one
      index per original vertex. */
  function OptimizedHeader(mesh: Mesh, useStructOfArrays: bool): ObjectHeader
    requires Writable(mesh, true, useStructOfArrays)
  {
    CreateObjectHeader(mesh.flags, ToU32(|WeldVertices(mesh.vertices, mesh.numVertices)|),
                       ToU32(|WeldIndices(mesh.vertices, mesh.numVertices)|),
                       mesh.numBones, ToU8(mesh.vertexSize), useStructOfArrays)
  }

  /** The welded vertices in the array-of-structs layout. */
  function WeldedArrayOfStructs(mesh: Mesh): seq<byte>
    requires Writable(mesh, true, false)
  {
    WeldedAreKeys(mesh.vertices, mesh.numVertices);
    WriteArrayOfStructsData(WeldVertices(mesh.vertices, mesh.numVertices))
  }

  /** The welded vertices transcoded to columns. */
  function WeldedColumns(mesh: Mesh): ObjectData
    requires Writable(mesh, true, true)
  {
    WeldedAreKeys(mesh.vertices, mesh.numVertices);
    ConvertArrayOfStructsToStructOfArrays(WeldVertices(mesh.vertices, mesh.numVertices), mesh.flags, mesh.vertexSize)
  }

  /** What the optimized branch writes after its header: the welded
      vertices in the chosen layout, then the weld's index list. */
  function OptimizedData(mesh: Mesh, useStructOfArrays: bool): seq<byte>
    requires Writable(mesh, true, useStructOfArrays)
  {
    (if useStructOfArrays then WriteStructOfArraysData(WeldedColumns(mesh)) else WeldedArrayOfStructs(mesh))
    + EncodeIndices(WeldIndices(mesh.vertices, mesh.numVertices))
  }

  /** The header of the unoptimized branch: the mesh's own counts. */
  function UnoptimizedHeader(mesh: Mesh, useStructOfArrays: bool): ObjectHeader
  {
    CreateObjectHeader(mesh.flags, mesh.numVertices, mesh.numIndices,
                       mesh.numBones, ToU8(mesh.vertexSize), useStructOfArrays)
  }

  /** What the unoptimized branch writes after its header: the element
      arrays or the raw vertex block, then `numIndices` indices. */
  function UnoptimizedData(mesh: Mesh, useStructOfArrays: bool): seq<byte>
    requires Writable(mesh, false, useStructOfArrays)
  {
    (if useStructOfArrays then WriteElementArrays(mesh)
     else EncodeFloats(mesh.vertices[..mesh.FloatCount()]))
    + EncodeIndices(mesh.indices[..mesh.numIndices])
  }

  /** The object the branch chosen by `doOptimize` writes. */
  function ObjectBytes(m: Mesh, doOptimize: bool, useStructOfArrays: bool): seq<byte>
    requires Writable(m, doOptimize, useStructOfArrays)
  {
    if doOptimize then EncodeObjectHeader(OptimizedHeader(m, useStructOfArrays)) + OptimizedData(m, useStructOfArrays)
    else EncodeObjectHeader(UnoptimizedHeader(m, useStructOfArrays)) + UnoptimizedData(m, useStructOfArrays)
  }

  /** `writeObject`: nothing for a null mesh (the call reports failure),
      otherwise one object whose header carries the layout type, the
      mesh's flags and bone count and its stride cut to a byte. */
  function WriteObject(mesh: Option<Mesh>, doOptimize: bool, useStructOfArrays: bool): (r: Option<seq<byte>>)
    requires mesh.Some? ==> Writable(mesh.value, doOptimize, useStructOfArrays)
    ensures r.Some? <==> mesh.Some?
    ensures r.Some? ==> ObjectHeaderSize <= |r.value|
    ensures r.Some? ==> var h := DecodeObjectHeader(r.value[..ObjectHeaderSize]);
      && h.objectType == (if useStructOfArrays then StructOfArrays else ArrayOfStructs)
      && h.vertexFlags == mesh.value.flags && h.boneCount == mesh.value.numBones
      && h.vertexSize == mesh.value.vertexSize % 0x100
  {
    match mesh
    case None => None
    case Some(m) =>
      ObjectHeaderPrefix(m, doOptimize, useStructOfArrays);
      Some(ObjectBytes(m, doOptimize, useStructOfArrays))
  }

  /** Both branches begin with the header built from the mesh's flags,
      bone count and stride. */
  lemma ObjectHeaderPrefix(m: Mesh, doOptimize: bool, useStructOfArrays: bool)
    requires Writable(m, doOptimize, useStructOfArrays)
    ensures var bytes := ObjectBytes(m, doOptimize, useStructOfArrays);
      ObjectHeaderSize <= |bytes|
      && var h := DecodeObjectHeader(bytes[..ObjectHeaderSize]);
      && h.objectType == (if useStructOfArrays then StructOfArrays else ArrayOfStructs)
      && h.vertexFlags == m.flags && h.boneCount == m.numBones
      && h.vertexSize == m.vertexSize % 0x100
  {
    var header := if doOptimize then OptimizedHeader(m, useStructOfArrays) else UnoptimizedHeader(m, useStructOfArrays);
    var rest := if doOptimize then OptimizedData(m, useStructOfArrays) else UnoptimizedData(m, useStructOfArrays);
    assert ObjectBytes(m, doOptimize, useStructOfArrays) == EncodeObjectHeader(header) + rest;
    assert (EncodeObjectHeader(header) + rest)[..ObjectHeaderSize] == EncodeObjectHeader(header);
    ObjectHeaderRoundTrip(header);
  }

  predicate AllWritable(meshes: seq<Option<Mesh>>, doOptimize: bool, useStructOfArrays: bool)
  {
    forall i :: 0 <= i < |meshes| && meshes[i].Some? ==> Writable(meshes[i].value, doOptimize, useStructOfArrays)
  }

  /** The loop of `writeFile`: every mesh in turn, a null one adding nothing. */
  function WriteObjects(meshes: seq<Option<Mesh>>, doOptimize: bool, useStructOfArrays: bool): seq<byte>
    requires AllWritable(meshes, doOptimize, useStructOfArrays)
  {
    if meshes == [] then []
    else
      var n := |meshes| - 1;
      WriteObjects(meshes[..n], doOptimize, useStructOfArrays)
      + (match WriteObject(meshes[n], doOptimize, useStructOfArrays) case Some(b) => b case None => [])
  }

  /** The non-null meshes of the list, in order. */
  function NonNull(meshes: seq<Option<Mesh>>): (r: seq<Option<Mesh>>)
    ensures |r| <= |meshes|
    ensures forall i :: 0 <= i < |r| ==> r[i].Some? && r[i] in meshes
  {
    if meshes == [] then []
    else
      var n := |meshes| - 1;
      var r := NonNull(meshes[..n]) + (if meshes[n].Some? then [meshes[n]] else []);
      assert forall i :: 0 <= i < |r| ==> r[i] in meshes[..n] || r[i] == meshes[n];
      r
  }

  /** Dropping the null meshes keeps every mesh writable. */
  lemma NonNullWritable(meshes: seq<Option<Mesh>>, doOptimize: bool, useStructOfArrays: bool)
    requires AllWritable(meshes, doOptimize, useStructOfArrays)
    ensures AllWritable(NonNull(meshes), doOptimize, useStructOfArrays)
  {
    var p := NonNull(meshes);
    forall i | 0 <= i < |p| ensures Writable(p[i].value, doOptimize, useStructOfArrays) {
      var j :| 0 <= j < |meshes| && meshes[j] == p[i];
    }
  }

  /** So does dropping the last mesh. */
  lemma InitWritable(meshes: seq<Option<Mesh>>, doOptimize: bool, useStructOfArrays: bool)
    requires meshes != [] && AllWritable(meshes, doOptimize, useStructOfArrays)
    ensures AllWritable(meshes[..|meshes| - 1], doOptimize, useStructOfArrays)
  {
    var init := meshes[..|meshes| - 1];
    forall i | 0 <= i < |init| && init[i].Some?
      ensures Writable(init[i].value, doOptimize, useStructOfArrays)
    {
      assert init[i] == meshes[i];
    }
  }

  /** Each non-null mesh of the list writes at least its object header,
      and a list of null meshes writes nothing at all. */
  lemma {:induction false} ObjectsHoldHeaders(meshes: seq<Option<Mesh>>, doOptimize: bool, useStructOfArrays: bool)
    requires AllWritable(meshes, doOptimize, useStructOfArrays)
    ensures ObjectHeaderSize * |NonNull(meshes)| <= |WriteObjects(meshes, doOptimize, useStructOfArrays)|
    ensures NonNull(meshes) == [] ==> WriteObjects(meshes, doOptimize, useStructOfArrays) == []
  {
    if meshes != [] {
      var n := |meshes| - 1;
      InitWritable(meshes, doOptimize, useStructOfArrays);
      ObjectsHoldHeaders(meshes[..n], doOptimize, useStructOfArrays);
    }
  }

  /** A null mesh is reported and skipped: the file holds the objects of
      the other meshes, in order, as if it had not been in the list. */
  lemma {:induction false} NullMeshesSkipped(meshes: seq<Option<Mesh>>, doOptimize: bool, useStructOfArrays: bool)
    requires AllWritable(meshes, doOptimize, useStructOfArrays)
    ensures AllWritable(NonNull(meshes), doOptimize, useStructOfArrays)
    ensures WriteObjects(meshes, doOptimize, useStructOfArrays)
         == WriteObjects(NonNull(meshes), doOptimize, useStructOfArrays)
  {
    NonNullWritable(meshes, doOptimize, useStructOfArrays);
    if meshes != [] {
      var p := NonNull(meshes);
      var n := |meshes| - 1;
      var init := meshes[..n];
      InitWritable(meshes, doOptimize, useStructOfArrays);
      NullMeshesSkipped(init, doOptimize, useStructOfArrays);
      var q := NonNull(init);
      var last := match WriteObject(meshes[n], doOptimize, useStructOfArrays) case Some(b) => b case None => [];
      assert WriteObjects(meshes, doOptimize, useStructOfArrays)
          == WriteObjects(init, doOptimize, useStructOfArrays) + last;
      if meshes[n].Some? {
        assert p == q + [meshes[n]];
        assert p[..|q|] == q;
        assert WriteObjects(p, doOptimize, useStructOfArrays) == WriteObjects(q, doOptimize, useStructOfArrays) + last;
      } else {
        assert p == q;
      }
    }
  }

  /** `writeFile`: nothing when the file cannot be opened; otherwise the
      file header counting every mesh of the list, cut to a byte, then the
      objects. */
  function WriteFile(meshes: seq<Option<Mesh>>, canOpen: bool, doOptimize: bool, useStructOfArrays: bool)
    : (r: Option<seq<byte>>)
    requires AllWritable(meshes, doOptimize, useStructOfArrays)
    ensures r.Some? <==> canOpen
  {
    if !canOpen then None
    else Some(EncodeFileHeader(CreateFileHeader(ToU32(|meshes|))) + WriteObjects(meshes, doOptimize, useStructOfArrays))
  }
}
