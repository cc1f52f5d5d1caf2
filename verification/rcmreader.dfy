/** The reader: the file header with its size and magic checks, the object
    header, and the two data layouts. An input stream is the file's bytes,
    whether it is open, and the read position. */
module RcmReader {
  import opened Types
  import opened Wire
  import opened Rcm
  import opened Headers

  /** An `std::ifstream`: open or closed, the file's bytes, the position. */
  datatype Stream = Stream(open: bool, data: seq<byte>, pos: nat)

  /** At least `n` bytes remain after the position. */
  predicate Remains(s: Stream, n: nat)
  {
    s.pos + n <= |s.data|
  }

  /** `Bla`: the header it was read for, one float array per slot (a null
      pointer is `None`), and the index array. */
  datatype Bla = Bla(header: ObjectHeader, vertices: seq<Option<seq<Float>>>, indices: seq<Index>)

  /** `readFileHeader`: nothing from a closed stream; a file shorter than a
      header, or one whose first two bytes are not the magic number, is
      closed and gives nothing. Otherwise the header is the file's first six
      bytes, whatever the position was before. */
  function ReadFileHeader(s: Stream): (r: (Option<FileHeader>, Stream))
    ensures !s.open ==> r == (None, s)
    ensures r.0.Some? <==> s.open && FileHeaderSize <= |s.data|
                                  && s.data[0] == MagicNumber0 && s.data[1] == MagicNumber1
    ensures r.0.Some? ==> EncodeFileHeader(r.0.value) == s.data[..FileHeaderSize]
                          && r.1 == s.(pos := FileHeaderSize)
    ensures s.open && r.0.None? ==> !r.1.open
  {
    if !s.open then
      (None, s)
    else if |s.data| < FileHeaderSize then
      (None, s.(open := false))
    else
      var header := DecodeFileHeader(s.data[..FileHeaderSize]);
      FileHeaderBytesRoundTrip(s.data[..FileHeaderSize]);
      if header.magicNumber0 != MagicNumber0 || header.magicNumber1 != MagicNumber1 then
        (None, Stream(false, s.data, FileHeaderSize))
      else
        (Some(header), s.(pos := FileHeaderSize))
  }

  /** Two adjacent slices make one. */
  lemma SliceSplit(data: seq<byte>, a: nat, b: nat, c: nat)
    requires a <= b <= c <= |data|
    ensures data[a .. c] == data[a .. b] + data[b .. c]
  {
  }

  /** Two reads that follow each other took the bytes of one slice. */
  lemma JoinReads(data: seq<byte>, a: nat, b: nat, c: nat, x: seq<byte>, y: seq<byte>)
    requires a <= b <= c <= |data|
    requires x == data[a .. b] && y == data[b .. c]
    ensures x + y == data[a .. c]
  {
    SliceSplit(data, a, b, c);
  }

  /** `readObjectHeader`: nothing from a closed stream, otherwise the
      sixteen bytes at the position. */
  function ReadObjectHeader(s: Stream): (r: (Option<ObjectHeader>, Stream))
    requires s.open ==> Remains(s, ObjectHeaderSize)
    ensures r.0.Some? <==> s.open
    ensures !s.open ==> r.1 == s
    ensures s.open ==> EncodeObjectHeader(r.0.value) == s.data[s.pos .. s.pos + ObjectHeaderSize]
                       && r.1 == s.(pos := s.pos + ObjectHeaderSize)
  {
    if !s.open then
      (None, s)
    else
      var bytes := s.data[s.pos .. s.pos + ObjectHeaderSize];
      ObjectHeaderBytesRoundTrip(bytes);
      (Some(DecodeObjectHeader(bytes)), s.(pos := s.pos + ObjectHeaderSize))
  }

  /** `count` floats at the position. */
  function ReadFloats(s: Stream, count: nat): (r: (seq<Float>, Stream))
    requires Remains(s, FloatBytes(count))
    ensures |r.0| == count
    ensures EncodeFloats(r.0) == s.data[s.pos .. s.pos + FloatBytes(count)]
    ensures r.1 == s.(pos := s.pos + FloatBytes(count))
  {
    var bytes := s.data[s.pos .. s.pos + FloatBytes(count)];
    FloatsDecodeEncode(bytes, count);
    (DecodeFloats(bytes), s.(pos := s.pos + FloatBytes(count)))
  }

  /** `count` indices at the position. */
  function ReadIndices(s: Stream, count: nat): (r: (seq<Index>, Stream))
    requires Remains(s, IndexBytes(count))
    ensures |r.0| == count
    ensures EncodeIndices(r.0) == s.data[s.pos .. s.pos + IndexBytes(count)]
    ensures r.1 == s.(pos := s.pos + IndexBytes(count))
  {
    var bytes := s.data[s.pos .. s.pos + IndexBytes(count)];
    IndicesDecodeEncode(bytes, count);
    (DecodeIndices(bytes), s.(pos := s.pos + IndexBytes(count)))
  }

  /** `elementSize * vertexCount` as the `unsigned int` product the
      reader sizes its arrays with. */
  function ReadCount(elementSize: nat, vertexCount: u32): u32
  {
    ToU32(elementSize * vertexCount)
  }

  /** The float count of the array-of-structs block: the header's vertex
      count times the stride the flags give, as a 32-bit product. */
  function AosFloatCount(objectHeader: ObjectHeader): u32
  {
    ToU32(objectHeader.vertexCount * CalcVertexSize(objectHeader.vertexFlags))
  }

  /** One float block of `size` floats, then `indexCount` indices. */
  function ReadBlockAndIndices(s: Stream, size: nat, indexCount: nat): (r: (seq<Float>, seq<Index>, Stream))
    requires Remains(s, FloatBytes(size) + IndexBytes(indexCount))
    ensures |r.0| == size && |r.1| == indexCount
    ensures EncodeFloats(r.0) + EncodeIndices(r.1) == s.data[s.pos .. s.pos + FloatBytes(size) + IndexBytes(indexCount)]
    ensures r.2 == s.(pos := s.pos + FloatBytes(size) + IndexBytes(indexCount))
  {
    var a := ReadFloats(s, size);
    var b := ReadIndices(a.1, indexCount);
    JoinReads(s.data, s.pos, a.1.pos, b.1.pos, EncodeFloats(a.0), EncodeIndices(b.0));
    (a.0, b.0, b.1)
  }

  /** `readArrayOfStructs`: nothing from a closed stream; otherwise one
      float block of the size above, then `indexCount` indices. The
      header's own `vertexSize` byte is not consulted. */
  function ReadArrayOfStructs(s: Stream, objectHeader: ObjectHeader): (r: (Option<Bla>, Stream))
    requires s.open ==> Remains(s, FloatBytes(AosFloatCount(objectHeader)) + IndexBytes(objectHeader.indexCount))
    ensures r.0.Some? <==> s.open
    ensures !s.open ==> r.1 == s
    ensures r.0.Some? ==>
      var bla := r.0.value;
      var size := AosFloatCount(objectHeader);
      && bla.header == objectHeader
      && |bla.vertices| == 1 && bla.vertices[0].Some? && |bla.vertices[0].value| == size
      && |bla.indices| == objectHeader.indexCount
      && EncodeFloats(bla.vertices[0].value) + EncodeIndices(bla.indices)
         == s.data[s.pos .. s.pos + FloatBytes(size) + IndexBytes(objectHeader.indexCount)]
      && r.1 == s.(pos := s.pos + FloatBytes(size) + IndexBytes(objectHeader.indexCount))
  {
    if !s.open then
      (None, s)
    else
      var (floats, indices, s2) := ReadBlockAndIndices(s, AosFloatCount(objectHeader), objectHeader.indexCount);
      (Some(Bla(objectHeader, [Some(floats)], indices)), s2)
  }

  /** `readData`: `elementSize * vertexCount` floats, the product taken in
      32 bits. */
  function ReadData(s: Stream, elementSize: nat, vertexCount: u32): (r: (seq<Float>, Stream))
    requires Remains(s, FloatBytes(ReadCount(elementSize, vertexCount)))
    ensures |r.0| == ReadCount(elementSize, vertexCount)
    ensures r.1 == s.(pos := s.pos + FloatBytes(ReadCount(elementSize, vertexCount)))
    ensures EncodeFloats(r.0) == s.data[s.pos .. r.1.pos]
  {
    ReadFloats(s, ReadCount(elementSize, vertexCount))
  }

  /** The floats per vertex of the twelve struct-of-arrays slots. */
  const SlotSizes: seq<nat> := [PositionSize, NormalsSize, TextureSize, TextureSize, TextureSize,
                                TextureSize, ColorSize, ColorSize, ColorSize, ColorSize, TanSize, BitanSize]

  /** The float count `readData` reads for each slot. */
  function SlotCounts(vertexCount: u32): (r: seq<nat>)
    ensures |r| == ComponentCount
    ensures forall k :: 0 <= k < ComponentCount ==> r[k] == ReadCount(SlotSizes[k], vertexCount)
  {
    seq(ComponentCount, k requires 0 <= k < ComponentCount => ReadCount(SlotSizes[k], vertexCount))
  }

  /** Bytes the gated slots take. */
  function SlotBytes(gates: seq<bool>, counts: seq<nat>): nat
    requires |gates| == |counts|
  {
    if gates == [] then 0
    else (if gates[0] then FloatBytes(counts[0]) else 0) + SlotBytes(gates[1..], counts[1..])
  }

  /** The bytes of the slots that were read, in slot order; a null slot
      adds nothing. */
  function SlotData(slots: seq<Option<seq<Float>>>): seq<byte>
  {
    if slots == [] then []
    else (if slots[0].Some? then EncodeFloats(slots[0].value) else []) + SlotData(slots[1..])
  }

  /** A slot in front of the others adds its bytes in front. */
  lemma SlotDataCons(x: Option<seq<Float>>, rest: seq<Option<seq<Float>>>)
    ensures SlotData([x] + rest) == (if x.Some? then EncodeFloats(x.value) else []) + SlotData(rest)
  {
    assert ([x] + rest)[1..] == rest;
  }

  /** A block read at `p..m` in front of slots read at `m..q`. */
  lemma ConsBytes(data: seq<byte>, p: nat, m: nat, q: nat, first: seq<Float>, rest: seq<Option<seq<Float>>>)
    requires p <= m <= q <= |data|
    requires EncodeFloats(first) == data[p..m]
    requires SlotData(rest) == data[m..q]
    ensures SlotData([Some(first)] + rest) == data[p..q]
  {
    SlotDataCons(Some(first), rest);
    JoinReads(data, p, m, q, EncodeFloats(first), SlotData(rest));
  }

  /** Slot `k` is read iff its gate is set, and then holds its count of
      floats. */
  predicate SlotsFit(slots: seq<Option<seq<Float>>>, gates: seq<bool>, counts: seq<nat>)
    requires |slots| == |gates| == |counts|
  {
    forall k :: 0 <= k < |gates| ==>
      (slots[k].Some? <==> gates[k]) && (gates[k] ==> |slots[k].value| == counts[k])
  }

  /** One more slot in front of slots that fit the later gates. */
  lemma SlotsFitCons(x: Option<seq<Float>>, rest: seq<Option<seq<Float>>>, gates: seq<bool>, counts: seq<nat>)
    requires |gates| == |counts| == |rest| + 1
    requires (x.Some? <==> gates[0]) && (gates[0] ==> |x.value| == counts[0])
    requires SlotsFit(rest, gates[1..], counts[1..])
    ensures SlotsFit([x] + rest, gates, counts)
  {
    forall k | 0 <= k < |gates|
      ensures (([x] + rest)[k].Some? <==> gates[k]) && (gates[k] ==> |([x] + rest)[k].value| == counts[k])
    {
      if k > 0 {
        assert ([x] + rest)[k] == rest[k - 1];
      }
    }
  }

  /** The slot reads of `readStructOfArrays`, in order: a slot whose gate
      is set gets `readData` of its count, the others stay null. */
  function ReadSlots(s: Stream, gates: seq<bool>, counts: seq<nat>)
    : (r: (seq<Option<seq<Float>>>, Stream))
    requires |gates| == |counts| && Remains(s, SlotBytes(gates, counts))
    ensures |r.0| == |gates|
    ensures r.1 == s.(pos := s.pos + SlotBytes(gates, counts))
    ensures SlotData(r.0) == s.data[s.pos .. r.1.pos]
    decreases |gates|
  {
    if gates == [] then
      ([], s)
    else if gates[0] then
      var first := ReadFloats(s, counts[0]);
      var rest := ReadSlots(first.1, gates[1..], counts[1..]);
      ConsBytes(s.data, s.pos, first.1.pos, rest.1.pos, first.0, rest.0);
      ([Some(first.0)] + rest.0, rest.1)
    else
      var rest := ReadSlots(s, gates[1..], counts[1..]);
      SlotDataCons(None, rest.0);
      ([None] + rest.0, rest.1)
  }

  /** Slot `k` is read iff its gate is set, and then holds its count of
      floats. */
  lemma {:induction false} ReadSlotsFit(s: Stream, gates: seq<bool>, counts: seq<nat>)
    requires |gates| == |counts| && Remains(s, SlotBytes(gates, counts))
    ensures SlotsFit(ReadSlots(s, gates, counts).0, gates, counts)
    decreases |gates|
  {
    if gates != [] {
      var r := ReadSlots(s, gates, counts).0;
      if gates[0] {
        var first := ReadFloats(s, counts[0]);
        ReadSlotsFit(first.1, gates[1..], counts[1..]);
        SlotsFitCons(Some(first.0), ReadSlots(first.1, gates[1..], counts[1..]).0, gates, counts);
      } else {
        ReadSlotsFit(s, gates[1..], counts[1..]);
        SlotsFitCons(None, ReadSlots(s, gates[1..], counts[1..]).0, gates, counts);
      }
    }
  }

  /** The slot tests of `readStructOfArrays` as written: the normals slot
      is read when the flags have positions. */
  function ReaderGates(f: Flags): (r: seq<bool>)
    ensures |r| == ComponentCount
  {
    [HasPositions(f), HasPositions(f), HasTexCoords0(f), HasTexCoords1(f), HasTexCoords2(f), HasTexCoords3(f),
     HasColor0(f), HasColor1(f), HasColor2(f), HasColor3(f), HasTanBitan(f), HasTanBitan(f)]
  }

  /** The slot tests the writer's layout calls for: slot `k` is read when
      component `k` is enabled. */
  function WriterGates(f: Flags): (r: seq<bool>)
    ensures |r| == ComponentCount
    ensures forall k :: 0 <= k < ComponentCount ==> r[k] == Enabled(Canonical[k], f)
  {
    seq(ComponentCount, k requires 0 <= k < ComponentCount => Enabled(Canonical[k], f))
  }

  /** Bytes the struct-of-arrays data and indices take under `gates`. */
  function SoaBytes(objectHeader: ObjectHeader, gates: seq<bool>): nat
    requires |gates| == ComponentCount
  {
    SlotBytes(gates, SlotCounts(objectHeader.vertexCount)) + IndexBytes(objectHeader.indexCount)
  }

  /** The struct-of-arrays read with the given slot tests: nothing from a
      closed stream; otherwise twelve slots, then `indexCount` indices. */
  function ReadSlotsAndIndices(s: Stream, objectHeader: ObjectHeader, gates: seq<bool>): (r: (Option<Bla>, Stream))
    requires |gates| == ComponentCount
    requires s.open ==> Remains(s, SoaBytes(objectHeader, gates))
    ensures r.0.Some? <==> s.open
    ensures !s.open ==> r.1 == s
    ensures r.0.Some? ==>
      var bla := r.0.value;
      && bla.header == objectHeader
      && |bla.vertices| == ComponentCount && |bla.indices| == objectHeader.indexCount
      && SlotsFit(bla.vertices, gates, SlotCounts(objectHeader.vertexCount))
      && r.1 == s.(pos := s.pos + SoaBytes(objectHeader, gates))
  {
    if !s.open then
      (None, s)
    else
      var counts := SlotCounts(objectHeader.vertexCount);
      var slots := ReadSlots(s, gates, counts);
      ReadSlotsFit(s, gates, counts);
      var indices := ReadIndices(slots.1, objectHeader.indexCount);
      (Some(Bla(objectHeader, slots.0, indices.0)), indices.1)
  }

  /** The arrays of the slots read, then the indices, are the bytes the
      read consumed. */
  lemma ReadSlotsAndIndicesBytes(s: Stream, objectHeader: ObjectHeader, gates: seq<bool>)
    requires |gates| == ComponentCount
    requires s.open && Remains(s, SoaBytes(objectHeader, gates))
    ensures var bla := ReadSlotsAndIndices(s, objectHeader, gates).0.value;
      SlotData(bla.vertices) + EncodeIndices(bla.indices)
      == s.data[s.pos .. s.pos + SoaBytes(objectHeader, gates)]
  {
    var counts := SlotCounts(objectHeader.vertexCount);
    var slots := ReadSlots(s, gates, counts);
    var indices := ReadIndices(slots.1, objectHeader.indexCount);
    JoinReads(s.data, s.pos, slots.1.pos, indices.1.pos,
              SlotData(slots.0), EncodeIndices(indices.0));
  }

  /** `readStructOfArrays` as written. */
  function ReadStructOfArrays(s: Stream, objectHeader: ObjectHeader): (r: (Option<Bla>, Stream))
    requires s.open ==> Remains(s, SoaBytes(objectHeader, ReaderGates(objectHeader.vertexFlags)))
    ensures r.0.Some? <==> s.open
    ensures r.0.Some? ==> |r.0.value.vertices| == ComponentCount
    ensures r.0.Some? ==> (r.0.value.vertices[1].Some? <==> HasPositions(objectHeader.vertexFlags))
  {
    assert ReaderGates(objectHeader.vertexFlags)[1] == HasPositions(objectHeader.vertexFlags);
    ReadSlotsAndIndices(s, objectHeader, ReaderGates(objectHeader.vertexFlags))
  }

  /** `readStructOfArrays` with the normals slot tested on the normals
      flag, matching what the writer emits. */
  function ReadStructOfArraysCorrected(s: Stream, objectHeader: ObjectHeader): (r: (Option<Bla>, Stream))
    requires s.open ==> Remains(s, SoaBytes(objectHeader, WriterGates(objectHeader.vertexFlags)))
    ensures r.0.Some? <==> s.open
    ensures r.0.Some? ==> |r.0.value.vertices| == ComponentCount
    ensures r.0.Some? ==> forall k :: 0 <= k < ComponentCount ==>
      (r.0.value.vertices[k].Some? <==> Enabled(Canonical[k], objectHeader.vertexFlags))
  {
    ReadSlotsAndIndices(s, objectHeader, WriterGates(objectHeader.vertexFlags))
  }
}
