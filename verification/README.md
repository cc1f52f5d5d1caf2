# rcm mesh container, modelled in Dafny

This project models the core of rcmconvert. rcmconvert turns meshes into
the small binary container format "rcm". Each rcm file holds:

- a 6-byte file header: the magic number `0xDE 0xAD`, version 0.1 and an
  object count;
- one object per mesh. An object is a 16-byte object header (type, vertex
  stride, flag word and three counts), then the vertex data, then 16-bit
  indices.

A 16-bit flag word says which vertex components are present. The
components are position, normal, four texture-coordinate channels, four
colour channels, and tangent with bitangent. The vertex data can be
written in two layouts:

- **array of structs**: one interleaved buffer, `vertexSize` floats per
  vertex;
- **struct of arrays**: one float column per enabled component, in
  canonical order.

When optimizing, the writer first welds the vertices. Each vertex's first
eight floats act as a key. Repeated keys are dropped, and every original
vertex gets the 16-bit index of the key's first occurrence. The reader
reads a header, then reads the object back in either layout. A small
command-line parser collects boolean options, value options and trailing
words.

The modules follow the source files:

| module | models |
|---|---|
| `Types` | scalar widths and the 8-, 16- and 32-bit cuts |
| `Wire` | little-endian encoding of 16-bit and 32-bit words, float bit patterns and index lists |
| `Rcm` | `src/rcm.h`: constants, flags, header records, offsets, `calcVertexSize` |
| `Headers` | the byte images of the two header structs |
| `RcmInternal` | `src/internal/rcm_internal.h`: `Vertex` comparison, `findVertexIndex`, `ObjectData` |
| `Weld` | `optimizeArrayOfStructs` |
| `RcmWriter` | `src/rcmwriter.cpp` |
| `RcmReader` | `src/rcmreader.cpp` |
| `CommandParser` | `src/command_parser.cpp` |
| `RoundTrip` | what the reader gets back from an unoptimized object |
| `OptimizedRoundTrip` | what the reader gets back from an optimized object |

Modelling choices:

- Streams are byte sequences. The reader's input is a `Stream` with an
  open flag, its data and a position.
- Floats are 32-bit patterns that are only copied and compared, never
  computed with.
- Where the source cuts a count to 8, 16 or 32 bits, the model cuts it
  explicitly:
  - the object count in the file header (`ToU8`);
  - the welded index (`ToU16`);
  - the reader's `vertexCount * size` product (`ToU32`);
  - the stride stored in the object header (`ToU8`).

## Model

| member | source | states |
|---|---|---|
| Rcm.FlagValues | src/rcm.h:92-106 | every flag bit used by the model sits at the position of its `ModelDataFlags` value (0x0001 is bit 0 … 0x8000 is bit 15) |
| Rcm.WithFlag | src/rcm.h:120-122 | a `setHas*` call sets its bit and leaves the other fifteen bits alone |
| Rcm.OrChannelBitsSets | src/rcm.h:142-149 | the channel loop sets exactly bits `first … first+count-1` on top of the old word |
| Rcm.SetHasTexCoords | src/rcm.h:142-149 | texture channel k is set afterwards iff it was set before or k < number; no bit outside the four channel bits changes |
| Rcm.SetHasColors | src/rcm.h:189-196 | colour channel k is set afterwards iff it was set before or k < number; no bit outside the four channel bits changes |
| Rcm.TexCoordCountClamp | src/rcm.h:142-149 | asking for no texture channel changes nothing, and any number above four acts as four |
| Rcm.ColorCountClamp | src/rcm.h:189-196 | asking for no colour channel changes nothing, and any number above four acts as four |
| Rcm.WithFlagIdempotent | src/rcm.h:120-122 | setting a flag twice is the same as setting it once |
| Rcm.AllFlagsSet | src/rcm.h:116-304 | on the all-ones word every `has*` test is true and the stride is 36 floats; bones and half floats take no room |
| Rcm.OffsetExamples | tests/Header_test.cpp:200-243 | the offsets of the three flag words the header tests pin down have the values those tests expect |
| Rcm.OffsetStep | src/rcm.h:136-250 | each offset after the normals is the previous component's offset plus that component's size if its flag is set; the normals offset is always 3 |
| Rcm.RankOfCanonical | src/rcm.h:92-106 | the canonical component order lists each component at its own rank |
| Rcm.TexCoords0Offset | src/rcm.h:136-158 | the first texture channel starts after the enabled position and normals, plus 3 when the position flag is clear |
| Rcm.TexCoords1Offset | src/rcm.h:136-167 | texture channel 1 starts after the enabled components before it, plus 3 when the position flag is clear |
| Rcm.TexCoords2Offset | src/rcm.h:136-176 | texture channel 2 starts after the enabled components before it, plus 3 when the position flag is clear |
| Rcm.TexCoords3Offset | src/rcm.h:136-185 | texture channel 3 starts after the enabled components before it, plus 3 when the position flag is clear |
| Rcm.Color0Offset | src/rcm.h:136-205 | colour channel 0 starts after the enabled components before it, plus 3 when the position flag is clear |
| Rcm.Color1Offset | src/rcm.h:136-214 | colour channel 1 starts after the enabled components before it, plus 3 when the position flag is clear |
| Rcm.Color2Offset | src/rcm.h:136-223 | colour channel 2 starts after the enabled components before it, plus 3 when the position flag is clear |
| Rcm.Color3Offset | src/rcm.h:136-232 | colour channel 3 starts after the enabled components before it, plus 3 when the position flag is clear |
| Rcm.TanOffset | src/rcm.h:136-245 | the tangent starts after the enabled components before it, plus 3 when the position flag is clear |
| Rcm.BitanOffset | src/rcm.h:136-250 | the bitangent starts after the enabled components before it (the tangent included when enabled), plus 3 when the position flag is clear |
| Rcm.Offset | src/rcm.h:124-250 | the position starts at 0; every other component starts where a scan of the enabled components before it stands, plus 3 when the position flag is clear |
| Rcm.OffsetIsScanOffset | src/rcm.h:124-250 | with positions present, each component starts right after the enabled components before it in canonical order |
| Rcm.OffsetSkipsMissingPosition | src/rcm.h:136-138 | without positions, every offset after the position points 3 floats past where the component really starts |
| Rcm.CalcVertexSize | src/rcm.h:268-304 | the vertex stride is the total size of the enabled components in canonical order; it is 0 iff no component is enabled, and at most 36 |
| Rcm.SizeBeforeSplit | src/rcm.h:268-304 | the room between two scan positions never shrinks, and is zero iff no component between them is enabled |
| Rcm.OffsetsMonotone | src/rcm.h:124-250 | offsets never decrease along the canonical component order, for every flag word |
| Rcm.ComponentInsideStride | src/rcm.h:268-304 | every enabled component ends inside the vertex stride |
| Rcm.BitanEndsAtStride | src/rcm.h:247-304 | with positions present, the bitangent (when enabled) ends exactly at the stride |
| Wire.U16RoundTrip | src/rcmwriter.cpp:470-477 | a 16-bit word read back from its two little-endian bytes is itself |
| Wire.U16Injective | src/rcmreader.cpp:44-51 | every two bytes are the image of exactly one 16-bit word |
| Wire.U32RoundTrip | src/rcmwriter.cpp:470-477 | a 32-bit word read back from its four little-endian bytes is itself |
| Wire.U32Injective | src/rcmreader.cpp:44-51 | every four bytes are the image of exactly one 32-bit word |
| Wire.FlagsRoundTrip | src/rcm.h:81-88 | the flag word survives its write and read bit for bit |
| Wire.FlagsInjective | src/rcm.h:81-88 | every two bytes decode to a flag word whose encoding is those bytes |
| Wire.FloatsRoundTrip | src/rcmwriter.cpp:249-255 | decoding the bytes of a float sequence gives the sequence back |
| Wire.FloatsDecodeEncode | src/rcmreader.cpp:73-77 | a byte run of 4n bytes decodes to n floats that encode back to those bytes |
| Wire.IndicesRoundTrip | src/rcmwriter.cpp:374-375 | decoding the bytes of an index list gives the list back |
| Wire.IndicesDecodeEncode | src/rcmreader.cpp:53-71 | a byte run of 2n bytes decodes to n indices that encode back to those bytes |
| Wire.EncodeFloatsAppend | src/rcmwriter.cpp:257-304 | writing two float runs one after the other writes the bytes of their concatenation |
| Wire.EncodeFloatsAt | src/rcmwriter.cpp:249-255 | float i of a run occupies bytes 4i … 4i+3 of its encoding |
| Headers.EncodeFileHeader | src/rcmwriter.cpp:448-456 | the file header is 6 bytes on the wire: the two magic bytes, the two version bytes, the object count and the spare byte, in declaration order with no padding |
| Headers.EncodeObjectHeader | src/rcmwriter.cpp:470-477 | the object header is 16 bytes on the wire: type at byte 0, stride at byte 1, the flag word in bytes 2-3 and the three counts in bytes 4-7, 8-11 and 12-15, little-endian |
| Headers.FileHeaderRoundTrip | src/rcmwriter.cpp:448-456 | a file header read from the 6 bytes written for it is that header |
| Headers.FileHeaderBytesRoundTrip | src/rcmreader.cpp:21-42 | any 6 bytes read as a file header are written back unchanged |
| Headers.ObjectHeaderRoundTrip | src/rcmwriter.cpp:470-477 | every field of an object header survives the 16-byte write and read |
| Headers.ObjectHeaderBytesRoundTrip | src/rcmreader.cpp:44-51 | any 16 bytes read as an object header are written back unchanged |
| RcmInternal.MemCmp | src/internal/rcm_internal.h:69-72 | the byte comparison is 0 iff the compared prefixes are equal |
| RcmInternal.MemCmpAntisymmetric | src/internal/rcm_internal.h:69-72 | swapping the arguments of the comparison negates it |
| RcmInternal.MemCmpTransitive | src/internal/rcm_internal.h:69-72 | the comparison is transitive on positive results |
| RcmInternal.Equal | src/internal/rcm_internal.h:74-76 | two vertices are `==` iff their first `size` floats are equal bit for bit |
| RcmInternal.Less | src/internal/rcm_internal.h:69-72 | a vertex `<` another is never `==` to it |
| RcmInternal.LessIrreflexive | src/internal/rcm_internal.h:69-72 | no vertex is `<` itself |
| RcmInternal.LessAsymmetric | src/internal/rcm_internal.h:69-72 | `<` never holds in both directions |
| RcmInternal.LessTransitive | src/internal/rcm_internal.h:69-72 | `<` is transitive, so it is a strict order the map can use |
| RcmInternal.EquivalentIffEqual | src/internal/rcm_internal.h:69-76 | two vertices of one size are equivalent under `<` iff they are `==`, iff they are the same value |
| RcmInternal.SignedZerosDiffer | src/internal/rcm_internal.h:74-76 | +0.0 and -0.0 are different keys, because the comparison is on bits |
| RcmInternal.Copy | src/internal/rcm_internal.h:57-61 | a copied vertex has the same size and is `==` to the original |
| RcmInternal.FindVertexIndex | src/internal/rcm_internal.h:107-117 | the lookup succeeds iff the vertex is a key; it then yields the mapped index, and otherwise leaves the result untouched |
| RcmInternal.FindUsesOrder | src/internal/rcm_internal.h:107-117 | a lookup by value finds exactly what the map's `<`-based search finds |
| RcmInternal.Push | src/internal/rcm_internal.h:27-41 | appending to one component's column changes no other column and not the flags |
| Weld.Keys | src/rcmwriter.cpp:315-318 | key i of the buffer is floats 8i … 8i+7, for each of the vertexCount keys |
| Weld.Dedup | src/rcmwriter.cpp:319-325 | the welded list holds the same vertices as the keys, each once, and is no longer than the keys |
| Weld.IndexOf | src/rcmwriter.cpp:319-327 | a vertex's index is the place of its first occurrence |
| Weld.WeldedAreKeys | src/rcmwriter.cpp:315-321 | the welded vertices are at most vertexCount valid 8-float vertices |
| Weld.FirstOccurrenceIndex | src/rcmwriter.cpp:319-328 | a vertex not seen before gets the number of vertices welded so far; a repeat gets the index of its first occurrence |
| Weld.WeldRecovers | src/rcmwriter.cpp:306-331 | with at most 65536 vertices, every original vertex's index names a welded vertex equal to it |
| Weld.WeldIndexWraps | src/rcmwriter.cpp:322-323 | at the 65537th distinct vertex the 16-bit index wraps to 0, which names a different vertex |
| Weld.NewIndex | src/rcmwriter.cpp:322-323 | the new index is the last position of `verticesOut`, cut to 16 bits |
| Weld.MapOfLookup | src/rcmwriter.cpp:313-325 | the map holds exactly the welded vertices, each mapped to its position cut to 16 bits |
| Weld.WeldNew | src/rcmwriter.cpp:320-325 | a step on a new vertex keeps the weld invariant: list, map and indices extended consistently |
| Weld.WeldFound | src/rcmwriter.cpp:326-327 | a step on a known vertex keeps the weld invariant and appends its mapped index |
| Weld.WeldStep | src/rcmwriter.cpp:316-328 | one loop iteration keeps the weld invariant |
| Weld.OptimizeArrayOfStructs | src/rcmwriter.cpp:306-331 | the output vertices are the distinct keys in first-occurrence order; each input vertex gets the 16-bit position of its key; there is one index per input vertex |
| RcmWriter.CreateFileHeader | src/rcmwriter.cpp:459-468 | the created header's bytes begin with the magic number; it carries version 0.1, the object count cut to a byte and a zero spare byte |
| RcmWriter.CreateObjectHeader | src/rcmwriter.cpp:480-502 | the type is struct-of-arrays iff it was asked for and array-of-structs otherwise; every other field is the argument given for it |
| RcmWriter.Part | src/rcmwriter.cpp:179-247 | a vertex contributes as many floats to a column as the component's size when it is enabled, and none otherwise |
| RcmWriter.Parts | src/rcmwriter.cpp:179-247 | there is one part per vertex, all of the component's size |
| RcmWriter.ScanVertex | src/rcmwriter.cpp:186-244 | scanning one vertex appends each component's part to its own column and nothing else |
| RcmWriter.ConvertArrayOfStructsToStructOfArrays | src/rcmwriter.cpp:179-247 | each column is the concatenation, in vertex order, of that component's floats from every vertex |
| RcmWriter.ColumnChunk | src/rcmwriter.cpp:179-247 | chunk j of an enabled column is vertex j's component, taken at its offset past the enabled components before it |
| RcmWriter.DisabledColumnEmpty | src/rcmwriter.cpp:179-247 | a disabled component's column is empty |
| RcmWriter.WriteVertexArrays | src/rcmwriter.cpp:249-255 | the written bytes are the first `size` floats of every vertex, in order |
| RcmWriter.WriteArrayOfStructsData | src/rcmwriter.cpp:249-255 | each vertex writes its first vertices[0].size floats, in order; for an empty list, where the source reads a missing `vertices[0]`, the model writes nothing |
| RcmWriter.ArrayOfStructsChunk | src/rcmwriter.cpp:249-255 | decoding the written bytes gives vertex n's floats as chunk n |
| RcmWriter.ColumnsFromAreBlocks | src/rcmwriter.cpp:257-304 | writing columns k and onwards writes the encoded blocks k and onwards, in canonical order |
| RcmWriter.WriteStructOfArraysData | src/rcmwriter.cpp:257-304 | the bytes are the twelve column blocks in canonical order; the position column is written with no flag test and the others only when enabled |
| RcmWriter.ElementRunStrided | src/rcmwriter.cpp:333-341 | the element loop takes `size` floats at `offset` from every stride of the buffer |
| RcmWriter.WriteElementArray | src/rcmwriter.cpp:333-341 | when the element lies inside the stride and the buffer holds every vertex, the bytes written are that element of every vertex, vertex by vertex |
| RcmWriter.ComponentArraysFromAreBlocks | src/rcmwriter.cpp:384-418 | writing the element arrays k and onwards writes the encoded element blocks k and onwards |
| RcmWriter.WriteElementArrays | src/rcmwriter.cpp:384-418 | the unoptimized struct-of-arrays bytes are the element blocks of the enabled components, in canonical order |
| RcmWriter.WriteObject | src/rcmwriter.cpp:343-428 | a null mesh writes nothing and reports failure; otherwise the object starts with a header carrying the layout type, the mesh's flags and bone count, and its stride cut to a byte |
| RcmWriter.ObjectHeaderPrefix | src/rcmwriter.cpp:353-381 | both branches begin with the header built from the mesh |
| RcmWriter.NonNull | src/rcmwriter.cpp:442-444 | the filtered list keeps only meshes of the original list, none of them null |
| RcmWriter.NullMeshesSkipped | src/rcmwriter.cpp:442-444 | a file written from a list with null meshes has the same objects as one written from the list without them |
| RcmWriter.ObjectsHoldHeaders | src/rcmwriter.cpp:442-444 | the object loop writes at least 16 bytes, room for an object header, per non-null mesh, and nothing when every mesh is null |
| RcmWriter.WriteFile | src/rcmwriter.cpp:430-446 | a file is written iff it can be opened |
| RcmReader.ReadFileHeader | src/rcmreader.cpp:21-42 | a closed stream gives no header; an open one gives a header iff 6 bytes are there and the magic number matches; the header is those 6 bytes; a failure closes the stream |
| RcmReader.ReadObjectHeader | src/rcmreader.cpp:44-51 | an open stream gives the header whose image is the next 16 bytes |
| RcmReader.ReadFloats | src/rcmreader.cpp:73-77 | count floats are read, their image is the next 4·count bytes, and the position moves past them |
| RcmReader.ReadIndices | src/rcmreader.cpp:53-71 | count indices are read, their image is the next 2·count bytes, and the position moves past them |
| RcmReader.ReadArrayOfStructs | src/rcmreader.cpp:53-71 | an open stream gives one vertex block of (vertexCount·stride cut to 32 bits) floats, then indexCount indices, and the read consumes exactly their bytes |
| RcmReader.ReadData | src/rcmreader.cpp:73-77 | elementSize·vertexCount floats are read, the product cut to 32 bits |
| RcmReader.ReadSlots | src/rcmreader.cpp:101-136 | the slots read consume exactly the bytes of the gated slots, and those bytes are the slots' image |
| RcmReader.ReadSlotsFit | src/rcmreader.cpp:101-136 | a slot is filled iff its test passes, and a filled slot has its slot count of floats |
| RcmReader.ReadSlotsAndIndices | src/rcmreader.cpp:79-138 | an open stream gives twelve slots, then the indices |
| RcmReader.ReadSlotsAndIndicesBytes | src/rcmreader.cpp:79-138 | the slots and indices read are the image of the bytes consumed |
| RcmReader.ReadStructOfArrays | src/rcmreader.cpp:79-138 | as written: the normals slot is filled iff the position flag is set |
| RcmReader.ReadStructOfArraysCorrected | src/rcmreader.cpp:79-138 | corrected: slot k is filled iff component k is enabled |
| RoundTrip.FileHeaderReadsItself | src/rcmreader.cpp:21-42 | a header with the magic number reads back as itself and leaves the stream just after it |
| RoundTrip.CreatedFileHeaderReadBack | src/rcmwriter.cpp:459-468 | the created header reads back with the magic number, version 0.1, the object count cut to a byte and a zero spare byte |
| RoundTrip.CreatedObjectHeaderReadBack | src/rcmwriter.cpp:480-502 | the created header reads back with type 1 iff struct-of-arrays was asked for (type 2 otherwise) and every other argument unchanged |
| RoundTrip.FileHeaderReadBack | src/rcmwriter.cpp:430-446 | the file `writeFile` writes opens with a header the reader accepts, giving version 0.1 and the mesh count cut to a byte |
| RoundTrip.ObjectHeaderReadsItself | src/rcmreader.cpp:44-51 | an object header reads back as itself, and the stream moves on to what follows it |
| RoundTrip.ObjectHeaderReadBack | src/rcmwriter.cpp:353-381 | each branch's header reads back as built, and the stream is left at its data |
| RoundTrip.UnoptimizedFloatCount | src/rcmreader.cpp:53-71 | for the unoptimized header, the reader's float count equals the number of floats written |
| RoundTrip.ArrayOfStructsReadsBlock | src/rcmreader.cpp:53-71 | a block of the header's size, followed by the header's indices, reads back as exactly those values |
| RoundTrip.UnoptimizedArrayOfStructsReadBack | src/rcmwriter.cpp:419-425 | an unoptimized array-of-structs object reads back as the mesh's vertex buffer and its indices, and the read ends where the object ends |
| RoundTrip.ElementArrayIsColumn | src/rcmwriter.cpp:333-341 | with positions present, an enabled component's element array is its reference column: that component's floats from every stride |
| RoundTrip.ElementBlocksAreColumns | src/rcmwriter.cpp:384-418 | with positions present, the element arrays written are the reference columns |
| RoundTrip.SlotsReadBack | src/rcmreader.cpp:101-136 | blocks that fit the gated slots read back into those slots |
| RoundTrip.SlotsAndIndicesReadBack | src/rcmreader.cpp:79-138 | fitting blocks and then the header's indices read back as those blocks and indices, taking exactly their bytes |
| RoundTrip.UnoptimizedStructOfArraysReadBack | src/rcmwriter.cpp:384-425 | an unoptimized struct-of-arrays object with positions, read by the corrected reader, fills slot k with component k's reference column when it is enabled, then gives the mesh's indices, and ends where the object ends |
| RoundTrip.ReaderGatesAreWriterGates | src/rcmreader.cpp:101-136 | the reader tests each slot as the writer does, except the normals slot, which it tests on the position flag |
| RoundTrip.GatesAgreeIff | src/rcmreader.cpp:104-106 | the reader's slot tests equal the writer's iff the position and normals flags agree |
| RoundTrip.NormalsGateOverreads | src/rcmreader.cpp:104-106 | with positions, no normals and at least one vertex, the reader consumes a normals column's worth of bytes more than the writer wrote |
| RoundTrip.ReadersAgree | src/rcmreader.cpp:79-138 | when the position and normals flags agree, the reader as written and the corrected one read the same |
| OptimizedRoundTrip.OptimizedHeaderCounts | src/rcmwriter.cpp:356-361 | with at most 65536 vertices, the optimized header counts the welded vertices and one index per original vertex |
| OptimizedRoundTrip.OptimizedArrayOfStructsBytes | src/rcmwriter.cpp:371-375 | the optimized array-of-structs branch writes the welded floats, then the weld's indices |
| OptimizedRoundTrip.WeldedFloatsRecover | src/rcmwriter.cpp:353-375 | each original vertex is the run of eight welded floats its index points at |
| OptimizedRoundTrip.OptimizedArrayOfStructsReadBack | src/rcmreader.cpp:53-71 | with a stride of eight floats, an optimized array-of-structs object reads back as the welded floats and the weld's indices, and the read ends where the object ends |
| OptimizedRoundTrip.WeldedHoldStride | src/rcmwriter.cpp:366-368 | the welded vertices hold every component the flags enable |
| OptimizedRoundTrip.WeldedBlock | src/rcmwriter.cpp:257-304 | block k is the welded column of component k when it is enabled, and empty otherwise; this includes the position block that is written with no flag test |
| OptimizedRoundTrip.WeldedBlocksFitSlots | src/rcmreader.cpp:79-138 | the welded blocks fit the slots the corrected reader reads for the optimized header |
| OptimizedRoundTrip.KeyComponent | src/rcmwriter.cpp:315-318 | component c of key n is the buffer run at 8n plus the component's scan offset, and it ends inside the key |
| OptimizedRoundTrip.WeldedColumnRecoversKey | src/rcmwriter.cpp:306-331 | on a buffer of keys, the chunk of the welded column of c that key n's weld index points at is key n's component c |
| OptimizedRoundTrip.WeldedColumnRecovers | src/rcmwriter.cpp:353-375 | with at most 65536 vertices, component c of original vertex n is the chunk of the welded column of c at vertex n's weld index |
| OptimizedRoundTrip.WeldedSlot | src/rcmreader.cpp:101-136 | reading an optimized struct-of-arrays object with the writer's slot tests fills the slot of every enabled component with that component's welded column |
| OptimizedRoundTrip.OptimizedStructOfArraysReadBack | src/rcmwriter.cpp:366-375 | an optimized struct-of-arrays object, read by the corrected reader, fills slot k with the welded column of component k when it is enabled, then gives the weld's indices, and ends where the object ends |
| CommandParser.Create | src/command_parser.cpp:28-35 | the first word names the program, the rest are to be parsed, and nothing is registered or recorded |
| CommandParser.Register | src/command_parser.cpp:37-69 | the option is registered; a name registered before keeps its first kind, as `std::map::insert` does; no other option and no other state changes |
| CommandParser.AddBoolOption | src/command_parser.cpp:46-51 | the option is registered; a new name takes no value; nothing else changes |
| CommandParser.AddHelpOption | src/command_parser.cpp:37-44 | the option is registered like a boolean option and remembered as the help option; nothing else changes |
| CommandParser.AddValueOption | src/command_parser.cpp:62-69 | the option is registered; a new name takes a value; nothing else changes |
| CommandParser.BoolOption | src/command_parser.cpp:53-60 | the recorded result of the option, or the default when none was recorded |
| CommandParser.ValueOption | src/command_parser.cpp:71-78 | the recorded value of the option, or the default when none was recorded |
| CommandParser.ClearParsingData | src/command_parser.cpp:184-188 | every result and trailing word is forgotten, and nothing else changes |
| CommandParser.Step | src/command_parser.cpp:101-155 | a successful step consumes the first argument, or the first two for a value option followed by a word without a dash, and changes only the arguments, results and trailing words; a failing step changes nothing but the arguments, which stay a suffix |
| CommandParser.Parse | src/command_parser.cpp:96-161 | the status is 0 or -1; on success every argument is consumed; on failure all results are cleared; the registered options never change |
| CommandParser.WordsAreTrailing | src/command_parser.cpp:101-120 | when only unregistered words without a dash are left, the parse succeeds and appends them all, in order, to the trailing arguments |
| CommandParser.FreshParse | src/command_parser.cpp:96-161 | with nothing registered, the parse succeeds iff no argument starts with a dash, and the trailing arguments are then all the arguments |
| CommandParser.UnknownDashFails | src/command_parser.cpp:107-117 | an unregistered dash word anywhere fails the parse, and every query then answers its default |
| CommandParser.MissingValueFails | src/command_parser.cpp:132-145 | a value option with no following word, or followed by a dash word, fails the parse, and every query then answers its default |
| CommandParser.ResultsPersist | src/command_parser.cpp:123-153 | after a successful parse, a true boolean result and a value result recorded earlier are still there |
| CommandParser.DashOptionRecorded | src/command_parser.cpp:123-153 | after a successful parse, a dash-named boolean option among the arguments answers true, and a dash-named value option has a value |
| CommandParser.StepResults | src/command_parser.cpp:123-153 | a step adds or changes no result except its own option's: every result after it is one from before, unchanged, or is `true` for the stepped boolean option, or is the following word for the stepped value option |
| CommandParser.StepRecords | src/command_parser.cpp:123-153 | a step on a boolean option sets that option's result to true, a step on a value option sets its value to the following word, and a step on a word records nothing; no other result changes |
| CommandParser.StepShift | src/command_parser.cpp:123-153 | a successful step drops one argument, or two when a value option takes the next word, and keeps the registered options |
| CommandParser.StepPastOption | src/command_parser.cpp:123-153 | a successful step on a registered option leaves exactly the arguments after the option and its value, and empties the trailing words |
| CommandParser.ValueKept | src/command_parser.cpp:132-135 | a recorded value whose option never appears among the arguments survives a successful parse unchanged |
| CommandParser.LastValueWins | src/command_parser.cpp:132-135 | after a successful parse, a value option that does not appear again later among the arguments answers the word that followed it, whatever earlier occurrences gave |
| CommandParser.BoolResultsSound | src/command_parser.cpp:146-153 | after a successful parse, each boolean result that was not there before belongs to an argument that is a registered boolean option, and is true |
| CommandParser.ValueResultsSound | src/command_parser.cpp:132-135 | after a successful parse, each value result that was not there before is a word that directly followed its option among the arguments |
| CommandParser.TrailingSuffix | src/command_parser.cpp:109-149 | after a successful parse, the trailing arguments are a suffix of the old trailing list followed by the arguments |
| CommandParser.TrailingAreWords | src/command_parser.cpp:107-109 | after a successful parse, the trailing arguments are unregistered words without a dash |
| CommandParser.TrailingAfterOption | src/command_parser.cpp:123-153 | after a successful parse, the trailing arguments come after any registered dash-named option among the arguments, and after its value for a value option |
| CommandParser.TrailingAfterLastOption | src/command_parser.cpp:80-82 | after a successful parse, `trailingArgs()` answers exactly the arguments after a registered dash-named option (and its value) that no registered word follows, with or without a dash |
| CommandParser.ParseIgnoresHelp | src/command_parser.cpp:96-161 | the remembered help option has no effect on the parse |
| CommandParser.HelpIsOrdinary | src/command_parser.cpp:37-51 | a help option parses exactly like a boolean option of the same name |

## Left out

- `loadModel` and `convertAiMesh` (src/rcmwriter.cpp:23-176): they call the Assimp importer, which is not part of this model. Meshes enter the model as values.
- `src/converter.cpp` and `main`: command-line driving and file I/O.
- Streams, files and error output (`std::cerr`, `showError`, `showHelpDialog`): output is a byte sequence, and error messages are not modelled. `canOpen` stands in for `is_open`.
- `setUsageString`, `appendToPreDescText`, `appendToPostDescText` and the help text passed to the `add*Option` calls: they only build the help dialog.
- Floating point: floats are 32-bit patterns. Bones and half floats are flag bits that take no room, as in `calcVertexSize`.
- The `writeFileHeader`/`writeObjectHeader` return values: the model folds these writes into `EncodeFileHeader` and `EncodeObjectHeader`.
- `Vertex::operator=` (src/internal/rcm_internal.h:63-67): it has no `return` statement. `RcmInternal.Copy` models the copy constructor, which assigns the same contents.
- `writeFile` (src/rcmwriter.cpp:430-446): it falls off its end without a `return` after a successful write, which is undefined behaviour in C++. The model returns the bytes.
- The help option: the doc comment in src/command_parser.h:130-140 says `parse` fails when the help option is given. The code does not do this; it records the option like any boolean option. The model follows the code (`CommandParser.HelpIsOrdinary`).
- Weld.OptimizeArrayOfStructs: requires `vertexSize == 8`. The source copies `vertexSize` floats into an 8-float key, which is undefined behaviour for other strides.
- RcmReader.ReadArrayOfStructs: requires the bytes to be present in the stream. A short read at the end of the file is not modelled, and neither are the other reader functions' short reads.
- RoundTrip.UnoptimizedStructOfArraysReadBack: requires the position flag. Without positions the source's offsets point 3 floats too far (`Rcm.OffsetSkipsMissingPosition`), so the element arrays are not the components.
- RoundTrip.UnoptimizedArrayOfStructsReadBack: requires fewer than 2^32 floats and a header stride equal to `calcVertexSize`. Otherwise the reader's 32-bit product differs from what was written.
- OptimizedRoundTrip.OptimizedArrayOfStructsReadBack: requires at most 65536 vertices and a stride of eight floats. With more vertices the indices wrap (`Weld.WeldIndexWraps`). With another stride the header's flags do not describe the 8-float welded vertices.
- OptimizedRoundTrip.OptimizedStructOfArraysReadBack: requires at most 65536 vertices, for the same reason.
- CommandParser.Create: requires `argc >= 1`, because the source reads `argv[0]` unconditionally.
- RcmWriter.WriteArrayOfStructsData: the model writes nothing for an empty vertex list. The source reads `vertices[0]` of the empty vector (src/rcmwriter.cpp:250), and the optimized branch writes from `&indicesOut[0]` of an empty index vector (src/rcmwriter.cpp:374); both are undefined behaviour in C++ and are not modelled.
- RcmWriter.WriteObject: requires every element slice to lie inside the vertex buffer (`ElementsFit`). Without positions the offsets point 3 floats too far, so the source reads past the buffer: with normals and texture channel 0 the stride is 5 and the last slice reads float 5n+1 of a 5n-float buffer. That over-read is undefined behaviour and is not modelled.
- RcmWriter.WriteObject: requires `calcVertexSize` to be at most 8 for the optimized struct-of-arrays branch, because that branch converts 8-float welded vertices and reads each component at its offset in that vertex; a larger stride reads past the 8 floats, which is not modelled.
- RcmWriter.WriteObject: the element loop counter is an `int` (src/rcmwriter.cpp:338). Past 2^31 floats it overflows, which is undefined behaviour; the model's counter is unbounded.
- RcmWriter.WriteFile: its contract only says when a file is written. The file's content is stated by `RoundTrip.FileHeaderReadBack` and `RcmWriter.NullMeshesSkipped`.

## Findings

| source | as written | input that shows it | evidently intended | confidence | as-written member | corrected member |
|---|---|---|---|---|---|---|
| src/rcmreader.cpp:104-106 | the normals column is read when `hasPositions(vertexFlags)` | a struct-of-arrays object whose flags have positions but no normals, with vertexCount > 0 | read the normals column when `hasNormals(vertexFlags)`, as the writer writes it | not executed | RoundTrip.NormalsGateOverreads | RcmReader.ReadStructOfArraysCorrected |
