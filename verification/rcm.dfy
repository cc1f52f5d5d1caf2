/** The vertex layout of an rcm object and the two header records
    (src/rcm.h).

    A 16-bit flag word says which vertex components are present. The
    source derives every component's start position inside a vertex from a
    chain of offset functions, and the vertex stride from `calcVertexSize`.
    The model keeps those functions as written and relates them to an
    independent definition: the running sum of enabled component sizes in
    canonical order. */
module Rcm {
  import opened Types
  import opened Wire

  // ---------------------------------------------------------------- constants

  const MagicNumber0: byte := 0xDE
  const MagicNumber1: byte := 0xAD
  const FileFormatVersionMajor: byte := 0x0
  const FileFormatVersionMinor: byte := 0x1

  const MaxNumTexCoords: nat := 4
  const MaxNumColors: nat := 4

  /** The two object types (`enum ObjectType`). */
  const StructOfArrays: byte := 0x1
  const ArrayOfStructs: byte := 0x2

  /** The `uint16_t` flag word, bit by bit. */
  type Flags = Word16

  /** Bit positions of `enum ModelDataFlags`: bit `k` is the value `2^k`,
      so `HAS_POSITIONS = 0x0001` is bit 0 and `USES_HALF_FLOAT = 0x8000`
      is bit 15; bits 2, 3 and 14 are unassigned. */
  const PositionsBit: nat := 0
  const NormalsBit: nat := 1
  const Uv0Bit: nat := 4
  const Uv1Bit: nat := 5
  const Uv2Bit: nat := 6
  const Uv3Bit: nat := 7
  const Color0Bit: nat := 8
  const Color1Bit: nat := 9
  const Color2Bit: nat := 10
  const Color3Bit: nat := 11
  const TanAndBitanBit: nat := 12
  const BonesBit: nat := 13
  const HalfFloatBit: nat := 15

  const NoFlags: Flags := [false, false, false, false, false, false, false, false,
                           false, false, false, false, false, false, false, false]
  const AllFlags: Flags := [true, true, true, true, true, true, true, true,
                            true, true, true, true, true, true, true, true]

  const PositionSize: nat := 3
  const NormalsSize: nat := 3
  const TanSize: nat := 3
  const BitanSize: nat := 3
  const TextureSize: nat := 2
  const ColorSize: nat := 4

  // ------------------------------------------------------------------ headers

  /** The 6-byte file header (`struct FileHeader`). */
  datatype FileHeader = FileHeader(
    magicNumber0: byte, magicNumber1: byte,
    versionMajor: byte, versionMinor: byte,
    objectCount: byte, unused: byte)

  /** The 16-byte per-object header (`struct ObjectHeader`, no padding). */
  datatype ObjectHeader = ObjectHeader(
    objectType: byte, vertexSize: byte, vertexFlags: Flags,
    vertexCount: u32, indexCount: u32, boneCount: u32)

  // -------------------------------------------------------------- flag tests

  /** `vertexFlags & bit` read as a `bool`. */
  predicate FlagSet(f: Flags, bit: nat)
    requires bit < 16
  {
    f[bit]
  }

  /** `vertexFlags |= bit`: sets `bit` and touches nothing else. */
  function WithFlag(f: Flags, bit: nat): (r: Flags)
    requires bit < 16
    ensures FlagSet(r, bit)
    ensures forall k :: 0 <= k < 16 && k != bit ==> r[k] == f[k]
  {
    f[bit := true]
  }

  /** The word with only `bit` set has the value `2^bit` ... */
  lemma FlagValue(bit: nat)
    requires bit < 16
    ensures BitsValue(WithFlag(NoFlags, bit)) == Pow2(bit)
  {
    SingleBitValue(NoFlags, bit);
  }

  /** ... and for the bit positions above that is the value of each
      `enum ModelDataFlags` member. */
  lemma FlagValues()
    ensures Pow2(PositionsBit) == 0x0001 && Pow2(NormalsBit) == 0x0002
    ensures Pow2(Uv0Bit) == 0x0010 && Pow2(Uv1Bit) == 0x0020
    ensures Pow2(Uv2Bit) == 0x0040 && Pow2(Uv3Bit) == 0x0080
    ensures Pow2(Color0Bit) == 0x0100 && Pow2(Color1Bit) == 0x0200
    ensures Pow2(Color2Bit) == 0x0400 && Pow2(Color3Bit) == 0x0800
    ensures Pow2(TanAndBitanBit) == 0x1000 && Pow2(BonesBit) == 0x2000
    ensures Pow2(HalfFloatBit) == 0x8000
  {
    assert Pow2(8) == 0x100;
  }

  predicate HasPositions(f: Flags) { FlagSet(f, PositionsBit) }
  predicate HasNormals(f: Flags) { FlagSet(f, NormalsBit) }
  predicate HasTexCoords0(f: Flags) { FlagSet(f, Uv0Bit) }
  predicate HasTexCoords1(f: Flags) { FlagSet(f, Uv1Bit) }
  predicate HasTexCoords2(f: Flags) { FlagSet(f, Uv2Bit) }
  predicate HasTexCoords3(f: Flags) { FlagSet(f, Uv3Bit) }
  predicate HasColor0(f: Flags) { FlagSet(f, Color0Bit) }
  predicate HasColor1(f: Flags) { FlagSet(f, Color1Bit) }
  predicate HasColor2(f: Flags) { FlagSet(f, Color2Bit) }
  predicate HasColor3(f: Flags) { FlagSet(f, Color3Bit) }
  predicate HasTanBitan(f: Flags) { FlagSet(f, TanAndBitanBit) }
  predicate HasBones(f: Flags) { FlagSet(f, BonesBit) }
  predicate UsesHalfFloat(f: Flags) { FlagSet(f, HalfFloatBit) }

  function SetHasPositions(f: Flags): Flags { WithFlag(f, PositionsBit) }
  function SetHasNormals(f: Flags): Flags { WithFlag(f, NormalsBit) }
  function SetHasTanBitan(f: Flags): Flags { WithFlag(f, TanAndBitanBit) }
  function SetHasBones(f: Flags): Flags { WithFlag(f, BonesBit) }
  function SetUsesHalfFloat(f: Flags): Flags { WithFlag(f, HalfFloatBit) }

  function Clamp(n: nat, max: nat): (r: nat)
    ensures r <= max && r <= n
    ensures r == n || r == max
  {
    if n > max then max else n
  }

  /** `for (i = 0; i < count; i++) flags |= first << i`, one channel bit
      per step. */
  function OrChannelBits(f: Flags, first: nat, count: nat): Flags
    requires first + count <= 16
    decreases count
  {
    if count == 0 then f else OrChannelBits(WithFlag(f, first), first + 1, count - 1)
  }

  /** The loop sets exactly the bits `first .. first + count - 1`. */
  lemma {:induction false} OrChannelBitsSets(f: Flags, first: nat, count: nat)
    requires first + count <= 16
    ensures forall k :: 0 <= k < 16 ==>
      (OrChannelBits(f, first, count)[k] <==> f[k] || first <= k < first + count)
    decreases count
  {
    if count > 0 {
      OrChannelBitsSets(WithFlag(f, first), first + 1, count - 1);
    }
  }

  /** `setHasTexCoords`: sets the first `number` texture-coordinate bits,
      at most four of them. */
  function SetHasTexCoords(f: Flags, number: nat): (r: Flags)
    ensures HasTexCoords0(r) <==> HasTexCoords0(f) || 0 < number
    ensures HasTexCoords1(r) <==> HasTexCoords1(f) || 1 < number
    ensures HasTexCoords2(r) <==> HasTexCoords2(f) || 2 < number
    ensures HasTexCoords3(r) <==> HasTexCoords3(f) || 3 < number
    ensures forall k :: 0 <= k < 16 && !(Uv0Bit <= k <= Uv3Bit) ==> r[k] == f[k]
  {
    var count := Clamp(number, MaxNumTexCoords);
    OrChannelBitsSets(f, Uv0Bit, count);
    OrChannelBits(f, Uv0Bit, count)
  }

  /** `setHasColors`: sets the first `number` colour bits, at most four. */
  function SetHasColors(f: Flags, number: nat): (r: Flags)
    ensures HasColor0(r) <==> HasColor0(f) || 0 < number
    ensures HasColor1(r) <==> HasColor1(f) || 1 < number
    ensures HasColor2(r) <==> HasColor2(f) || 2 < number
    ensures HasColor3(r) <==> HasColor3(f) || 3 < number
    ensures forall k :: 0 <= k < 16 && !(Color0Bit <= k <= Color3Bit) ==> r[k] == f[k]
  {
    var count := Clamp(number, MaxNumColors);
    OrChannelBitsSets(f, Color0Bit, count);
    OrChannelBits(f, Color0Bit, count)
  }

  // ------------------------------------------------------------- components

  /** The twelve vertex components, declared in canonical order. */
  datatype Component =
    | Position | Normal
    | TexCoord0 | TexCoord1 | TexCoord2 | TexCoord3
    | Color0 | Color1 | Color2 | Color3
    | Tangent | Bitangent

  const Canonical: seq<Component> := [
    Position, Normal, TexCoord0, TexCoord1, TexCoord2, TexCoord3,
    Color0, Color1, Color2, Color3, Tangent, Bitangent]

  const ComponentCount: nat := 12

  /** The component at slot `k` of `Canonical` has rank `k`. */
  lemma RankOfCanonical(k: nat)
    requires k < ComponentCount
    ensures Rank(Canonical[k]) == k
  {
  }

  /** Position of a component in `Canonical`. */
  function Rank(c: Component): (k: nat)
    ensures k < ComponentCount && Canonical[k] == c
  {
    match c
    case Position => 0
    case Normal => 1
    case TexCoord0 => 2
    case TexCoord1 => 3
    case TexCoord2 => 4
    case TexCoord3 => 5
    case Color0 => 6
    case Color1 => 7
    case Color2 => 8
    case Color3 => 9
    case Tangent => 10
    case Bitangent => 11
  }

  /** Floats per component (`kPositionSize` ... `kColorSize`). */
  function Size(c: Component): nat
  {
    match c
    case Position => PositionSize
    case Normal => NormalsSize
    case Tangent => TanSize
    case Bitangent => BitanSize
    case TexCoord0 | TexCoord1 | TexCoord2 | TexCoord3 => TextureSize
    case Color0 | Color1 | Color2 | Color3 => ColorSize
  }

  /** The flag bit that says whether a component is present; tangent and
      bitangent share one bit. */
  function FlagOf(c: Component): (bit: nat)
    ensures bit < 16
  {
    match c
    case Position => PositionsBit
    case Normal => NormalsBit
    case TexCoord0 => Uv0Bit
    case TexCoord1 => Uv1Bit
    case TexCoord2 => Uv2Bit
    case TexCoord3 => Uv3Bit
    case Color0 => Color0Bit
    case Color1 => Color1Bit
    case Color2 => Color2Bit
    case Color3 => Color3Bit
    case Tangent | Bitangent => TanAndBitanBit
  }

  predicate Enabled(c: Component, f: Flags) { FlagSet(f, FlagOf(c)) }

  /** Floats component `c` adds to a vertex under flags `f`. */
  function Contribution(c: Component, f: Flags): nat
  {
    if Enabled(c, f) then Size(c) else 0
  }

  function TexCoordChannel(k: nat): Component
    requires k < MaxNumTexCoords
  {
    [TexCoord0, TexCoord1, TexCoord2, TexCoord3][k]
  }

  function ColorChannel(k: nat): Component
    requires k < MaxNumColors
  {
    [Color0, Color1, Color2, Color3][k]
  }

  // ---------------------------------------------------- offsets, as written

  function PositionOffset(): nat { 0 }

  /** The room the fixed normals offset keeps for a position, whether or
      not the flags say one is there: none when it is. Each offset after
      the position is the scan offset plus this. */
  function PositionPad(f: Flags): nat
  {
    if HasPositions(f) then 0 else PositionSize
  }

  /** Always `kPositionSize`, whether or not positions are present. */
  function NormalsOffset(): nat { PositionSize }

  function TexCoords0Offset(f: Flags): (r: nat)
    ensures r == SizeBefore(2, f) + PositionPad(f)
  {
    ScanPositionNormal(f);
    if HasNormals(f) then NormalsOffset() + NormalsSize else NormalsOffset()
  }

  function TexCoords1Offset(f: Flags): (r: nat)
    ensures r == SizeBefore(3, f) + PositionPad(f)
  {
    var offset := TexCoords0Offset(f);
    if HasTexCoords0(f) then offset + TextureSize else offset
  }

  function TexCoords2Offset(f: Flags): (r: nat)
    ensures r == SizeBefore(4, f) + PositionPad(f)
  {
    var offset := TexCoords1Offset(f);
    if HasTexCoords1(f) then offset + TextureSize else offset
  }

  function TexCoords3Offset(f: Flags): (r: nat)
    ensures r == SizeBefore(5, f) + PositionPad(f)
  {
    var offset := TexCoords2Offset(f);
    if HasTexCoords2(f) then offset + TextureSize else offset
  }

  function Color0Offset(f: Flags): (r: nat)
    ensures r == SizeBefore(6, f) + PositionPad(f)
  {
    var offset := TexCoords3Offset(f);
    if HasTexCoords3(f) then offset + TextureSize else offset
  }

  function Color1Offset(f: Flags): (r: nat)
    ensures r == SizeBefore(7, f) + PositionPad(f)
  {
    var offset := Color0Offset(f);
    if HasColor0(f) then offset + ColorSize else offset
  }

  function Color2Offset(f: Flags): (r: nat)
    ensures r == SizeBefore(8, f) + PositionPad(f)
  {
    var offset := Color1Offset(f);
    if HasColor1(f) then offset + ColorSize else offset
  }

  function Color3Offset(f: Flags): (r: nat)
    ensures r == SizeBefore(9, f) + PositionPad(f)
  {
    var offset := Color2Offset(f);
    if HasColor2(f) then offset + ColorSize else offset
  }

  function TanOffset(f: Flags): (r: nat)
    ensures r == SizeBefore(10, f) + PositionPad(f)
  {
    var offset := Color3Offset(f);
    if HasColor3(f) then offset + ColorSize else offset
  }

  function BitanOffset(f: Flags): (r: nat)
    ensures r == SizeBefore(11, f) + PositionPad(f)
  {
    var offset := TanOffset(f);
    if HasTanBitan(f) then offset + TanSize else offset
  }

  /** The source's offset function for each component: the position at
      0, every other component where a scan of the enabled components
      before it stands, moved by the room of a missing position. */
  function Offset(c: Component, f: Flags): (r: nat)
    ensures c == Position ==> r == 0
    ensures c != Position ==> r == ScanOffset(c, f) + PositionPad(f)
  {
    match c
    case Position => PositionOffset()
    case Normal =>
      assert SizeBefore(1, f) == Contribution(Position, f);
      NormalsOffset()
    case TexCoord0 => TexCoords0Offset(f)
    case TexCoord1 => TexCoords1Offset(f)
    case TexCoord2 => TexCoords2Offset(f)
    case TexCoord3 => TexCoords3Offset(f)
    case Color0 => Color0Offset(f)
    case Color1 => Color1Offset(f)
    case Color2 => Color2Offset(f)
    case Color3 => Color3Offset(f)
    case Tangent => TanOffset(f)
    case Bitangent => BitanOffset(f)
  }

  /** `calcVertexSize`: the vertex stride in floats, the total size of the
      enabled components in canonical order. Bones, half-float and the
      unassigned bits add nothing, so the stride is zero exactly when no
      component is enabled, and never more than the 36 of all twelve. */
  function CalcVertexSize(f: Flags): (r: nat)
    ensures r == SizeBefore(ComponentCount, f)
    ensures r == 0 <==> forall k :: 0 <= k < ComponentCount ==> !Enabled(Canonical[k], f)
    ensures r <= 36
  {
    ScanPositionNormal(f);
    ScanTexCoords(f);
    ScanColors(f);
    ScanTanBitan(f);
    SizeBeforeSplit(0, ComponentCount, f);
    (if HasPositions(f) then PositionSize else 0)
    + (if HasNormals(f) then NormalsSize else 0)
    + (if HasTexCoords0(f) then TextureSize else 0)
    + (if HasTexCoords1(f) then TextureSize else 0)
    + (if HasTexCoords2(f) then TextureSize else 0)
    + (if HasTexCoords3(f) then TextureSize else 0)
    + (if HasColor0(f) then ColorSize else 0)
    + (if HasColor1(f) then ColorSize else 0)
    + (if HasColor2(f) then ColorSize else 0)
    + (if HasColor3(f) then ColorSize else 0)
    + (if HasTanBitan(f) then TanSize + BitanSize else 0)
  }

  // ------------------------------------------- reference layout: scan order

  /** Floats taken by the enabled components among the first `k` in
      canonical order: where a sequential scan of one vertex stands when it
      reaches component `k`. */
  function SizeBefore(k: nat, f: Flags): nat
    requires k <= ComponentCount
  {
    if k == 0 then 0 else SizeBefore(k - 1, f) + Contribution(Canonical[k - 1], f)
  }

  /** Where component `c` starts when only enabled components take room. */
  function ScanOffset(c: Component, f: Flags): nat
  {
    SizeBefore(Rank(c), f)
  }

  // ------------------------------------------------------------------ facts

  /** Every `has*` test answers true on the all-ones flag word, and the
      stride of that word is 36: bones, half-float and the unassigned bits
      take no room. */
  lemma AllFlagsSet()
    ensures forall c :: Enabled(c, AllFlags)
    ensures HasBones(AllFlags) && UsesHalfFloat(AllFlags)
    ensures CalcVertexSize(AllFlags) == 36
  {
  }

  lemma WithFlagIdempotent(f: Flags, bit: nat)
    requires bit < 16
    ensures WithFlag(WithFlag(f, bit), bit) == WithFlag(f, bit)
  {
  }

  /** Asking for zero channels changes nothing, and asking for five or more
      is asking for four. */
  lemma TexCoordCountClamp(f: Flags, number: nat)
    ensures SetHasTexCoords(f, 0) == f
    ensures number >= MaxNumTexCoords ==> SetHasTexCoords(f, number) == SetHasTexCoords(f, MaxNumTexCoords)
  {
    assert OrChannelBits(f, Uv0Bit, 0) == f;
  }

  lemma ColorCountClamp(f: Flags, number: nat)
    ensures SetHasColors(f, 0) == f
    ensures number >= MaxNumColors ==> SetHasColors(f, number) == SetHasColors(f, MaxNumColors)
  {
    assert OrChannelBits(f, Color0Bit, 0) == f;
  }

  /** The values the header unit tests pin for three flag words. */
  lemma OffsetExamples()
    ensures var f := AllFlags;
      && PositionOffset() == 0 && NormalsOffset() == 3
      && TexCoords0Offset(f) == 6 && TexCoords1Offset(f) == 8
      && TexCoords2Offset(f) == 10 && TexCoords3Offset(f) == 12
      && Color0Offset(f) == 14 && Color1Offset(f) == 18
      && Color2Offset(f) == 22 && Color3Offset(f) == 26
      && TanOffset(f) == 30 && BitanOffset(f) == 33
    ensures var f := SetHasTanBitan(SetHasTexCoords(SetHasNormals(SetHasPositions(NoFlags)), 1));
      && TexCoords0Offset(f) == 6 && TanOffset(f) == 8 && BitanOffset(f) == 11
    ensures var f := SetHasColors(SetHasTexCoords(SetHasPositions(NoFlags), 1), 2);
      && TexCoords0Offset(f) == 3 && Color0Offset(f) == 5 && Color1Offset(f) == 9
  {
  }

  /** Each offset after the normals is the previous component's offset plus
      that component's size when its flag is set. The normals offset itself
      is fixed at 3 whatever the position flag says. */
  lemma OffsetStep(k: nat, f: Flags)
    requires 1 <= k < ComponentCount - 1
    ensures Offset(Canonical[k + 1], f) == Offset(Canonical[k], f) + Contribution(Canonical[k], f)
    ensures Offset(Normal, f) == PositionSize
  {
    RankOfCanonical(k);
    RankOfCanonical(k + 1);
  }

  /** With the position flag set, every source offset is the sum of the sizes
      of the enabled components before it in canonical order. */
  lemma OffsetIsScanOffset(c: Component, f: Flags)
    requires HasPositions(f)
    ensures Offset(c, f) == ScanOffset(c, f)
  {
  }

  /** Without the position flag the source's offsets point 3 floats past
      where the components really start. */
  lemma OffsetSkipsMissingPosition(c: Component, f: Flags)
    requires !HasPositions(f) && c != Position
    ensures Offset(c, f) == ScanOffset(c, f) + PositionSize
  {
  }

  /* Running totals of the scan, one group of components at a time: each
     step adds what `calcVertexSize` adds for that group. */

  lemma ScanPositionNormal(f: Flags)
    ensures SizeBefore(2, f) == SizeBefore(0, f) + (if HasPositions(f) then PositionSize else 0) + (if HasNormals(f) then NormalsSize else 0)
  {
    assert Contribution(Position, f) == (if HasPositions(f) then PositionSize else 0);
    assert Contribution(Normal, f) == (if HasNormals(f) then NormalsSize else 0);
    assert SizeBefore(1, f) == SizeBefore(0, f) + Contribution(Position, f);
    assert SizeBefore(2, f) == SizeBefore(1, f) + Contribution(Normal, f);
  }

  lemma ScanTexCoords(f: Flags)
    ensures SizeBefore(6, f) == SizeBefore(2, f) + (if HasTexCoords0(f) then TextureSize else 0) + (if HasTexCoords1(f) then TextureSize else 0) + (if HasTexCoords2(f) then TextureSize else 0) + (if HasTexCoords3(f) then TextureSize else 0)
  {
    assert Contribution(TexCoord0, f) == (if HasTexCoords0(f) then TextureSize else 0);
    assert Contribution(TexCoord1, f) == (if HasTexCoords1(f) then TextureSize else 0);
    assert Contribution(TexCoord2, f) == (if HasTexCoords2(f) then TextureSize else 0);
    assert Contribution(TexCoord3, f) == (if HasTexCoords3(f) then TextureSize else 0);
    assert SizeBefore(3, f) == SizeBefore(2, f) + Contribution(TexCoord0, f);
    assert SizeBefore(4, f) == SizeBefore(3, f) + Contribution(TexCoord1, f);
    assert SizeBefore(5, f) == SizeBefore(4, f) + Contribution(TexCoord2, f);
    assert SizeBefore(6, f) == SizeBefore(5, f) + Contribution(TexCoord3, f);
  }

  lemma ScanColors(f: Flags)
    ensures SizeBefore(10, f) == SizeBefore(6, f) + (if HasColor0(f) then ColorSize else 0) + (if HasColor1(f) then ColorSize else 0) + (if HasColor2(f) then ColorSize else 0) + (if HasColor3(f) then ColorSize else 0)
  {
    assert Contribution(Color0, f) == (if HasColor0(f) then ColorSize else 0);
    assert Contribution(Color1, f) == (if HasColor1(f) then ColorSize else 0);
    assert Contribution(Color2, f) == (if HasColor2(f) then ColorSize else 0);
    assert Contribution(Color3, f) == (if HasColor3(f) then ColorSize else 0);
    assert SizeBefore(7, f) == SizeBefore(6, f) + Contribution(Color0, f);
    assert SizeBefore(8, f) == SizeBefore(7, f) + Contribution(Color1, f);
    assert SizeBefore(9, f) == SizeBefore(8, f) + Contribution(Color2, f);
    assert SizeBefore(10, f) == SizeBefore(9, f) + Contribution(Color3, f);
  }

  lemma ScanTanBitan(f: Flags)
    ensures SizeBefore(12, f) == SizeBefore(10, f) + (if HasTanBitan(f) then TanSize + BitanSize else 0)
  {
    assert Contribution(Tangent, f) == (if HasTanBitan(f) then TanSize else 0);
    assert Contribution(Bitangent, f) == (if HasTanBitan(f) then BitanSize else 0);
    assert SizeBefore(11, f) == SizeBefore(10, f) + Contribution(Tangent, f);
    assert SizeBefore(12, f) == SizeBefore(11, f) + Contribution(Bitangent, f);
  }

  /** The floats between two scan positions are the sizes of the enabled
      components between them. */
  lemma {:induction false} SizeBeforeSplit(i: nat, j: nat, f: Flags)
    requires i <= j <= ComponentCount
    ensures SizeBefore(i, f) <= SizeBefore(j, f)
    ensures SizeBefore(i, f) == SizeBefore(j, f) <==> forall k :: i <= k < j ==> !Enabled(Canonical[k], f)
  {
    if i < j {
      SizeBeforeSplit(i, j - 1, f);
    }
  }

  /** Offsets never decrease along the canonical order, for every flag word. */
  lemma OffsetsMonotone(i: nat, j: nat, f: Flags)
    requires i <= j < ComponentCount
    ensures Offset(Canonical[i], f) <= Offset(Canonical[j], f)
  {
    if i >= 1 {
      RankOfCanonical(i);
      RankOfCanonical(j);
      SizeBeforeSplit(i, j, f);
    }
  }

  /** Every enabled component ends inside the stride. */
  lemma {:induction false} ComponentInsideStride(c: Component, f: Flags)
    requires Enabled(c, f)
    ensures ScanOffset(c, f) + Size(c) <= CalcVertexSize(f)
  {
    SizeBeforeSplit(Rank(c) + 1, ComponentCount, f);
  }

  /** With the position flag set, the bitangent offset plus its room is the
      stride. */
  lemma BitanEndsAtStride(f: Flags)
    requires HasPositions(f)
    ensures BitanOffset(f) + (if HasTanBitan(f) then BitanSize else 0) == CalcVertexSize(f)
  {
    OffsetIsScanOffset(Bitangent, f);
  }
}
