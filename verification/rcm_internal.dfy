/** The welding key and the struct-of-arrays record of the writer:
    `Vertex<float>`, whose order and equality are `memcmp` over the float
    bytes, the map lookup `findVertexIndex`, and `ObjectData`. */
module RcmInternal {
  import opened Types
  import opened Wire
  import opened Rcm

  // ------------------------------------------------------------------ memcmp

  /** `memcmp(a, b, n)`: the difference of the first pair of differing
      bytes, read as `unsigned char`, or 0 when the first `n` bytes agree.
      The callers only look at the sign. */
  function MemCmp(a: seq<byte>, b: seq<byte>, n: nat): (r: int)
    requires n <= |a| && n <= |b|
    ensures r == 0 <==> a[..n] == b[..n]
    ensures -0xFF <= r <= 0xFF
  {
    if n == 0 then 0
    else if a[0] != b[0] then a[0] - b[0]
    else
      assert a[..n] == [a[0]] + a[1..][..n - 1];
      assert b[..n] == [b[0]] + b[1..][..n - 1];
      MemCmp(a[1..], b[1..], n - 1)
  }

  lemma {:induction false} MemCmpAntisymmetric(a: seq<byte>, b: seq<byte>, n: nat)
    requires n <= |a| && n <= |b|
    ensures MemCmp(b, a, n) == -MemCmp(a, b, n)
  {
    if n > 0 && a[0] == b[0] {
      MemCmpAntisymmetric(a[1..], b[1..], n - 1);
    }
  }

  lemma {:induction false} MemCmpTransitive(a: seq<byte>, b: seq<byte>, c: seq<byte>, n: nat)
    requires n <= |a| && n <= |b| && n <= |c|
    requires MemCmp(a, b, n) > 0 && MemCmp(b, c, n) > 0
    ensures MemCmp(a, c, n) > 0
  {
    if a[0] == b[0] && b[0] == c[0] {
      MemCmpTransitive(a[1..], b[1..], c[1..], n - 1);
    }
  }

  // ------------------------------------------------------------------ Vertex

  /** `Vertex<float>`: a float array (`values`) together with its length field. */
  datatype Vertex = Vertex(size: nat, values: seq<Float>)

  /** The array holds exactly `size` floats, as `new T[size]` makes it. */
  predicate Valid(v: Vertex) { |v.values| == v.size }

  /** The bytes of the vertex's array in memory. */
  function Image(v: Vertex): seq<byte> { EncodeFloats(v.values) }

  /** `memcmp` reads `sizeof(float) * this->size` bytes of both arrays. */
  predicate Comparable(a: Vertex, b: Vertex)
  {
    a.size <= |a.values| && a.size <= |b.values|
  }

  /** The first `n` floats of an array occupy its first `4 n` bytes. */
  lemma ImagePrefix(xs: seq<Float>, n: nat)
    requires n <= |xs|
    ensures EncodeFloats(xs)[..4 * n] == EncodeFloats(xs[..n])
  {
    assert xs == xs[..n] + xs[n..];
    EncodeFloatsAppend(xs[..n], xs[n..]);
  }

  /** Two float arrays with the same bytes are the same floats. */
  lemma EncodeFloatsInjective(xs: seq<Float>, ys: seq<Float>)
    requires EncodeFloats(xs) == EncodeFloats(ys)
    ensures xs == ys
  {
    FloatsRoundTrip(xs);
    FloatsRoundTrip(ys);
  }

  /** `operator==`: `memcmp(...) == 0`, i.e. the first `a.size` floats are
      bit-identical. There is no tolerance: +0.0 and -0.0 differ. */
  function Equal(a: Vertex, b: Vertex): (r: bool)
    requires Comparable(a, b)
    ensures r <==> a.values[..a.size] == b.values[..a.size]
  {
    ImagePrefix(a.values, a.size);
    ImagePrefix(b.values, a.size);
    if MemCmp(Image(a), Image(b), 4 * a.size) == 0 then
      EncodeFloatsInjective(a.values[..a.size], b.values[..a.size]);
      true
    else
      false
  }

  /** `operator<`: `memcmp(...) > 0`. The order is reversed byte-wise
      lexicographic; `std::map` only needs it to be a strict weak order. */
  function Less(a: Vertex, b: Vertex): (r: bool)
    requires Comparable(a, b)
    ensures r ==> !Equal(a, b)
  {
    MemCmp(Image(a), Image(b), 4 * a.size) > 0
  }

  /** Both operators compare a vertex with another of its own size. */
  predicate SameSize(a: Vertex, b: Vertex)
  {
    Valid(a) && Valid(b) && a.size == b.size
  }

  lemma LessIrreflexive(a: Vertex)
    requires Valid(a)
    ensures !Less(a, a)
  {
  }

  lemma LessAsymmetric(a: Vertex, b: Vertex)
    requires SameSize(a, b)
    ensures Less(a, b) ==> !Less(b, a)
  {
    MemCmpAntisymmetric(Image(a), Image(b), 4 * a.size);
  }

  lemma LessTransitive(a: Vertex, b: Vertex, c: Vertex)
    requires SameSize(a, b) && SameSize(b, c)
    requires Less(a, b) && Less(b, c)
    ensures Less(a, c)
  {
    MemCmpTransitive(Image(a), Image(b), Image(c), 4 * a.size);
  }

  /** Neither vertex orders before the other exactly when they are equal,
      and for vertices of one size that is plain value equality: a map keyed
      by `operator<` finds a vertex iff it holds the same floats. */
  lemma EquivalentIffEqual(a: Vertex, b: Vertex)
    requires SameSize(a, b)
    ensures !Less(a, b) && !Less(b, a) <==> Equal(a, b)
    ensures Equal(a, b) <==> a == b
  {
    MemCmpAntisymmetric(Image(a), Image(b), 4 * a.size);
    assert a.values[..a.size] == a.values && b.values[..a.size] == b.values;
  }

  /** Positive and negative zero differ as keys. */
  lemma SignedZerosDiffer()
    ensures !Equal(Vertex(1, [0x0000_0000]), Vertex(1, [0x8000_0000]))
  {
    var plus := Vertex(1, [0x0000_0000]);
    var minus := Vertex(1, [0x8000_0000]);
    assert plus.values[..1][0] != minus.values[..1][0];
  }

  /** The copy constructor: same `size`, a fresh array of the first `size`
      floats, equal to the original. */
  function Copy(other: Vertex): (r: Vertex)
    requires other.size <= |other.values|
    ensures r.size == other.size && Valid(r)
    ensures Comparable(r, other) && Equal(r, other)
  {
    Vertex(other.size, other.values[..other.size])
  }

  // ---------------------------------------------------------------- lookup

  /** `findVertexIndex`: the mapped index when `vertex` is a key, and
      `result` untouched otherwise; the map itself is not changed. */
  function FindVertexIndex(vertices: map<Vertex, Index>, vertex: Vertex, result: Index): (r: (bool, Index))
    ensures r.0 <==> vertex in vertices
    ensures r.0 ==> r.1 == vertices[vertex]
    ensures !r.0 ==> r.1 == result
  {
    if vertex in vertices then (true, vertices[vertex]) else (false, result)
  }

  /** When every key has the vertex's size, the lookup by value is the
      lookup `std::map::find` performs with `operator<`. */
  lemma FindUsesOrder(vertices: map<Vertex, Index>, vertex: Vertex)
    requires Valid(vertex)
    requires forall k :: k in vertices ==> SameSize(k, vertex)
    ensures FindVertexIndex(vertices, vertex, 0).0 <==>
      exists k :: k in vertices && SameSize(k, vertex) && !Less(k, vertex) && !Less(vertex, k)
  {
    if vertex in vertices {
      LessIrreflexive(vertex);
    }
    forall k | k in vertices && SameSize(k, vertex) && !Less(k, vertex) && !Less(vertex, k)
      ensures k == vertex
    {
      EquivalentIffEqual(k, vertex);
    }
  }

  // ------------------------------------------------------------ ObjectData

  /** `ObjectData`: the flag word and one float column per component. */
  datatype ObjectData = ObjectData(
    vertexFlags: Flags,
    position: seq<Float>, normals: seq<Float>,
    uvs0: seq<Float>, uvs1: seq<Float>, uvs2: seq<Float>, uvs3: seq<Float>,
    color0: seq<Float>, color1: seq<Float>, color2: seq<Float>, color3: seq<Float>,
    tangents: seq<Float>, bitangents: seq<Float>)

  /** A fresh record: every column empty. */
  function EmptyObjectData(f: Flags): ObjectData
  {
    ObjectData(f, [], [], [], [], [], [], [], [], [], [], [], [])
  }

  /** The column of one component. */
  function Column(d: ObjectData, c: Component): seq<Float>
  {
    match c
    case Position => d.position
    case Normal => d.normals
    case TexCoord0 => d.uvs0
    case TexCoord1 => d.uvs1
    case TexCoord2 => d.uvs2
    case TexCoord3 => d.uvs3
    case Color0 => d.color0
    case Color1 => d.color1
    case Color2 => d.color2
    case Color3 => d.color3
    case Tangent => d.tangents
    case Bitangent => d.bitangents
  }

  /** `push_back` of `xs` onto the column of `c`; nothing else changes. */
  function Push(d: ObjectData, c: Component, xs: seq<Float>): (r: ObjectData)
    ensures r.vertexFlags == d.vertexFlags
    ensures Column(r, c) == Column(d, c) + xs
    ensures forall c' :: c' != c ==> Column(r, c') == Column(d, c')
  {
    match c
    case Position => d.(position := d.position + xs)
    case Normal => d.(normals := d.normals + xs)
    case TexCoord0 => d.(uvs0 := d.uvs0 + xs)
    case TexCoord1 => d.(uvs1 := d.uvs1 + xs)
    case TexCoord2 => d.(uvs2 := d.uvs2 + xs)
    case TexCoord3 => d.(uvs3 := d.uvs3 + xs)
    case Color0 => d.(color0 := d.color0 + xs)
    case Color1 => d.(color1 := d.color1 + xs)
    case Color2 => d.(color2 := d.color2 + xs)
    case Color3 => d.(color3 := d.color3 + xs)
    case Tangent => d.(tangents := d.tangents + xs)
    case Bitangent => d.(bitangents := d.bitangents + xs)
  }
}
