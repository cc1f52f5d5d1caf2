/** Vertex welding (`optimizeArrayOfStructs`): the interleaved vertex buffer
    is cut into keys, repeated keys are dropped, and every original vertex
    gets the index of its first occurrence. */
module Weld {
  import opened Types
  import opened RcmInternal

  /** The width of the welding key: the source always allocates
      `Vertex<float> vertex(8)`, whatever the vertex size. */
  const KeySize: nat := 8

  /** Key `i`: floats `8i .. 8i+8` of the buffer. */
  function Key(buf: seq<Float>, i: nat): (v: Vertex)
    requires KeySize * i + KeySize <= |buf|
    ensures Valid(v) && v.size == KeySize
  {
    Vertex(KeySize, buf[KeySize * i .. KeySize * i + KeySize])
  }

  /** The first `count` keys of the buffer, in order. */
  function Keys(buf: seq<Float>, count: nat): (r: seq<Vertex>)
    requires KeySize * count <= |buf|
    ensures |r| == count
    ensures forall i :: 0 <= i < count ==> r[i] == Key(buf, i)
  {
    if count == 0 then [] else Keys(buf, count - 1) + [Key(buf, count - 1)]
  }

  // ------------------------------------------------------ reference weld

  predicate Distinct(xs: seq<Vertex>)
  {
    forall i, j :: 0 <= i < j < |xs| ==> xs[i] != xs[j]
  }

  /** The distinct elements of `xs`, each at the place of its first
      occurrence. */
  function Dedup(xs: seq<Vertex>): (r: seq<Vertex>)
    ensures |r| <= |xs|
    ensures forall x :: x in r <==> x in xs
    ensures Distinct(r)
  {
    if xs == [] then []
    else
      var init := xs[..|xs| - 1];
      var x := xs[|xs| - 1];
      assert xs == init + [x];
      var d := Dedup(init);
      if x in d then d else d + [x]
  }

  /** Where `x` first occurs in `xs`. */
  function IndexOf(xs: seq<Vertex>, x: Vertex): (r: nat)
    requires x in xs
    ensures r < |xs| && xs[r] == x
    ensures x !in xs[..r]
  {
    if xs[0] == x then 0
    else
      assert xs == [xs[0]] + xs[1..];
      var k := IndexOf(xs[1..], x);
      assert xs[..k + 1] == [xs[0]] + xs[1..][..k];
      k + 1
  }

  /** The 16-bit index of every element of `ks` in `d`. */
  function IndexList(d: seq<Vertex>, ks: seq<Vertex>): (r: seq<Index>)
    requires forall k :: k in ks ==> k in d
    ensures |r| == |ks|
    ensures forall i :: 0 <= i < |ks| ==> r[i] == ToU16(IndexOf(d, ks[i]))
  {
    if ks == [] then [] else IndexList(d, ks[..|ks| - 1]) + [ToU16(IndexOf(d, ks[|ks| - 1]))]
  }

  /** The welded vertices of the first `count` keys. */
  function WeldVertices(buf: seq<Float>, count: nat): (r: seq<Vertex>)
    requires KeySize * count <= |buf|
    ensures forall i :: 0 <= i < count ==> Key(buf, i) in r
  {
    var ks := Keys(buf, count);
    assert forall i :: 0 <= i < count ==> ks[i] in ks;
    Dedup(ks)
  }

  /** The index list the weld emits: one entry per original vertex. */
  function WeldIndices(buf: seq<Float>, count: nat): (r: seq<Index>)
    requires KeySize * count <= |buf|
    ensures |r| == count
  {
    IndexList(WeldVertices(buf, count), Keys(buf, count))
  }

  /** The welded vertices are among the keys: eight floats each, and no
      more of them than there were vertices. */
  lemma WeldedAreKeys(buf: seq<Float>, count: nat)
    requires KeySize * count <= |buf|
    ensures |WeldVertices(buf, count)| <= count
    ensures forall j :: 0 <= j < |WeldVertices(buf, count)| ==>
      Valid(WeldVertices(buf, count)[j]) && WeldVertices(buf, count)[j].size == KeySize
  {
    var ks := Keys(buf, count);
    var w := WeldVertices(buf, count);
    forall j | 0 <= j < |w|
      ensures Valid(w[j]) && w[j].size == KeySize
    {
      assert w[j] in ks;
      var i :| 0 <= i < |ks| && ks[i] == w[j];
    }
  }

  // -------------------------------------------------- facts about Dedup

  /** The index of an element already in a prefix does not move. */
  lemma {:induction false} IndexOfPrefix(p: seq<Vertex>, q: seq<Vertex>, x: Vertex)
    requires x in p
    ensures IndexOf(p + q, x) == IndexOf(p, x)
  {
    if p[0] != x {
      assert (p + q)[1..] == p[1..] + q;
      IndexOfPrefix(p[1..], q, x);
    }
  }

  /** The index of an element appended to a list that lacks it is the old
      length. */
  lemma IndexOfAppended(p: seq<Vertex>, x: Vertex)
    requires x !in p
    ensures IndexOf(p + [x], x) == |p|
  {
  }

  /** Welding a prefix gives a prefix of the weld: vertices keep the order
      of their first occurrence. */
  lemma {:induction false} DedupPrefix(xs: seq<Vertex>, i: nat)
    requires i <= |xs|
    ensures Dedup(xs[..i]) <= Dedup(xs)
  {
    if i < |xs| {
      DedupPrefix(xs[..|xs| - 1], i);
      assert xs[..|xs| - 1][..i] == xs[..i];
    } else {
      assert xs[..i] == xs;
    }
  }

  /** Welding one more element: it is appended iff it was not yet there. */
  lemma DedupSnoc(xs: seq<Vertex>, x: Vertex)
    ensures Dedup(xs + [x]) == if x in Dedup(xs) then Dedup(xs) else Dedup(xs) + [x]
  {
    assert (xs + [x])[..|xs|] == xs;
  }

  /** An element's index in the weld of a prefix that holds it is its index
      in the weld of the whole list. */
  lemma IndexInPrefixWeld(xs: seq<Vertex>, i: nat, x: Vertex)
    requires i <= |xs| && x in Dedup(xs[..i])
    ensures x in Dedup(xs)
    ensures IndexOf(Dedup(xs), x) == IndexOf(Dedup(xs[..i]), x)
  {
    var upto := Dedup(xs[..i]);
    DedupPrefix(xs, i);
    var d := Dedup(xs);
    assert d == upto + d[|upto|..];
    IndexOfPrefix(upto, d[|upto|..], x);
  }

  /** A vertex seen for the first time gets the index "count before the
      append"; a repeat gets the index of its first occurrence. */
  lemma FirstOccurrenceIndex(xs: seq<Vertex>, i: nat)
    requires i < |xs|
    ensures xs[i] in Dedup(xs)
    ensures xs[i] !in xs[..i] ==> IndexOf(Dedup(xs), xs[i]) == |Dedup(xs[..i])|
    ensures xs[i] in xs[..i] ==> IndexOf(Dedup(xs), xs[i]) == IndexOf(Dedup(xs[..i]), xs[i])
  {
    var x := xs[i];
    var before := Dedup(xs[..i]);
    assert xs[..i + 1] == xs[..i] + [x];
    DedupSnoc(xs[..i], x);
    if x in before {
      IndexOfPrefix(before, [], x);
      assert before + [] == before;
      IndexInPrefixWeld(xs, i + 1, x);
    } else {
      IndexOfAppended(before, x);
      IndexInPrefixWeld(xs, i + 1, x);
    }
  }

  /** With at most 65536 vertices no index wraps, and every index names the
      welded vertex equal to the original one. */
  lemma WeldRecovers(buf: seq<Float>, count: nat, i: nat)
    requires KeySize * count <= |buf|
    requires count <= 0x1_0000
    requires i < count
    ensures WeldIndices(buf, count)[i] < |WeldVertices(buf, count)|
    ensures WeldVertices(buf, count)[WeldIndices(buf, count)[i]] == Key(buf, i)
  {
    var ks := Keys(buf, count);
    var d := WeldVertices(buf, count);
    assert ks[i] == Key(buf, i) && ks[i] in ks;
    var k := IndexOf(d, ks[i]);
    assert k < |d| <= count;
    SmallIndex(k);
  }

  lemma SmallIndex(n: nat)
    requires n < 0x1_0000
    ensures ToU16(n) == n
  {
  }

  /** Past 65536 distinct vertices the 16-bit index wraps: the vertex
      welded in place 65536 gets index 0, the index of another vertex. */
  lemma WeldIndexWraps(d: seq<Vertex>)
    requires Distinct(d) && |d| > 0x1_0000
    ensures ToU16(IndexOf(d, d[0x1_0000])) == 0
    ensures d[ToU16(IndexOf(d, d[0x1_0000]))] != d[0x1_0000]
  {
    var k := IndexOf(d, d[0x1_0000]);
    assert k == 0x1_0000;
  }

  // -------------------------------------------------- the source's loop

  /** `(unsigned short) verticesOut.size() - 1`, stored back into an
      `unsigned short`: the new last position, modulo 65536. */
  function NewIndex(size: nat): (r: Index)
    requires size > 0
    ensures r == ToU16(size - 1)
  {
    ToU16(ToU16(size) - 1)
  }

  /** The map the loop keeps beside `verticesOut`: every welded vertex to
      its 16-bit position, inserted in order. */
  function MapOf(d: seq<Vertex>): (m: map<Vertex, Index>)
  {
    if d == [] then map[]
    else MapOf(d[..|d| - 1])[d[|d| - 1] := ToU16(|d| - 1)]
  }

  /** For distinct vertices the map holds exactly them, each with its
      position. */
  lemma {:induction false} MapOfLookup(d: seq<Vertex>, v: Vertex)
    requires Distinct(d)
    ensures v in MapOf(d) <==> v in d
    ensures v in d ==> MapOf(d)[v] == ToU16(IndexOf(d, v))
  {
    if d != [] {
      var init := d[..|d| - 1];
      var x := d[|d| - 1];
      assert d == init + [x];
      MapOfLookup(init, v);
      if v == x {
        IndexOfAppended(init, x);
      } else if v in init {
        IndexOfPrefix(init, [x], v);
      }
    }
  }

  lemma IndexListSnoc(d: seq<Vertex>, ks: seq<Vertex>, k: Vertex)
    requires forall x :: x in ks ==> x in d
    requires k in d
    ensures IndexList(d, ks + [k]) == IndexList(d, ks) + [ToU16(IndexOf(d, k))]
  {
    assert (ks + [k])[..|ks|] == ks;
  }

  /** Appending to the vertex list does not move the indices of the
      vertices already listed. */
  lemma IndexListExtend(d: seq<Vertex>, e: seq<Vertex>, ks: seq<Vertex>)
    requires forall k :: k in ks ==> k in d
    ensures forall k :: k in ks ==> k in d + e
    ensures IndexList(d + e, ks) == IndexList(d, ks)
  {
    forall i | 0 <= i < |ks|
      ensures IndexList(d + e, ks)[i] == IndexList(d, ks)[i]
    {
      assert ks[i] in ks;
      IndexOfPrefix(d, e, ks[i]);
    }
  }

  /** One more key: it extends the key list, and the weld grows iff the key
      is new. */
  lemma StepKeys(vertices: seq<Float>, i: nat, verticesOut: seq<Vertex>, vertex: Vertex)
    requires KeySize * i + KeySize <= |vertices|
    requires verticesOut == Dedup(Keys(vertices, i))
    requires vertex == Key(vertices, i)
    ensures Keys(vertices, i + 1) == Keys(vertices, i) + [vertex]
    ensures Dedup(Keys(vertices, i + 1)) == if vertex in verticesOut then verticesOut else verticesOut + [vertex]
  {
    DedupSnoc(Keys(vertices, i), vertex);
  }

  /** A key not yet welded is appended to the weld. */
  lemma StepNewWeld(vertices: seq<Float>, i: nat, verticesOut: seq<Vertex>, vertex: Vertex)
    requires KeySize * i + KeySize <= |vertices|
    requires verticesOut == Dedup(Keys(vertices, i))
    requires vertex == Key(vertices, i) && vertex !in verticesOut
    ensures verticesOut + [vertex] == Dedup(Keys(vertices, i + 1))
  {
    StepKeys(vertices, i, verticesOut, vertex);
  }

  /** ... and mapped to the new last position, */
  lemma StepNewMap(verticesOut: seq<Vertex>, vertex: Vertex)
    ensures MapOf(verticesOut + [vertex]) == MapOf(verticesOut)[vertex := ToU16(|verticesOut|)]
  {
    assert (verticesOut + [vertex])[..|verticesOut|] == verticesOut;
  }

  /** ... which is the index emitted for it. */
  lemma StepNewIndices(vertices: seq<Float>, i: nat, verticesOut: seq<Vertex>, vertex: Vertex)
    requires KeySize * i + KeySize <= |vertices|
    requires verticesOut == Dedup(Keys(vertices, i))
    requires vertex == Key(vertices, i) && vertex !in verticesOut
    ensures forall k :: k in Keys(vertices, i + 1) ==> k in verticesOut + [vertex]
    ensures IndexList(verticesOut + [vertex], Keys(vertices, i + 1))
         == IndexList(verticesOut, Keys(vertices, i)) + [ToU16(|verticesOut|)]
  {
    var ks := Keys(vertices, i);
    var next := verticesOut + [vertex];
    StepKeys(vertices, i, verticesOut, vertex);
    IndexOfAppended(verticesOut, vertex);
    IndexListExtend(verticesOut, [vertex], ks);
    IndexListSnoc(next, ks, vertex);
  }

  /** A key already welded keeps the weld and the map and emits its index. */
  lemma StepFound(vertices: seq<Float>, i: nat, verticesOut: seq<Vertex>, vertex: Vertex)
    requires KeySize * i + KeySize <= |vertices|
    requires verticesOut == Dedup(Keys(vertices, i))
    requires vertex == Key(vertices, i) && vertex in verticesOut
    ensures verticesOut == Dedup(Keys(vertices, i + 1))
    ensures IndexList(verticesOut, Keys(vertices, i + 1))
         == IndexList(verticesOut, Keys(vertices, i)) + [ToU16(IndexOf(verticesOut, vertex))]
  {
    StepKeys(vertices, i, verticesOut, vertex);
    IndexListSnoc(verticesOut, Keys(vertices, i), vertex);
  }

  /** The loop's state after `i` keys: the weld of those keys, the map of
      its positions, and one index per key. */
  ghost predicate Welded(vertices: seq<Float>, i: nat, verticesOut: seq<Vertex>,
                         mymap: map<Vertex, Index>, indicesOut: seq<Index>)
    requires KeySize * i <= |vertices|
  {
    && verticesOut == Dedup(Keys(vertices, i))
    && mymap == MapOf(verticesOut)
    && indicesOut == IndexList(verticesOut, Keys(vertices, i))
  }

  /** A new key: the state after it, with the key mapped to the old size. */
  lemma WeldNew(vertices: seq<Float>, i: nat, verticesOut: seq<Vertex>,
                mymap: map<Vertex, Index>, indicesOut: seq<Index>, vertex: Vertex)
    requires KeySize * i + KeySize <= |vertices|
    requires Welded(vertices, i, verticesOut, mymap, indicesOut)
    requires vertex == Key(vertices, i) && vertex !in verticesOut
    ensures Welded(vertices, i + 1, verticesOut + [vertex], mymap[vertex := ToU16(|verticesOut|)],
                   indicesOut + [ToU16(|verticesOut|)])
  {
    StepNewWeld(vertices, i, verticesOut, vertex);
    StepNewMap(verticesOut, vertex);
    StepNewIndices(vertices, i, verticesOut, vertex);
  }

  /** A repeated key: the state after it, with the key's mapped index emitted. */
  lemma WeldFound(vertices: seq<Float>, i: nat, verticesOut: seq<Vertex>,
                  mymap: map<Vertex, Index>, indicesOut: seq<Index>, vertex: Vertex)
    requires KeySize * i + KeySize <= |vertices|
    requires Welded(vertices, i, verticesOut, mymap, indicesOut)
    requires vertex == Key(vertices, i) && vertex in verticesOut
    ensures vertex in mymap
    ensures Welded(vertices, i + 1, verticesOut, mymap, indicesOut + [mymap[vertex]])
  {
    MapOfLookup(verticesOut, vertex);
    StepFound(vertices, i, verticesOut, vertex);
  }

  /** The key the loop builds from the buffer is key `i`. */
  lemma KeyOfSlice(vertices: seq<Float>, vertexSize: nat, i: nat)
    requires vertexSize == KeySize && KeySize * i + KeySize <= |vertices|
    ensures i * vertexSize + vertexSize <= |vertices|
    ensures Vertex(KeySize, vertices[i * vertexSize .. i * vertexSize + vertexSize]) == Key(vertices, i)
  {
  }

  /** One iteration of the loop: key `i` is looked up; a new key is
      appended and mapped to `(unsigned short) size - 1`, and the key's
      index is emitted. */
  method WeldStep(vertices: seq<Float>, vertexSize: nat, i: nat, verticesOut: seq<Vertex>,
                  mymap: map<Vertex, Index>, indicesOut: seq<Index>, index: Index)
    returns (verticesNext: seq<Vertex>, mapNext: map<Vertex, Index>, indicesNext: seq<Index>, indexNext: Index)
    requires vertexSize == KeySize && KeySize * i + KeySize <= |vertices|
    requires Welded(vertices, i, verticesOut, mymap, indicesOut)
    ensures Welded(vertices, i + 1, verticesNext, mapNext, indicesNext)
  {
    KeyOfSlice(vertices, vertexSize, i);
    var a := i * vertexSize;
    var vertex := Vertex(KeySize, vertices[a .. a + vertexSize]);
    MapOfLookup(verticesOut, vertex);
    var lookup := FindVertexIndex(mymap, vertex, index);
    var found := lookup.0;
    indexNext := lookup.1;
    if !found {
      WeldNew(vertices, i, verticesOut, mymap, indicesOut, vertex);
      verticesNext := verticesOut + [vertex];
      var newIndex := NewIndex(|verticesNext|);
      indicesNext := indicesOut + [newIndex];
      mapNext := mymap[vertex := newIndex];
    } else {
      WeldFound(vertices, i, verticesOut, mymap, indicesOut, vertex);
      verticesNext, mapNext := verticesOut, mymap;
      indicesNext := indicesOut + [indexNext];
    }
  }

  /** `optimizeArrayOfStructs`: a `std::map` from key to 16-bit index; a
      key not yet in the map is appended to `verticesOut` and mapped to its
      position, and every key's index is appended to `indicesOut`. */
  method OptimizeArrayOfStructs(vertices: seq<Float>, vertexSize: nat, vertexCount: nat)
    returns (indicesOut: seq<Index>, verticesOut: seq<Vertex>)
    requires vertexSize == KeySize
    requires vertexCount * vertexSize <= |vertices|
    ensures verticesOut == Dedup(Keys(vertices, vertexCount))
    ensures indicesOut == IndexList(verticesOut, Keys(vertices, vertexCount))
    ensures |verticesOut| <= vertexCount && |indicesOut| == vertexCount
  {
    var mymap: map<Vertex, Index> := map[];
    var index: Index := 0;
    indicesOut := [];
    verticesOut := [];
    assert vertexCount * vertexSize == KeySize * vertexCount;
    var i := 0;
    while i < vertexCount
      invariant i <= vertexCount
      invariant KeySize * i <= |vertices|
      invariant Welded(vertices, i, verticesOut, mymap, indicesOut)
    {
      verticesOut, mymap, indicesOut, index := WeldStep(vertices, vertexSize, i, verticesOut, mymap, indicesOut, index);
      i := i + 1;
    }
  }
}
