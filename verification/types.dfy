/** Scalar types shared by the whole model of the rcm container.

    The C++ sources work on raw host memory. Here every unsigned scalar that
    crosses the wire is a bounded natural number of the source's width, and
    every float is its opaque 32-bit pattern read as an unsigned number:
    nothing in the core does float arithmetic, and vertex equality is
    bitwise. The flag word, which the code tests bit by bit, is kept as its
    sixteen bits (module Wire). */
module Types {

  /** One byte of a stream (`uint8_t`, `unsigned char`). */
  type byte = x: nat | x < 0x100

  /** Values of an `unsigned short` / `uint16_t`. */
  type u16 = x: nat | x < 0x1_0000

  /** Values of an `unsigned int` / `uint32_t`. */
  type u32 = x: nat | x < 0x1_0000_0000

  /** One `float`, kept as its IEEE-754 bit pattern. */
  type Float = u32

  /** A vertex index as stored in the index list (`unsigned short`). */
  type Index = u16

  /** The value a C++ pointer may or may not point at. */
  datatype Option<+T> = None | Some(value: T)

  /** C's conversion of an integer to `uint8_t`, `unsigned short` and
      `unsigned int`: the value modulo the type's range. */
  function ToU8(n: int): byte { n % 0x100 }

  function ToU16(n: int): u16 { n % 0x1_0000 }

  function ToU32(n: int): u32 { n % 0x1_0000_0000 }

  /** The lists of `xss` written one after the other. */
  function Flatten<T>(xss: seq<seq<T>>): (r: seq<T>)
  {
    if xss == [] then [] else xss[0] + Flatten(xss[1..])
  }

  /** The `j`-th run of `size` elements of `xs`. */
  function Chunk<T>(xs: seq<T>, size: nat, j: nat): (r: seq<T>)
    requires j * size + size <= |xs|
    ensures |r| == size
  {
    xs[j * size .. j * size + size]
  }

  /** Every list of `xss` has `size` elements. */
  predicate Uniform<T>(xss: seq<seq<T>>, size: nat)
  {
    forall i :: 0 <= i < |xss| ==> |xss[i]| == size
  }

  lemma {:induction false} FlattenAppend<T>(xss: seq<seq<T>>, yss: seq<seq<T>>)
    ensures Flatten(xss + yss) == Flatten(xss) + Flatten(yss)
  {
    if xss == [] {
      assert xss + yss == yss;
    } else {
      assert (xss + yss)[1..] == xss[1..] + yss;
      FlattenAppend(xss[1..], yss);
    }
  }

  /** Flattening lists of one length multiplies the length. */
  lemma {:induction false} FlattenUniformLength<T>(xss: seq<seq<T>>, size: nat)
    requires Uniform(xss, size)
    ensures |Flatten(xss)| == |xss| * size
  {
    if xss != [] {
      FlattenUniformLength(xss[1..], size);
      assert |xss| * size == size + (|xss| - 1) * size;
    }
  }

  /** Flattening lists of one length keeps list `j` as chunk `j`. */
  lemma {:induction false} FlattenUniformChunk<T>(xss: seq<seq<T>>, size: nat, j: nat)
    requires Uniform(xss, size) && j < |xss|
    ensures j * size + size <= |Flatten(xss)|
    ensures Chunk(Flatten(xss), size, j) == xss[j]
  {
    FlattenUniformLength(xss, size);
    ChunkFits(j, |xss|, size);
    if j > 0 {
      FlattenUniformChunk(xss[1..], size, j - 1);
      assert j * size == size + (j - 1) * size;
      assert Flatten(xss)[size..] == Flatten(xss[1..]);
    }
  }

  /** `j * size + size` stays within `count * size` below `count`. */
  lemma {:induction false} ChunkFits(j: nat, count: nat, size: nat)
    requires j < count
    ensures j * size + size <= count * size
    decreases count - j
  {
    if j + 1 < count {
      ChunkFits(j + 1, count, size);
    }
    assert (j + 1) * size == j * size + size;
  }
}
