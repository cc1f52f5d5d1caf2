/** The byte layout of scalars on the wire.

    The writer dumps raw structs and arrays (`out.write((char*) p, n)`), so the
    file carries the host's byte order. The model fixes little-endian, the
    order of every platform the tool is built for. */
module Wire {
  import opened Types

  /** Little-endian bytes of an `unsigned short`. */
  function EncodeU16(x: u16): (r: seq<byte>)
    ensures |r| == 2
  {
    [x % 0x100, x / 0x100]
  }

  function DecodeU16(b0: byte, b1: byte): u16
  {
    b0 + 0x100 * b1
  }

  /** Little-endian bytes of an `unsigned int` (and of a float's pattern). */
  function EncodeU32(x: u32): (r: seq<byte>)
    ensures |r| == 4
  {
    var q1 := x / 0x100;
    var q2 := q1 / 0x100;
    [x % 0x100, q1 % 0x100, q2 % 0x100, q2 / 0x100]
  }

  function DecodeU32(b0: byte, b1: byte, b2: byte, b3: byte): u32
  {
    b0 + 0x100 * (b1 + 0x100 * (b2 + 0x100 * b3))
  }

  lemma U16RoundTrip(x: u16)
    ensures var b := EncodeU16(x); DecodeU16(b[0], b[1]) == x
  {
  }

  lemma U16Injective(b0: byte, b1: byte)
    ensures EncodeU16(DecodeU16(b0, b1)) == [b0, b1]
  {
  }

  lemma U32RoundTrip(x: u32)
    ensures var b := EncodeU32(x); DecodeU32(b[0], b[1], b[2], b[3]) == x
  {
  }

  lemma U32Injective(b0: byte, b1: byte, b2: byte, b3: byte)
    ensures EncodeU32(DecodeU32(b0, b1, b2, b3)) == [b0, b1, b2, b3]
  {
    var x := DecodeU32(b0, b1, b2, b3);
    assert x / 0x100 == b1 + 0x100 * (b2 + 0x100 * b3);
    assert x / 0x100 / 0x100 == b2 + 0x100 * b3;
  }

  // ------------------------------------------------------------- bit words

  /** A 16-bit word as its bits, least significant first: entry `k` is the
      bit of value `2^k`. */
  type Word16 = b: seq<bool> | |b| == 16
    witness [false, false, false, false, false, false, false, false,
             false, false, false, false, false, false, false, false]

  function Pow2(k: nat): (r: nat)
    ensures r >= 1
  {
    if k == 0 then 1 else 2 * Pow2(k - 1)
  }

  /** The number a sequence of bits stands for, least significant first. */
  function BitsValue(bits: seq<bool>): (n: nat)
    ensures n < Pow2(|bits|)
  {
    if bits == [] then 0 else (if bits[0] then 1 else 0) + 2 * BitsValue(bits[1..])
  }

  /** The low `width` bits of `n`, least significant first. */
  function BitsOf(n: nat, width: nat): (bits: seq<bool>)
    ensures |bits| == width
  {
    if width == 0 then [] else [n % 2 == 1] + BitsOf(n / 2, width - 1)
  }

  lemma {:induction false} BitsOfValue(bits: seq<bool>)
    ensures BitsOf(BitsValue(bits), |bits|) == bits
  {
    if bits != [] {
      BitsOfValue(bits[1..]);
      assert bits == [bits[0]] + bits[1..];
    }
  }

  lemma {:induction false} ValueOfBits(n: nat, width: nat)
    requires n < Pow2(width)
    ensures BitsValue(BitsOf(n, width)) == n
  {
    if width > 0 {
      ValueOfBits(n / 2, width - 1);
      assert BitsOf(n, width)[1..] == BitsOf(n / 2, width - 1);
    }
  }

  /** No bit set is 0, and one bit `k` alone is `2^k`. */
  lemma {:induction false} ZeroBitsValue(bits: seq<bool>)
    requires forall i :: 0 <= i < |bits| ==> !bits[i]
    ensures BitsValue(bits) == 0
  {
    if bits != [] {
      ZeroBitsValue(bits[1..]);
    }
  }

  lemma {:induction false} SingleBitValue(bits: seq<bool>, k: nat)
    requires k < |bits|
    requires forall i :: 0 <= i < |bits| ==> !bits[i]
    ensures BitsValue(bits[k := true]) == Pow2(k)
  {
    if k == 0 {
      ZeroBitsValue(bits[1..]);
      assert bits[k := true][1..] == bits[1..];
    } else {
      SingleBitValue(bits[1..], k - 1);
      assert bits[k := true][1..] == bits[1..][k - 1 := true];
    }
  }

  lemma Pow2Of16()
    ensures Pow2(16) == 0x1_0000
  {
    assert Pow2(8) == 0x100;
  }

  /** The flag word is written as the `uint16_t` it is. */
  function EncodeFlags(f: Word16): (r: seq<byte>)
    ensures |r| == 2
  {
    Pow2Of16();
    EncodeU16(BitsValue(f))
  }

  function DecodeFlags(b0: byte, b1: byte): (f: Word16)
  {
    BitsOf(DecodeU16(b0, b1), 16)
  }

  lemma FlagsRoundTrip(f: Word16)
    ensures var b := EncodeFlags(f); DecodeFlags(b[0], b[1]) == f
  {
    Pow2Of16();
    U16RoundTrip(BitsValue(f));
    BitsOfValue(f);
  }

  lemma FlagsInjective(b0: byte, b1: byte)
    ensures EncodeFlags(DecodeFlags(b0, b1)) == [b0, b1]
  {
    Pow2Of16();
    ValueOfBits(DecodeU16(b0, b1), 16);
    U16Injective(b0, b1);
  }

  /** The byte length of `n` floats, four bytes each. It is spelled as a
      sum so that lengths stay in linear arithmetic. */
  function FloatBytes(n: nat): nat
  {
    n + n + n + n
  }

  /** The byte length of `n` indices, two bytes each. */
  function IndexBytes(n: nat): nat
  {
    n + n
  }

  // The array codecs take one element per step through a second function,
  // so that a use of an array's bytes does not unfold into the arithmetic of
  // its first element unless a proof names that step.

  /** The bytes `out.write((char*) xs, 4 * |xs|)` emits for a float array. */
  function EncodeFloats(xs: seq<Float>): (r: seq<byte>)
    ensures |r| == FloatBytes(|xs|)
    decreases |xs|, 1
  {
    if xs == [] then [] else EncodeFloatsStep(xs)
  }

  /** The first float's bytes, then the rest. */
  function EncodeFloatsStep(xs: seq<Float>): (r: seq<byte>)
    requires xs != []
    ensures |r| == FloatBytes(|xs|)
    decreases |xs|, 0
  {
    EncodeU32(xs[0]) + EncodeFloats(xs[1..])
  }

  /** The floats `in.read((char*) p, |bs|)` stores from a byte run: one per
      four bytes. */
  function DecodeFloats(bs: seq<byte>): (r: seq<Float>)
    ensures FloatBytes(|r|) <= |bs| < FloatBytes(|r|) + 4
    decreases |bs|, 1
  {
    if |bs| < 4 then [] else DecodeFloatsStep(bs)
  }

  /** The float of the first four bytes, then the rest. */
  function DecodeFloatsStep(bs: seq<byte>): (r: seq<Float>)
    requires |bs| >= 4
    ensures FloatBytes(|r|) <= |bs| < FloatBytes(|r|) + 4
    decreases |bs|, 0
  {
    [DecodeU32(bs[0], bs[1], bs[2], bs[3])] + DecodeFloats(bs[4..])
  }

  /** The bytes of an index array (`unsigned short`). */
  function EncodeIndices(xs: seq<Index>): (r: seq<byte>)
    ensures |r| == IndexBytes(|xs|)
    decreases |xs|, 1
  {
    if xs == [] then [] else EncodeIndicesStep(xs)
  }

  /** The first index's bytes, then the rest. */
  function EncodeIndicesStep(xs: seq<Index>): (r: seq<byte>)
    requires xs != []
    ensures |r| == IndexBytes(|xs|)
    decreases |xs|, 0
  {
    EncodeU16(xs[0]) + EncodeIndices(xs[1..])
  }

  /** The indices of a byte run: one per two bytes. */
  function DecodeIndices(bs: seq<byte>): (r: seq<Index>)
    ensures IndexBytes(|r|) <= |bs| < IndexBytes(|r|) + 2
    decreases |bs|, 1
  {
    if |bs| < 2 then [] else DecodeIndicesStep(bs)
  }

  /** The index of the first two bytes, then the rest. */
  function DecodeIndicesStep(bs: seq<byte>): (r: seq<Index>)
    requires |bs| >= 2
    ensures IndexBytes(|r|) <= |bs| < IndexBytes(|r|) + 2
    decreases |bs|, 0
  {
    [DecodeU16(bs[0], bs[1])] + DecodeIndices(bs[2..])
  }

  lemma {:induction false} FloatsRoundTrip(xs: seq<Float>)
    ensures DecodeFloats(EncodeFloats(xs)) == xs
  {
    if xs != [] {
      var e := EncodeFloats(xs);
      U32RoundTrip(xs[0]);
      assert e[4..] == EncodeFloats(xs[1..]);
      FloatsRoundTrip(xs[1..]);
    }
  }

  /** A run of `4n` bytes decodes to `n` floats that encode back to it. */
  lemma {:induction false} FloatsDecodeEncode(bs: seq<byte>, n: nat)
    requires |bs| == FloatBytes(n)
    ensures |DecodeFloats(bs)| == n
    ensures EncodeFloats(DecodeFloats(bs)) == bs
  {
    if n != 0 {
      U32Injective(bs[0], bs[1], bs[2], bs[3]);
      FloatsDecodeEncode(bs[4..], n - 1);
      assert bs == bs[..4] + bs[4..];
    }
  }

  lemma {:induction false} IndicesRoundTrip(xs: seq<Index>)
    ensures DecodeIndices(EncodeIndices(xs)) == xs
  {
    if xs != [] {
      var e := EncodeIndices(xs);
      U16RoundTrip(xs[0]);
      assert e[2..] == EncodeIndices(xs[1..]);
      IndicesRoundTrip(xs[1..]);
    }
  }

  /** A run of `2n` bytes decodes to `n` indices that encode back to it. */
  lemma {:induction false} IndicesDecodeEncode(bs: seq<byte>, n: nat)
    requires |bs| == IndexBytes(n)
    ensures |DecodeIndices(bs)| == n
    ensures EncodeIndices(DecodeIndices(bs)) == bs
  {
    if n != 0 {
      U16Injective(bs[0], bs[1]);
      IndicesDecodeEncode(bs[2..], n - 1);
      assert bs == bs[..2] + bs[2..];
    }
  }

  /** Writing two float arrays one after the other is writing their concatenation. */
  lemma {:induction false} EncodeFloatsAppend(xs: seq<Float>, ys: seq<Float>)
    ensures EncodeFloats(xs + ys) == EncodeFloats(xs) + EncodeFloats(ys)
  {
    if xs != [] {
      assert (xs + ys)[0] == xs[0];
      assert (xs + ys)[1..] == xs[1..] + ys;
      EncodeFloatsAppend(xs[1..], ys);
      calc {
        EncodeFloats(xs + ys);
        EncodeU32(xs[0]) + EncodeFloats(xs[1..] + ys);
        EncodeU32(xs[0]) + (EncodeFloats(xs[1..]) + EncodeFloats(ys));
        (EncodeU32(xs[0]) + EncodeFloats(xs[1..])) + EncodeFloats(ys);
        EncodeFloats(xs) + EncodeFloats(ys);
      }
    } else {
      assert xs + ys == ys;
    }
  }

  /** Float `i` of an encoded array sits at bytes `4i .. 4i+4`. */
  lemma {:induction false} EncodeFloatsAt(xs: seq<Float>, i: nat)
    requires i < |xs|
    ensures EncodeFloats(xs)[4 * i .. 4 * i + 4] == EncodeU32(xs[i])
  {
    var head := EncodeU32(xs[0]);
    var tail := EncodeFloats(xs[1..]);
    assert EncodeFloats(xs) == head + tail;
    if i > 0 {
      EncodeFloatsAt(xs[1..], i - 1);
      assert 4 * i == 4 + 4 * (i - 1);
      assert (head + tail)[4 * i .. 4 * i + 4] == tail[4 * (i - 1) .. 4 * (i - 1) + 4];
    }
  }
}
