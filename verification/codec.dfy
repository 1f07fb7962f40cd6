/**
 * The order-preserving ("comparable") 64-bit integer codec that the key
 * layouts use for their table, row and index ids: eight big-endian bytes of
 * the value with its sign bit flipped, so that byte order is numeric order.
 */
module Codec {
  import opened Wrappers
  import opened Bytes

  /** The sign bit of a 64-bit word, 0x8000000000000000. */
  const SignMask: nat := 0x8000_0000_0000_0000
  const TwoTo64: nat := 0x1_0000_0000_0000_0000

  type Uint64 = u: int | 0 <= u < 0x1_0000_0000_0000_0000
  type Int64 = v: int | -0x8000_0000_0000_0000 <= v < 0x8000_0000_0000_0000

  /** Width in bytes of an encoded integer. */
  const IntWidth: nat := 8

  datatype CodecError = InsufficientBytes

  /** What DecodeInt returns on success: the bytes after the integer and the integer. */
  datatype IntDecoded = IntDecoded(remain: seq<Byte>, num: Int64)

  /** u XOR SignMask: the same low 63 bits, the top bit toggled. */
  function FlipSignBit(u: Uint64): (w: Uint64)
    ensures w % SignMask == u % SignMask
    ensures (w >= SignMask) <==> (u < SignMask)
  {
    if u >= SignMask then u - SignMask else u + SignMask
  }

  /** Go's conversion int64(u): the two's-complement reading of a 64-bit word. */
  function ToInt64(u: Uint64): (v: Int64)
    ensures (v < 0) <==> (u >= SignMask)
    ensures (v - u) % TwoTo64 == 0
  {
    if u >= SignMask then u - TwoTo64 else u
  }

  /**
   * codec.DecodeInt: decode the first eight bytes of `b` as a comparable
   * int64 and return the rest; fewer than eight bytes is an error.
   * Flipping the sign bit and reading two's complement is the same as
   * subtracting 2^63 from the unsigned big-endian value.
   */
  function DecodeInt(b: seq<Byte>): (r: Result<IntDecoded, CodecError>)
    ensures r.Ok? <==> |b| >= IntWidth
    ensures r.Ok? ==> r.value.remain == b[IntWidth..]
    ensures r.Ok? ==> r.value.num == BigEndian(b[..IntWidth]) - SignMask
  {
    if |b| < IntWidth then Err(InsufficientBytes)
    else
      var u := BigEndian(b[..IntWidth]);
      Ok(IntDecoded(b[IntWidth..], ToInt64(FlipSignBit(u))))
  }

  /** The inverse of DecodeInt: the eight bytes that encode `v`. */
  function EncodeInt(v: Int64): (b: seq<Byte>)
    ensures |b| == IntWidth
  {
    ToBigEndian(v + SignMask, IntWidth)
  }

  /** Decoding an encoded integer gives it back and leaves what follows it. */
  lemma DecodeEncodeInt(v: Int64, rest: seq<Byte>)
    ensures DecodeInt(EncodeInt(v) + rest) == Ok(IntDecoded(rest, v))
  {
    var b := EncodeInt(v) + rest;
    assert b[..IntWidth] == EncodeInt(v);
    assert b[IntWidth..] == rest;
    BigEndianOfToBigEndian(v + SignMask, IntWidth);
  }

  /** Every eight bytes are the encoding of the integer they decode to. */
  lemma EncodeDecodeInt(b: seq<Byte>)
    requires |b| >= IntWidth
    ensures EncodeInt(DecodeInt(b).value.num) == b[..IntWidth]
  {
    ToBigEndianOfBigEndian(b[..IntWidth]);
  }

  /**
   * Order preservation: two encoded integers compare byte-wise as the
   * integers they encode compare numerically.
   */
  lemma DecodeIntPreservesOrder(a: seq<Byte>, b: seq<Byte>)
    requires |a| == IntWidth && |b| == IntWidth
    ensures LexLess(a, b) <==> DecodeInt(a).value.num < DecodeInt(b).value.num
  {
    assert a[..IntWidth] == a && b[..IntWidth] == b;
    LexLessIsNumericOrder(a, b);
  }

  /** Encodings compare bytewise exactly as the integers compare, and distinct integers encode differently. */
  lemma EncodeIntPreservesOrder(x: Int64, y: Int64)
    ensures LexLess(EncodeInt(x), EncodeInt(y)) <==> x < y
    ensures EncodeInt(x) == EncodeInt(y) <==> x == y
  {
    DecodeEncodeInt(x, []);
    DecodeEncodeInt(y, []);
    assert EncodeInt(x) + [] == EncodeInt(x) && EncodeInt(y) + [] == EncodeInt(y);
    DecodeIntPreservesOrder(EncodeInt(x), EncodeInt(y));
  }
}
