/**
 * Byte strings and their big-endian reading.
 * Go's `[]byte` and `string` are both byte sequences here.
 */
module Bytes {

  type Byte = b: int | 0 <= b < 256

  /** 256 to the power n: the number of distinct n-byte strings. */
  function Pow256(n: nat): (p: nat)
    ensures p > 0
  {
    if n == 0 then 1 else 256 * Pow256(n - 1)
  }

  /** The unsigned integer whose big-endian bytes are `b` (Go's binary.BigEndian). */
  function BigEndian(b: seq<Byte>): (u: nat)
    ensures u < Pow256(|b|)
  {
    if b == [] then 0
    else
      var rest := BigEndian(b[1..]);
      var p := Pow256(|b| - 1);
      MulStrictBound(b[0], rest, p, 256);
      b[0] * p + rest
  }

  /** The n big-endian bytes of `u`, built from the least significant byte up. */
  function ToBigEndian(u: nat, n: nat): (b: seq<Byte>)
    requires u < Pow256(n)
    ensures |b| == n
  {
    if n == 0 then [] else ToBigEndian(u / 256, n - 1) + [u % 256]
  }

  /** x * p + r < y * p when x < y and r < p. */
  lemma MulStrictBound(x: nat, r: nat, p: nat, y: nat)
    requires x < y && r < p
    ensures x * p + r < y * p
  {
    MulMonotone(x + 1, y, p);
  }

  lemma {:induction false} MulMonotone(a: nat, b: nat, p: nat)
    requires a <= b
    ensures a * p <= b * p
  {
    if a < b {
      MulMonotone(a, b - 1, p);
      assert b * p == (b - 1) * p + p;
    }
  }

  /** Appending a byte shifts the value up by one byte. */
  lemma {:induction false} BigEndianSnoc(t: seq<Byte>, x: Byte)
    ensures BigEndian(t + [x]) == BigEndian(t) * 256 + x
  {
    if t != [] {
      var p := Pow256(|t| - 1);
      assert (t + [x])[1..] == t[1..] + [x];
      BigEndianSnoc(t[1..], x);
      assert Pow256(|t|) == 256 * p;
      assert t[0] * (256 * p) == (t[0] * p) * 256;
    } else {
      assert [] + [x] == [x];
      assert [x][1..] == [];
    }
  }

  /** Reading back what ToBigEndian wrote gives the number. */
  lemma {:induction false} BigEndianOfToBigEndian(u: nat, n: nat)
    requires u < Pow256(n)
    ensures BigEndian(ToBigEndian(u, n)) == u
  {
    if n > 0 {
      BigEndianOfToBigEndian(u / 256, n - 1);
      BigEndianSnoc(ToBigEndian(u / 256, n - 1), u % 256);
    }
  }

  /** Writing out the value of a byte string gives the byte string back. */
  lemma {:induction false} ToBigEndianOfBigEndian(b: seq<Byte>)
    ensures ToBigEndian(BigEndian(b), |b|) == b
  {
    if b != [] {
      var t, x := b[..|b| - 1], b[|b| - 1];
      assert b == t + [x];
      BigEndianSnoc(t, x);
      DivModUnique(BigEndian(b), 256, BigEndian(t), x);
      ToBigEndianOfBigEndian(t);
    }
  }

  lemma DivModUnique(u: nat, p: nat, q: nat, r: nat)
    requires p > 0 && r < p && u == q * p + r
    ensures u / p == q && u % p == r
  {
    var q', r' := u / p, u % p;
    if q' < q {
      MulStrictBound(q', r', p, q);
    } else if q' > q {
      MulStrictBound(q, r, p, q');
    }
  }

  /** Byte-wise lexicographic order, as Go's bytes.Compare(a, b) < 0. */
  predicate LexLess(a: seq<Byte>, b: seq<Byte>)
  {
    if a == [] then b != []
    else b != [] && (a[0] < b[0] || (a[0] == b[0] && LexLess(a[1..], b[1..])))
  }

  /**
   * On strings of one length, lexicographic order is numeric order of the
   * big-endian values: the reason the key encoding sorts correctly.
   */
  lemma {:induction false} LexLessIsNumericOrder(a: seq<Byte>, b: seq<Byte>)
    requires |a| == |b|
    ensures LexLess(a, b) <==> BigEndian(a) < BigEndian(b)
  {
    if a != [] {
      var p := Pow256(|a| - 1);
      var ra, rb := BigEndian(a[1..]), BigEndian(b[1..]);
      assert BigEndian(a) == a[0] * p + ra && ra < p;
      assert BigEndian(b) == b[0] * p + rb && rb < p;
      if a[0] < b[0] {
        MulStrictBound(a[0], ra, p, b[0]);
        MulMonotone(b[0], b[0], p);
      } else if a[0] > b[0] {
        MulStrictBound(b[0], rb, p, a[0]);
      } else {
        LexLessIsNumericOrder(a[1..], b[1..]);
      }
    }
  }
}
