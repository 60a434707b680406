/** Bytes as integers, bytewise XOR, and big-endian numbers. */
module Bytes {

  type byte = x: int | 0 <= x < 256

  /** Exclusive or of the low `n` bits of two numbers. */
  function XorBits(a: nat, b: nat, n: nat): nat
  {
    if n == 0 then 0 else (a + b) % 2 + 2 * XorBits(a / 2, b / 2, n - 1)
  }

  function Pow2(n: nat): nat
  {
    if n == 0 then 1 else 2 * Pow2(n - 1)
  }

  lemma {:induction false} XorBitsBound(a: nat, b: nat, n: nat)
    ensures XorBits(a, b, n) < Pow2(n)
  {
    if n > 0 {
      XorBitsBound(a / 2, b / 2, n - 1);
    }
  }

  lemma XorStep(a: nat, b: nat, high: nat)
    ensures ((a + b) % 2 + 2 * high) / 2 == high
    ensures ((a + b) % 2 + 2 * high + b) % 2 == a % 2
    ensures a == a % 2 + 2 * (a / 2)
  {
  }

  lemma {:induction false} XorBitsInvolution(a: nat, b: nat, n: nat)
    requires a < Pow2(n)
    ensures XorBits(XorBits(a, b, n), b, n) == a
  {
    if n > 0 {
      XorStep(a, b, XorBits(a / 2, b / 2, n - 1));
      XorBitsInvolution(a / 2, b / 2, n - 1);
    }
  }

  lemma {:induction false} XorBitsCommutes(a: nat, b: nat, n: nat)
    ensures XorBits(a, b, n) == XorBits(b, a, n)
  {
    if n > 0 {
      XorBitsCommutes(a / 2, b / 2, n - 1);
    }
  }

  lemma Pow8()
    ensures Pow2(8) == 256
  {
    assert Pow2(4) == 16;
  }

  function XorByte(a: byte, b: byte): byte
  {
    XorBitsBound(a, b, 8);
    Pow8();
    XorBits(a, b, 8)
  }

  lemma XorByteLaws(a: byte, b: byte)
    ensures XorByte(XorByte(a, b), b) == a
    ensures XorByte(a, b) == XorByte(b, a)
  {
    Pow8();
    XorBitsInvolution(a, b, 8);
    XorBitsCommutes(a, b, 8);
  }

  /** Bytewise XOR of two strings of the same length. */
  function Xor(a: seq<byte>, b: seq<byte>): (r: seq<byte>)
    requires |a| == |b|
    ensures |r| == |a|
  {
    seq(|a|, i requires 0 <= i < |a| => XorByte(a[i], b[i]))
  }

  /** XOR with the same mask twice is the identity, and the order of the operands is irrelevant. */
  lemma XorLaws(a: seq<byte>, b: seq<byte>)
    requires |a| == |b|
    ensures Xor(Xor(a, b), b) == a
    ensures Xor(a, b) == Xor(b, a)
  {
    forall i | 0 <= i < |a|
      ensures Xor(Xor(a, b), b)[i] == a[i] && Xor(a, b)[i] == Xor(b, a)[i]
    {
      XorByteLaws(a[i], b[i]);
    }
  }

  function Pow256(w: nat): nat
  {
    if w == 0 then 1 else 256 * Pow256(w - 1)
  }

  /** The low `w` bytes of `n`, most significant first. */
  function BigEndian(n: nat, w: nat): (b: seq<byte>)
    ensures |b| == w
  {
    if w == 0 then [] else BigEndian(n / 256, w - 1) + [n % 256]
  }

  function FromBigEndian(b: seq<byte>): nat
  {
    if b == [] then 0 else 256 * FromBigEndian(b[..|b| - 1]) + b[|b| - 1]
  }

  lemma {:induction false} BigEndianRoundTrip(n: nat, w: nat)
    requires n < Pow256(w)
    ensures FromBigEndian(BigEndian(n, w)) == n
  {
    if w > 0 {
      BigEndianRoundTrip(n / 256, w - 1);
      assert BigEndian(n, w)[..w - 1] == BigEndian(n / 256, w - 1);
    }
  }

  lemma {:induction false} BigEndianOfBytes(b: seq<byte>)
    ensures FromBigEndian(b) < Pow256(|b|) && BigEndian(FromBigEndian(b), |b|) == b
  {
    if b != [] {
      var rest := b[..|b| - 1];
      BigEndianOfBytes(rest);
      assert FromBigEndian(b) / 256 == FromBigEndian(rest) && FromBigEndian(b) % 256 == b[|b| - 1];
    }
  }

  const U16_SIZE := 0x1_0000
  const U64_SIZE := 0x1_0000_0000_0000_0000

  lemma WordSizes()
    ensures Pow256(2) == U16_SIZE && Pow256(8) == U64_SIZE
  {
    assert Pow256(4) == 0x1_0000_0000;
    assert Pow256(6) == 0x1_0000_0000_0000;
  }

  lemma U16RoundTrip(n: nat)
    requires n < U16_SIZE
    ensures FromBigEndian(BigEndian(n, 2)) == n
  {
    WordSizes();
    BigEndianRoundTrip(n, 2);
  }

  lemma U64RoundTrip(n: nat)
    requires n < U64_SIZE
    ensures FromBigEndian(BigEndian(n, 8)) == n
  {
    WordSizes();
    BigEndianRoundTrip(n, 8);
  }

  lemma U16OfBytes(b: seq<byte>)
    requires |b| == 2
    ensures FromBigEndian(b) < U16_SIZE && BigEndian(FromBigEndian(b), 2) == b
  {
    WordSizes();
    BigEndianOfBytes(b);
  }

  lemma U64OfBytes(b: seq<byte>)
    requires |b| == 8
    ensures FromBigEndian(b) < U64_SIZE && BigEndian(FromBigEndian(b), 8) == b
  {
    WordSizes();
    BigEndianOfBytes(b);
  }
}
