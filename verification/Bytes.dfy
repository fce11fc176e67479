/** Bytes as numbers: exclusive or, and numbers written most significant byte first. */
module Bytes {
  import opened Arith

  type byte = x: int | 0 <= x < 256

  /** Exclusive or of the low n bits. */
  function XorBits(a: nat, b: nat, n: nat): nat {
    if n == 0 then 0 else 2 * XorBits(a / 2, b / 2, n - 1) + if a % 2 == b % 2 then 0 else 1
  }

  lemma {:induction false} XorBitsBelow(a: nat, b: nat, n: nat)
    ensures XorBits(a, b, n) < Pow2(n)
  {
    if n > 0 {
      XorBitsBelow(a / 2, b / 2, n - 1);
    }
  }

  lemma {:induction false} XorBitsTwice(a: nat, b: nat, n: nat)
    requires a < Pow2(n)
    ensures XorBits(XorBits(a, b, n), b, n) == a
  {
    if n > 0 {
      XorBitsTwice(a / 2, b / 2, n - 1);
      var half, bit := XorBits(a / 2, b / 2, n - 1), if a % 2 == b % 2 then 0 else 1;
      assert (2 * half + bit) / 2 == half && (2 * half + bit) % 2 == bit;
    }
  }

  lemma Pow2OfEight()
    ensures Pow2(8) == 256
  {
    assert Pow2(2) == 4 && Pow2(4) == 16 && Pow2(6) == 64;
  }

  function Xor(a: byte, b: byte): byte {
    Pow2OfEight();
    XorBitsBelow(a, b, 8);
    XorBits(a, b, 8)
  }

  /** Bit i of a number. */
  function Bit(a: nat, i: nat): nat {
    if i == 0 then a % 2 else Bit(a / 2, i - 1)
  }

  /** Every bit says whether the two bits differ. */
  lemma {:induction false} XorBitAt(a: nat, b: nat, n: nat, i: nat)
    requires i < n
    ensures Bit(XorBits(a, b, n), i) == if Bit(a, i) == Bit(b, i) then 0 else 1
  {
    var half, bit := XorBits(a / 2, b / 2, n - 1), if a % 2 == b % 2 then 0 else 1;
    assert (2 * half + bit) / 2 == half && (2 * half + bit) % 2 == bit;
    if i > 0 {
      XorBitAt(a / 2, b / 2, n - 1, i - 1);
    }
  }

  lemma XorTwice(a: byte, b: byte)
    ensures Xor(Xor(a, b), b) == a
  {
    Pow2OfEight();
    XorBitsTwice(a, b, 8);
  }

  /** The number written in s, most significant byte first. */
  function Number(s: seq<byte>): nat {
    if s == [] then 0 else 256 * Number(s[..|s| - 1]) + s[|s| - 1]
  }

  /** v in n bytes, most significant first. */
  function BigEndian(v: nat, n: nat): (s: seq<byte>)
    ensures |s| == n
  {
    if n == 0 then [] else BigEndian(v / 256, n - 1) + [v % 256]
  }

  function Capacity(n: nat): (c: nat)
    ensures c > 0
  {
    if n == 0 then 1 else 256 * Capacity(n - 1)
  }

  lemma {:induction false} NumberOfBigEndian(v: nat, n: nat)
    requires v < Capacity(n)
    ensures Number(BigEndian(v, n)) == v
  {
    if n > 0 {
      NumberOfBigEndian(v / 256, n - 1);
      assert BigEndian(v, n)[..n - 1] == BigEndian(v / 256, n - 1);
    }
  }

  lemma TwoBytes(s: seq<byte>)
    requires |s| == 2
    ensures Number(s) == (s[0] as int) * 256 + s[1] as int
  {
    assert s[..1] == [s[0]] && Number([s[0]][..0]) == 0;
  }

  /** Two bytes hold a number up to a multiple of 65536. */
  lemma NumberOfTwo(v: nat)
    ensures Number(BigEndian(v, 2)) == v % 65536
  {
    TwoBytes(BigEndian(v, 2));
    assert BigEndian(v / 256, 1) == [] + [v / 256 % 256];
    assert BigEndian(v, 2) == [v / 256 % 256, v % 256];
  }
}
