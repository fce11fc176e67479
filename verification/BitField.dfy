/**
  ADSB::getUint: a field of at most 32 bits anywhere in a message, read with one five-byte load, a
  shift and a mask.
*/
module BitField {
  import opened Arith
  import opened Bytes

  /** Bit i of a message, the most significant bit of a byte first. */
  function BitAt(msg: seq<byte>, i: nat): nat
    requires i / 8 < |msg|
  {
    (msg[i / 8] / Pow2(7 - i % 8)) % 2
  }

  /** The number that n bits from `start` on spell. */
  function FieldOf(msg: seq<byte>, start: nat, n: nat): nat
    requires start + n <= 8 * |msg|
  {
    if n == 0 then 0 else 2 * FieldOf(msg, start, n - 1) + BitAt(msg, start + n - 1)
  }

  function Five(b: seq<byte>): nat
    requires |b| == 5
  {
    ((((b[0] as int) * 256 + b[1] as int) * 256 + b[2] as int) * 256 + b[3] as int) * 256 + b[4] as int
  }

  /** Shifting further and masking one bit less leaves all but the last bit. */
  lemma OneBitMore(w: nat, s: nat, n: nat)
    requires n > 0
    ensures (w / Pow2(s)) % Pow2(n) == 2 * ((w / Pow2(s + 1)) % Pow2(n - 1)) + (w / Pow2(s)) % 2
  {
    var v := w / Pow2(s);
    HalveQuotient(w, Pow2(s));
    var q, r := (v / 2) / Pow2(n - 1), (v / 2) % Pow2(n - 1);
    DivMod(v / 2, Pow2(n - 1));
    MulAssoc(2, q, Pow2(n - 1));
    MulAssoc(q, 2, Pow2(n - 1));
    assert v == q * Pow2(n) + (2 * r + v % 2);
    DivModUnique(q, Pow2(n), 2 * r + v % 2);
  }

  /** Bit i of five bytes, counted from the top, is a bit of byte i/8. */
  lemma BitOfFive(b: seq<byte>, i: nat)
    requires |b| == 5 && i < 40
    ensures (Five(b) / Pow2(39 - i)) % 2 == BitAt(b, i)
  {
    var k, y := i / 8, i % 8;
    assert 39 - i == 8 * (4 - k) + (7 - y);
    TopBytes(b, k);
    Pow2Add(8 * (4 - k), 7 - y);
    DivProduct(Five(b), Pow2(8 * (4 - k)), Pow2(7 - y));
    LowByte(Above(b, k), b[k], 7 - y);
  }

  /** The number that the bytes before byte k spell. */
  function Above(b: seq<byte>, k: nat): nat
    requires k <= |b|
  {
    if k == 0 then 0 else Above(b, k - 1) * 256 + b[k - 1] as int
  }

  lemma {:induction false} ShiftedAbove(b: seq<byte>, k: nat, j: nat)
    requires k + j <= |b|
    ensures Above(b, k + j) / Pow2(8 * j) == Above(b, k)
  {
    if j > 0 {
      var rest := Above(b, k + j - 1);
      Pow2OfEight();
      Pow2Add(8, 8 * (j - 1));
      DivProduct(Above(b, k + j), 256, Pow2(8 * (j - 1)));
      assert (rest * 256 + b[k + j - 1] as int) / 256 == rest;
      ShiftedAbove(b, k, j - 1);
    }
  }

  lemma FiveIsAbove(b: seq<byte>)
    requires |b| == 5
    ensures Five(b) == Above(b, 5)
  {
    assert Above(b, 1) == b[0] as int && Above(b, 2) == Above(b, 1) * 256 + b[1] as int;
    assert Above(b, 3) == Above(b, 2) * 256 + b[2] as int && Above(b, 4) == Above(b, 3) * 256 + b[3] as int;
  }

  lemma TopBytes(b: seq<byte>, k: nat)
    requires |b| == 5 && k < 5
    ensures Five(b) / Pow2(8 * (4 - k)) == Above(b, k) * 256 + b[k] as int
  {
    FiveIsAbove(b);
    ShiftedAbove(b, k + 1, 4 - k);
  }

  lemma DivProduct(w: nat, p: nat, q: nat)
    requires p > 0 && q > 0
    ensures w / (p * q) == (w / p) / q
  {
    var v, low := w / p, w % p;
    DivMod(w, p);
    DivMod(v, q);
    NestedQuotient(w, p, q, v / q, v % q, low);
  }

  lemma NestedQuotient(w: nat, p: nat, q: nat, k: nat, r: nat, low: nat)
    requires r < q && low < p && w == (k * q + r) * p + low
    ensures w / (p * q) == k
  {
    MulAdd(k * q, r, p);
    MulAssoc(k, q, p);
    MulStep(r, q, p);
    MulMonotone(0, r, p);
    assert p * q == q * p;
    DivModUnique(k, q * p, r * p + low);
  }

  /** Whole bytes above do not show in the bits of the byte below. */
  lemma LowByte(a: nat, low: byte, s: nat)
    requires s <= 7
    ensures ((a * 256 + low as int) / Pow2(s)) % 2 == (low / Pow2(s)) % 2
  {
    assert Pow2(1) == 2 && Pow2(2) == 4 && Pow2(3) == 8 && Pow2(4) == 16;
    assert Pow2(5) == 2 * Pow2(4) && Pow2(6) == 2 * Pow2(5) && Pow2(7) == 2 * Pow2(6);
    EvenAbove(a, low, Pow2(s), 128 / Pow2(s));
  }

  lemma EvenAbove(a: nat, low: nat, p: nat, h: nat)
    requires p > 0 && h * p == 128
    ensures ((a * 256 + low) / p) % 2 == (low / p) % 2
  {
    DivMod(low, p);
    MulAssoc(2 * a, h, p);
    MulAdd(2 * a * h, low / p, p);
    DivModUnique(2 * a * h + low / p, p, low % p);
    EvenPlus(a * h, low / p);
    MulAssoc(2, a, h);
  }

  lemma EvenPlus(x: nat, y: nat)
    ensures (2 * x + y) % 2 == y % 2
  {
  }

  lemma {:induction false} FieldOfFive(b: seq<byte>, y: nat, n: nat)
    requires |b| == 5 && y + n <= 40
    ensures (Five(b) / Pow2(40 - y - n)) % Pow2(n) == FieldOf(b, y, n)
  {
    if n > 0 {
      FieldOfFive(b, y, n - 1);
      OneBitMore(Five(b), 40 - y - n, n);
      BitOfFive(b, y + n - 1);
    }
  }

  lemma {:induction false} FieldInMessage(msg: seq<byte>, x: nat, y: nat, n: nat)
    requires x + 5 <= |msg| && y + n <= 40
    ensures FieldOf(msg[x..x + 5], y, n) == FieldOf(msg, 8 * x + y, n)
  {
    if n > 0 {
      FieldInMessage(msg, x, y, n - 1);
      var i := y + n - 1;
      assert (8 * x + i) / 8 == x + i / 8 && (8 * x + i) % 8 == i % 8;
    }
  }

  /** msg is the array with its four bytes of padding; only `length` bytes of it are the message. */
  method GetUint(msg: array<byte>, length: nat, startBit: int, bitLen: nat) returns (v: nat)
    requires length + 4 <= msg.Length && 0 < bitLen <= 32
    ensures startBit < 0 || startBit + bitLen > 8 * length ==> v == 0
    ensures 0 <= startBit && startBit + bitLen <= 8 * length ==> v == FieldOf(msg[..], startBit, bitLen)
  {
    if startBit < 0 || startBit + bitLen > length * 8 {
      return 0;
    }
    var x, y := startBit / 8, startBit % 8;
    var hi := (((msg[x] as int) * 256 + msg[x + 1] as int) * 256 + msg[x + 2] as int) * 256 + msg[x + 3] as int;
    var w := hi * 256 + msg[x + 4] as int;
    v := (w / Pow2(40 - y - bitLen)) % Pow2(bitLen);
    ghost var five := msg[x..x + 5];
    assert w == Five(five);
    FieldOfFive(five, y, bitLen);
    assert five == msg[..][x..x + 5];
    FieldInMessage(msg[..], x, y, bitLen);
  }
}
