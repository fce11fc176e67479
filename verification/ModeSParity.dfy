/**
 The Mode S parity of Source/Aviation/ADSB.cpp:92-140 and ADSB.h:217-247: the table-driven
 register against polynomial division by 0x1FFF409, and what the check detects.
 */
module ModeSParity {
  import opened Algebra
  import opened Arith
  import opened LinearRegister

  // ---------------------------------------------------------------- the table, row by row

  function Row0(i: bv8): bv32 {
    match i
    case 0 => 0x000000 case 1 => 0xfff409 case 2 => 0x001c1b case 3 => 0xffe812
    case 4 => 0x003836 case 5 => 0xffcc3f case 6 => 0x00242d case 7 => 0xffd024
    case 8 => 0x00706c case 9 => 0xff8465 case 10 => 0x006c77 case 11 => 0xff987e
    case 12 => 0x00485a case 13 => 0xffbc53 case 14 => 0x005441 case _ => 0xffa048
  }

  function Row1(i: bv8): bv32 {
    match i
    case 0 => 0x00e0d8 case 1 => 0xff14d1 case 2 => 0x00fcc3 case 3 => 0xff08ca
    case 4 => 0x00d8ee case 5 => 0xff2ce7 case 6 => 0x00c4f5 case 7 => 0xff30fc
    case 8 => 0x0090b4 case 9 => 0xff64bd case 10 => 0x008caf case 11 => 0xff78a6
    case 12 => 0x00a882 case 13 => 0xff5c8b case 14 => 0x00b499 case _ => 0xff4090
  }

  function Row2(i: bv8): bv32 {
    match i
    case 0 => 0x01c1b0 case 1 => 0xfe35b9 case 2 => 0x01ddab case 3 => 0xfe29a2
    case 4 => 0x01f986 case 5 => 0xfe0d8f case 6 => 0x01e59d case 7 => 0xfe1194
    case 8 => 0x01b1dc case 9 => 0xfe45d5 case 10 => 0x01adc7 case 11 => 0xfe59ce
    case 12 => 0x0189ea case 13 => 0xfe7de3 case 14 => 0x0195f1 case _ => 0xfe61f8
  }

  function Row3(i: bv8): bv32 {
    match i
    case 0 => 0x012168 case 1 => 0xfed561 case 2 => 0x013d73 case 3 => 0xfec97a
    case 4 => 0x01195e case 5 => 0xfeed57 case 6 => 0x010545 case 7 => 0xfef14c
    case 8 => 0x015104 case 9 => 0xfea50d case 10 => 0x014d1f case 11 => 0xfeb916
    case 12 => 0x016932 case 13 => 0xfe9d3b case 14 => 0x017529 case _ => 0xfe8120
  }

  function Row4(i: bv8): bv32 {
    match i
    case 0 => 0x038360 case 1 => 0xfc7769 case 2 => 0x039f7b case 3 => 0xfc6b72
    case 4 => 0x03bb56 case 5 => 0xfc4f5f case 6 => 0x03a74d case 7 => 0xfc5344
    case 8 => 0x03f30c case 9 => 0xfc0705 case 10 => 0x03ef17 case 11 => 0xfc1b1e
    case 12 => 0x03cb3a case 13 => 0xfc3f33 case 14 => 0x03d721 case _ => 0xfc2328
  }

  function Row5(i: bv8): bv32 {
    match i
    case 0 => 0x0363b8 case 1 => 0xfc97b1 case 2 => 0x037fa3 case 3 => 0xfc8baa
    case 4 => 0x035b8e case 5 => 0xfcaf87 case 6 => 0x034795 case 7 => 0xfcb39c
    case 8 => 0x0313d4 case 9 => 0xfce7dd case 10 => 0x030fcf case 11 => 0xfcfbc6
    case 12 => 0x032be2 case 13 => 0xfcdfeb case 14 => 0x0337f9 case _ => 0xfcc3f0
  }

  function Row6(i: bv8): bv32 {
    match i
    case 0 => 0x0242d0 case 1 => 0xfdb6d9 case 2 => 0x025ecb case 3 => 0xfdaac2
    case 4 => 0x027ae6 case 5 => 0xfd8eef case 6 => 0x0266fd case 7 => 0xfd92f4
    case 8 => 0x0232bc case 9 => 0xfdc6b5 case 10 => 0x022ea7 case 11 => 0xfddaae
    case 12 => 0x020a8a case 13 => 0xfdfe83 case 14 => 0x021691 case _ => 0xfde298
  }

  function Row7(i: bv8): bv32 {
    match i
    case 0 => 0x02a208 case 1 => 0xfd5601 case 2 => 0x02be13 case 3 => 0xfd4a1a
    case 4 => 0x029a3e case 5 => 0xfd6e37 case 6 => 0x028625 case 7 => 0xfd722c
    case 8 => 0x02d264 case 9 => 0xfd266d case 10 => 0x02ce7f case 11 => 0xfd3a76
    case 12 => 0x02ea52 case 13 => 0xfd1e5b case 14 => 0x02f649 case _ => 0xfd0240
  }

  function Row8(i: bv8): bv32 {
    match i
    case 0 => 0x0706c0 case 1 => 0xf8f2c9 case 2 => 0x071adb case 3 => 0xf8eed2
    case 4 => 0x073ef6 case 5 => 0xf8caff case 6 => 0x0722ed case 7 => 0xf8d6e4
    case 8 => 0x0776ac case 9 => 0xf882a5 case 10 => 0x076ab7 case 11 => 0xf89ebe
    case 12 => 0x074e9a case 13 => 0xf8ba93 case 14 => 0x075281 case _ => 0xf8a688
  }

  function Row9(i: bv8): bv32 {
    match i
    case 0 => 0x07e618 case 1 => 0xf81211 case 2 => 0x07fa03 case 3 => 0xf80e0a
    case 4 => 0x07de2e case 5 => 0xf82a27 case 6 => 0x07c235 case 7 => 0xf8363c
    case 8 => 0x079674 case 9 => 0xf8627d case 10 => 0x078a6f case 11 => 0xf87e66
    case 12 => 0x07ae42 case 13 => 0xf85a4b case 14 => 0x07b259 case _ => 0xf84650
  }

  function RowA(i: bv8): bv32 {
    match i
    case 0 => 0x06c770 case 1 => 0xf93379 case 2 => 0x06db6b case 3 => 0xf92f62
    case 4 => 0x06ff46 case 5 => 0xf90b4f case 6 => 0x06e35d case 7 => 0xf91754
    case 8 => 0x06b71c case 9 => 0xf94315 case 10 => 0x06ab07 case 11 => 0xf95f0e
    case 12 => 0x068f2a case 13 => 0xf97b23 case 14 => 0x069331 case _ => 0xf96738
  }

  function RowB(i: bv8): bv32 {
    match i
    case 0 => 0x0627a8 case 1 => 0xf9d3a1 case 2 => 0x063bb3 case 3 => 0xf9cfba
    case 4 => 0x061f9e case 5 => 0xf9eb97 case 6 => 0x060385 case 7 => 0xf9f78c
    case 8 => 0x0657c4 case 9 => 0xf9a3cd case 10 => 0x064bdf case 11 => 0xf9bfd6
    case 12 => 0x066ff2 case 13 => 0xf99bfb case 14 => 0x0673e9 case _ => 0xf987e0
  }

  function RowC(i: bv8): bv32 {
    match i
    case 0 => 0x0485a0 case 1 => 0xfb71a9 case 2 => 0x0499bb case 3 => 0xfb6db2
    case 4 => 0x04bd96 case 5 => 0xfb499f case 6 => 0x04a18d case 7 => 0xfb5584
    case 8 => 0x04f5cc case 9 => 0xfb01c5 case 10 => 0x04e9d7 case 11 => 0xfb1dde
    case 12 => 0x04cdfa case 13 => 0xfb39f3 case 14 => 0x04d1e1 case _ => 0xfb25e8
  }

  function RowD(i: bv8): bv32 {
    match i
    case 0 => 0x046578 case 1 => 0xfb9171 case 2 => 0x047963 case 3 => 0xfb8d6a
    case 4 => 0x045d4e case 5 => 0xfba947 case 6 => 0x044155 case 7 => 0xfbb55c
    case 8 => 0x041514 case 9 => 0xfbe11d case 10 => 0x04090f case 11 => 0xfbfd06
    case 12 => 0x042d22 case 13 => 0xfbd92b case 14 => 0x043139 case _ => 0xfbc530
  }

  function RowE(i: bv8): bv32 {
    match i
    case 0 => 0x054410 case 1 => 0xfab019 case 2 => 0x05580b case 3 => 0xfaac02
    case 4 => 0x057c26 case 5 => 0xfa882f case 6 => 0x05603d case 7 => 0xfa9434
    case 8 => 0x05347c case 9 => 0xfac075 case 10 => 0x052867 case 11 => 0xfadc6e
    case 12 => 0x050c4a case 13 => 0xfaf843 case 14 => 0x051051 case _ => 0xfae458
  }

  function RowF(i: bv8): bv32 {
    match i
    case 0 => 0x05a4c8 case 1 => 0xfa50c1 case 2 => 0x05b8d3 case 3 => 0xfa4cda
    case 4 => 0x059cfe case 5 => 0xfa68f7 case 6 => 0x0580e5 case 7 => 0xfa74ec
    case 8 => 0x05d4a4 case 9 => 0xfa20ad case 10 => 0x05c8bf case 11 => 0xfa3cb6
    case 12 => 0x05ec92 case 13 => 0xfa189b case 14 => 0x05f089 case _ => 0xfa0480
  }

  /** Source/Aviation/ADSB.cpp:92-124, as sixteen rows of sixteen entries. */
  function CrcTable2(i: bv8): bv32 {
    var lo := i & 0xf;
    match i >> 4
    case 0 => Row0(lo)
    case 1 => Row1(lo)
    case 2 => Row2(lo)
    case 3 => Row3(lo)
    case 4 => Row4(lo)
    case 5 => Row5(lo)
    case 6 => Row6(lo)
    case 7 => Row7(lo)
    case 8 => Row8(lo)
    case 9 => Row9(lo)
    case 10 => RowA(lo)
    case 11 => RowB(lo)
    case 12 => RowC(lo)
    case 13 => RowD(lo)
    case 14 => RowE(lo)
    case _ => RowF(lo)
  }

  // ---------------------------------------------------------------- one bit of division

  /** Multiply the 24-bit remainder by x and reduce by the generator. */
  function Step(r: bv32): bv32 {
    if r & 0x800000 != 0 then (r << 1) ^ 0x1FFF409 else r << 1
  }

  const MODE_S: Register<bv32> := Register(0, 1, (a: bv32, b: bv32) => a ^ b, (r: bv32) => Step(r))

  /** 0x1FFF409, leading coefficient first. */
  const GENERATOR: seq<bool> := [
    true,
    true, true, true, true, true, true, true, true,
    true, true, true, true, false, true, false, false,
    false, false, false, false, true, false, false, true]

  lemma XorShift(a: bv32, b: bv32)
    ensures (a ^ b) << 1 == (a << 1) ^ (b << 1)
  {
  }

  lemma XorMask(a: bv32, b: bv32, m: bv32)
    ensures (a ^ b) & m == (a & m) ^ (b & m)
  {
  }

  lemma XorLaws(a: bv32, b: bv32, c: bv32)
    ensures a ^ b == b ^ a && (a ^ b) ^ c == a ^ (b ^ c) && a ^ a == 0 && a ^ 0 == a
  {
  }

  lemma TopBit(a: bv32)
    ensures a & 0x800000 == 0 || a & 0x800000 == 0x800000
  {
  }

  lemma StepLinear(a: bv32, b: bv32)
    ensures Step(a ^ b) == Step(a) ^ Step(b)
  {
    XorMask(a, b, 0x800000);
    XorShift(a, b);
    TopBit(a);
    TopBit(b);
    var g: bv32, p, q := 0x1FFF409, a << 1, b << 1;
    XorLaws(p, q, g);
    XorLaws(p, g, q);
    XorLaws(g, q, p);
    XorLaws(p, g, q ^ g);
    XorLaws(g, q, g);
    XorLaws(q, g, g);
    XorLaws(g, g, q);
  }

  lemma XorReads(a: bv32, b: bv32)
    ensures MODE_S.xor(a, b) == a ^ b
  {
  }

  lemma StepReads(a: bv32)
    ensures MODE_S.step(a) == Step(a)
  {
  }

  lemma StepRespectsXor(a: bv32, b: bv32)
    ensures MODE_S.step(MODE_S.xor(a, b)) == MODE_S.xor(MODE_S.step(a), MODE_S.step(b))
  {
    StepLinear(a, b);
    XorReads(a, b);
    XorReads(Step(a), Step(b));
    StepReads(a);
    StepReads(b);
    StepReads(a ^ b);
  }

  lemma XorAssociates(a: bv32, b: bv32, c: bv32)
    ensures MODE_S.xor(MODE_S.xor(a, b), c) == MODE_S.xor(a, MODE_S.xor(b, c))
  {
    XorLaws(a, b, c);
  }

  lemma XorCommutes(a: bv32, b: bv32)
    ensures MODE_S.xor(a, b) == MODE_S.xor(b, a)
  {
    XorLaws(a, b, a);
  }

  lemma XorUnits(a: bv32)
    ensures MODE_S.xor(a, MODE_S.zero) == a && MODE_S.xor(a, a) == MODE_S.zero
  {
    XorLaws(a, a, a);
  }

  lemma ModeSLinearAt(a: bv32, b: bv32, c: bv32)
    ensures LinearAt(MODE_S, a, b, c)
  {
    XorCommutes(a, b);
    XorAssociates(a, b, c);
    XorUnits(a);
    StepRespectsXor(a, b);
  }

  lemma ModeSIsLinear()
    ensures Linear(MODE_S)
  {
    forall a, b, c | Consider(a, b, c)
      ensures LinearAt(MODE_S, a, b, c)
    {
      ModeSLinearAt(a, b, c);
    }
  }

  lemma StepStaysSmall(r: bv32)
    requires r <= 0xffffff
    ensures Step(r) <= 0xffffff
    ensures Step(r) == 0 ==> r == 0
  {
  }

  lemma {:induction false} StepsStaySmall(r: bv32, k: nat)
    requires r <= 0xffffff
    ensures Steps(MODE_S, r, k) <= 0xffffff
    ensures Steps(MODE_S, r, k) == 0 ==> r == 0
  {
    if k != 0 {
      StepsStaySmall(r, k - 1);
      StepStaysSmall(Steps(MODE_S, r, k - 1));
    }
  }

  lemma {:induction false} RemStaysSmall(bits: seq<bool>)
    ensures Rem(MODE_S, bits) <= 0xffffff
  {
    if |bits| != 0 {
      RemStaysSmall(bits[..|bits| - 1]);
      StepStaysSmall(Rem(MODE_S, bits[..|bits| - 1]));
    }
  }

  // ---------------------------------------------------------------- short messages are their own remainder

  lemma Pow2OfTwentyFour()
    ensures Pow2(24) == 0x1000000
  {
    assert Pow2(4) == 16;
    Pow2Add(4, 4);
    Pow2Add(8, 8);
    Pow2Add(16, 8);
  }

  function AsNat(r: bv32): nat { r as nat }

  lemma ShiftDoubles(r: bv32)
    requires r as nat < 0x800000
    ensures (r << 1) as nat == 2 * (r as nat)
  {
  }

  lemma ShiftInDoubles(r: bv32)
    requires r as nat < 0x800000
    ensures ((r << 1) ^ 1) as nat == 2 * (r as nat) + 1
  {
  }

  lemma NoTopBit(r: bv32)
    requires r as nat < 0x800000
    ensures Step(r) == r << 1
  {
  }

  lemma PushZero(r: bv32)
    ensures Push(MODE_S, r, false) == Step(r)
  {
    StepReads(r);
    XorUnits(Step(r));
  }

  lemma XorOne(t: bv32)
    ensures MODE_S.xor(t, Coefficient(MODE_S, true)) == t ^ 1
  {
  }

  lemma PushOne(r: bv32)
    ensures Push(MODE_S, r, true) == Step(r) ^ 1
  {
    XorOne(Step(r));
  }

  lemma PushOneWithoutCarry(r: bv32)
    requires r as nat < 0x800000
    ensures Push(MODE_S, r, true) as nat == 2 * (r as nat) + 1
  {
    NoTopBit(r);
    PushOne(r);
    ShiftInDoubles(r);
  }

  lemma PushZeroWithoutCarry(r: bv32)
    requires r as nat < 0x800000
    ensures Push(MODE_S, r, false) as nat == 2 * (r as nat)
  {
    NoTopBit(r);
    PushZero(r);
    ShiftDoubles(r);
  }

  lemma ModeSNoCarry()
    ensures NoCarryBelow(MODE_S, AsNat, 24)
  {
    Pow2OfTwentyFour();
    forall r, b | AsNat(r) < Pow2(23)
      ensures AsNat(Push(MODE_S, r, b)) == 2 * AsNat(r) + if b then 1 else 0
    {
      if b {
        PushOneWithoutCarry(r);
      } else {
        PushZeroWithoutCarry(r);
      }
    }
  }

  // ---------------------------------------------------------------- the table is eight steps

  function Step8(r: bv32): bv32 {
    Step(Step(Step(Step(Step(Step(Step(Step(r))))))))
  }

  lemma LowHalf(i: bv8)
    requires i >> 7 == 0
    ensures CrcTable2(i) == Step8((i as bv32) << 16)
  {
  }

  lemma HighHalf(i: bv8)
    requires i >> 7 == 1
    ensures CrcTable2(i) == Step8((i as bv32) << 16)
  {
  }

  /** Every one of the 256 entries is the remainder of its index times x^24. */
  lemma TableIsDivision(i: bv8)
    ensures CrcTable2(i) == Steps(MODE_S, (i as bv32) << 16, 8)
  {
    if i >> 7 == 0 {
      LowHalf(i);
    } else {
      assert i >> 7 == 1;
      HighHalf(i);
    }
    EightSteps(MODE_S, (i as bv32) << 16);
  }

  /** A value with room above it is only shifted. */
  lemma ShiftWithoutReduction(l: bv32)
    ensures l <= 0xffff ==> Step8(l) == l << 8
  {
  }

  lemma StepsShift(l: bv32)
    ensures l <= 0xffff ==> Steps(MODE_S, l, 8) == l << 8
    ensures l <= 0xff ==> Steps(MODE_S, l, 16) == l << 16
  {
    EightSteps(MODE_S, l);
    ShiftWithoutReduction(l);
    if l <= 0xff {
      EightSteps(MODE_S, l << 8);
      ShiftWithoutReduction(l << 8);
      StepsAdd(MODE_S, l, 8, 8);
      ShiftTwice(l);
    }
  }

  lemma ShiftTwice(l: bv32)
    requires l <= 0xff
    ensures l << 8 <= 0xffff && (l << 8) << 8 == l << 16
  {
  }

  // ---------------------------------------------------------------- bytes

  ghost function ByteBits(b: bv8): (s: seq<bool>)
    ensures |s| == 8
  {
    [b & 0x80 != 0, b & 0x40 != 0, b & 0x20 != 0, b & 0x10 != 0,
     b & 0x08 != 0, b & 0x04 != 0, b & 0x02 != 0, b & 0x01 != 0]
  }

  ghost function Bits(bytes: seq<bv8>): seq<bool> {
    BitsOf(ByteBits, bytes)
  }

  lemma ByteRem(b: bv8)
    ensures Rem(MODE_S, ByteBits(b)) == b as bv32
  {
    RemOfEight(MODE_S, ByteBits(b));
    ByteByBits(b);
  }

  lemma ByteByBits(b: bv8)
    ensures Push(MODE_S, Push(MODE_S, Push(MODE_S, Push(MODE_S, Push(MODE_S, Push(MODE_S, Push(MODE_S, Push(MODE_S,
              0, b & 0x80 != 0), b & 0x40 != 0), b & 0x20 != 0), b & 0x10 != 0),
              b & 0x08 != 0), b & 0x04 != 0), b & 0x02 != 0), b & 0x01 != 0) == b as bv32
  {
  }

  // ---------------------------------------------------------------- the parity of a message

  /** The parity of a message: the remainder of its polynomial times x^24. */
  ghost function Parity(data: seq<bv8>): bv32 {
    Rem(MODE_S, Bits(data) + Zeros(24))
  }

  lemma GeneratorIsZero()
    ensures Rem(MODE_S, GENERATOR) == 0
  {
    TopOfGenerator(GENERATOR[..24]);
    assert GENERATOR[..25] == GENERATOR;
    RemTake(MODE_S, GENERATOR, 24);
    LastStep();
  }

  lemma TopOfGenerator(top: seq<bool>)
    requires top == GENERATOR[..24]
    ensures Rem(MODE_S, top) == 0xFFFA04
  {
    ModeSNoCarry();
    ValueOfTop();
    ShortRem(MODE_S, AsNat, 24, top);
    TopWord();
    SameWord(Rem(MODE_S, top), 0xFFFA04 as bv32);
  }

  lemma FromNat(r: bv32, n: nat)
    requires AsNat(r) == n && n < 0x1_0000_0000
    ensures r == n as bv32
  {
  }

  /** A word is known by the number it reads as. */
  lemma SameWord(a: bv32, b: bv32)
    requires AsNat(a) == AsNat(b)
    ensures a == b
  {
    FromNat(a, b as nat);
    FromNat(b, b as nat);
  }

  lemma TopWord()
    ensures AsNat(0xFFFA04 as bv32) == 0xFFFA04
  {
  }

  lemma LastStep()
    ensures Push(MODE_S, 0xFFFA04, true) == 0
  {
  }

  lemma ValueTake(s: seq<bool>, k: nat)
    requires k < |s|
    ensures Value(s[..k + 1]) == 2 * Value(s[..k]) + if s[k] then 1 else 0
  {
    assert s[..k + 1][..k] == s[..k];
  }

  lemma ValueOfTop()
    ensures Value(GENERATOR[..24]) == 0xFFFA04
  {
    var g := GENERATOR;
    ValueTake(g, 0); ValueTake(g, 1); ValueTake(g, 2); ValueTake(g, 3); ValueTake(g, 4); ValueTake(g, 5);
    ValueTake(g, 6); ValueTake(g, 7); ValueTake(g, 8); ValueTake(g, 9); ValueTake(g, 10); ValueTake(g, 11);
    ValueTake(g, 12); ValueTake(g, 13); ValueTake(g, 14); ValueTake(g, 15); ValueTake(g, 16); ValueTake(g, 17);
    ValueTake(g, 18); ValueTake(g, 19); ValueTake(g, 20); ValueTake(g, 21); ValueTake(g, 22); ValueTake(g, 23);
  }

  /** The parity is the remainder of schoolbook division by 0x1FFF409. */
  lemma RemIsRemainder(bits: seq<bool>)
    requires |bits| >= 24
    ensures Rem(MODE_S, bits) as nat == Value(Divide(GENERATOR, bits))
  {
    ModeSIsLinear();
    GeneratorIsZero();
    RemIsDivision(MODE_S, GENERATOR, bits);
    ModeSNoCarry();
    ShortRem(MODE_S, AsNat, 24, Divide(GENERATOR, bits));
  }

  /** The table index of Source/Aviation/ADSB.cpp:135. */
  function TableIndex(rem: bv32, byte: bv8): bv8 {
    byte ^ (((rem & 0xff0000) >> 16) as bv8)
  }

  lemma SplitWord(r: bv32, b: bv8)
    requires r <= 0xffffff
    ensures r ^ ((b as bv32) << 16) == (r & 0xffff) ^ ((TableIndex(r, b) as bv32) << 16)
  {
  }

  lemma TableIsSmall(i: bv8)
    ensures CrcTable2(i) <= 0xffffff
  {
    TableIsDivision(i);
    IndexIsSmall(i);
    StepsStaySmall((i as bv32) << 16, 8);
  }

  lemma IndexIsSmall(i: bv8)
    ensures (i as bv32) << 16 <= 0xffffff && i as bv32 <= 0xff
  {
  }

  lemma LowWord(r: bv32)
    ensures r & 0xffff <= 0xffff && (r & 0xffff) << 8 == (r << 8) & 0xffffff
  {
  }

  lemma MaskSmall(t: bv32)
    requires t <= 0xffffff
    ensures t & 0xffffff == t
  {
  }

  /** One round of the loop of Source/Aviation/ADSB.cpp:133-137. */
  function Round(rem: bv32, byte: bv8): bv32 {
    ((rem << 8) ^ CrcTable2(TableIndex(rem, byte))) & 0xffffff
  }

  lemma RoundSplits(r: bv32, b: bv8)
    ensures Round(r, b) == ((r & 0xffff) << 8) ^ CrcTable2(TableIndex(r, b))
  {
    var t := CrcTable2(TableIndex(r, b));
    TableIsSmall(TableIndex(r, b));
    MaskSmall(t);
    XorMask(r << 8, t, 0xffffff);
    LowWord(r);
  }

  lemma RoundInRegister(r: bv32, b: bv8)
    ensures Round(r, b)
         == MODE_S.xor(Steps(MODE_S, r & 0xffff, 8), Steps(MODE_S, (TableIndex(r, b) as bv32) << 16, 8))
  {
    RoundSplits(r, b);
    LowWord(r);
    StepsShift(r & 0xffff);
    TableIsDivision(TableIndex(r, b));
    XorReads((r & 0xffff) << 8, CrcTable2(TableIndex(r, b)));
  }

  lemma WordInRegister(r: bv32, b: bv8)
    requires r <= 0xffffff
    ensures MODE_S.xor(r, (b as bv32) << 16) == MODE_S.xor(r & 0xffff, (TableIndex(r, b) as bv32) << 16)
  {
    SplitWord(r, b);
    XorReads(r, (b as bv32) << 16);
    XorReads(r & 0xffff, (TableIndex(r, b) as bv32) << 16);
  }

  lemma RoundIsEightSteps(r: bv32, b: bv8)
    requires r <= 0xffffff
    ensures Round(r, b) == Steps(MODE_S, MODE_S.xor(r, (b as bv32) << 16), 8)
  {
    ModeSIsLinear();
    RoundInRegister(r, b);
    WordInRegister(r, b);
    StepsLinear(MODE_S, r & 0xffff, (TableIndex(r, b) as bv32) << 16, 8);
  }

  lemma ParityAppend(data: seq<bv8>, b: bv8)
    ensures Parity(data + [b]) == Round(Parity(data), b)
  {
    ModeSIsLinear();
    BitsOfAppend(ByteBits, data, b);
    AppendByte(MODE_S, Bits(data), ByteBits(b));
    ByteRem(b);
    IndexIsSmall(b);
    StepsShift(b as bv32);
    RemStaysSmall(Bits(data) + Zeros(24));
    RoundIsEightSteps(Parity(data), b);
  }

  // ---------------------------------------------------------------- what the check accepts

  function ParityField(bytes: seq<bv8>): bv32
    requires |bytes| >= 3
  {
    var n := |bytes|;
    ((bytes[n - 3] as bv32) << 16) | ((bytes[n - 2] as bv32) << 8) | (bytes[n - 1] as bv32)
  }

  /** The last three bytes carry the parity of the others. */
  ghost predicate Verified(bytes: seq<bv8>) {
    |bytes| >= 3 && Parity(bytes[..|bytes| - 3]) == ParityField(bytes)
  }

  function Join(w: bv32, b: bv8): bv32 {
    (w << 8) ^ (b as bv32)
  }

  /** A byte after at most two others is only shifted in. */
  lemma ShiftInByte(a: seq<bv8>, w: bv32, b: bv8)
    requires Rem(MODE_S, Bits(a)) == w && w <= 0xffff
    ensures Rem(MODE_S, Bits(a + [b])) == Join(w, b)
  {
    ModeSIsLinear();
    BitsOfAppend(ByteBits, a, b);
    RemConcat(MODE_S, Bits(a), ByteBits(b));
    ByteRem(b);
    StepsShift(w);
    XorReads(w << 8, b as bv32);
  }

  lemma JoinBounds(x: bv8, y: bv8)
    ensures Join(0, x) <= 0xffff && Join(Join(0, x), y) <= 0xffff
  {
  }

  lemma JoinOfThree(x: bv8, y: bv8, z: bv8)
    ensures Join(Join(Join(0, x), y), z) == ((x as bv32) << 16) | ((y as bv32) << 8) | (z as bv32)
  {
  }

  lemma ThreeBytes(x: bv8, y: bv8, z: bv8)
    ensures Rem(MODE_S, Bits([] + [x] + [y] + [z])) == Join(Join(Join(0, x), y), z)
  {
    var w1 := Join(0, x);
    var w2 := Join(w1, y);
    JoinBounds(x, y);
    ShiftInByte([], 0, x);
    ShiftInByte([] + [x], w1, y);
    ShiftInByte([] + [x] + [y], w2, z);
  }

  lemma LastThree<B>(s: seq<B>)
    requires |s| >= 3
    ensures var n := |s|;
            s[n - 3..] == [] + [s[n - 3]] + [s[n - 2]] + [s[n - 1]]
  {
  }

  lemma FieldIsItsRemainder(bytes: seq<bv8>)
    requires |bytes| >= 3
    ensures Rem(MODE_S, Bits(bytes[|bytes| - 3..])) == ParityField(bytes)
  {
    var x, y, z := bytes[|bytes| - 3], bytes[|bytes| - 2], bytes[|bytes| - 1];
    ThreeBytes(x, y, z);
    LastThree(bytes);
    JoinOfThree(x, y, z);
  }

  lemma FieldIs24Bits(field: seq<bv8>)
    requires |field| == 3
    ensures |Bits(field)| == 24
  {
    BitsOfLength(ByteBits, field, 8);
  }

  /** The remainder of the message with its parity is the received parity against the computed one. */
  lemma Syndrome(bytes: seq<bv8>)
    requires |bytes| >= 3
    ensures Rem(MODE_S, Bits(bytes)) == MODE_S.xor(Parity(bytes[..|bytes| - 3]), ParityField(bytes))
  {
    ModeSIsLinear();
    var n := |bytes|;
    var data, field := bytes[..n - 3], bytes[n - 3..];
    assert bytes == data + field;
    BitsOfConcat(ByteBits, data, field);
    FieldIs24Bits(field);
    RemSplit(MODE_S, Bits(data), Bits(field));
    FieldIsItsRemainder(bytes);
  }

  lemma XorIsZero32(a: bv32, b: bv32)
    ensures a ^ b == 0 <==> a == b
  {
  }

  lemma VerifiedIffZero(bytes: seq<bv8>)
    requires |bytes| >= 3
    ensures Verified(bytes) <==> Rem(MODE_S, Bits(bytes)) == 0
  {
    var field, parity := ParityField(bytes), Parity(bytes[..|bytes| - 3]);
    SyndromeIsXor(bytes, field, parity);
    XorIsZero32(field, parity);
  }

  lemma ZeroIffDivisible(bits: seq<bool>)
    requires |bits| >= 24
    ensures Rem(MODE_S, bits) == 0 <==> Value(Divide(GENERATOR, bits)) == 0
  {
    RemIsRemainder(bits);
    ZeroReads(Rem(MODE_S, bits));
  }

  /** A message passes the check exactly when 0x1FFF409 divides all of it, parity included. */
  lemma VerifiedIffDivisible(bytes: seq<bv8>)
    requires |bytes| >= 3
    ensures Verified(bytes) <==> Rem(MODE_S, Bits(bytes)) == 0
    ensures |Bits(bytes)| >= 24 && (Verified(bytes) <==> Value(Divide(GENERATOR, Bits(bytes))) == 0)
  {
    VerifiedIffZero(bytes);
    BitsOfLength(ByteBits, bytes, 8);
    ZeroIffDivisible(Bits(bytes));
  }

  lemma ZeroReads(r: bv32)
    ensures r as nat == 0 <==> r == 0
  {
  }

  // ---------------------------------------------------------------- which errors pass

  lemma SameLengthBits(a: seq<bv8>, b: seq<bv8>)
    requires |a| == |b|
    ensures |Bits(a)| == |Bits(b)|
  {
    BitsOfLength(ByteBits, a, 8);
    BitsOfLength(ByteBits, b, 8);
  }

  /** The bits in which two messages of one length differ. */
  ghost function Damage(sent: seq<bv8>, received: seq<bv8>): (e: seq<bool>)
    requires |sent| == |received|
    ensures |e| == |Bits(sent)| == |Bits(received)|
    ensures forall i :: 0 <= i < |e| ==> e[i] == (Bits(sent)[i] != Bits(received)[i])
  {
    SameLengthBits(sent, received);
    XorBits(Bits(sent), Bits(received))
  }

  /** An error pattern goes unnoticed exactly when the generator divides it. */
  lemma UndetectedIffDivisible(sent: seq<bv8>, received: seq<bv8>)
    requires |sent| == |received| && Verified(sent)
    ensures Verified(received) <==> Rem(MODE_S, Damage(sent, received)) == 0
  {
    ModeSIsLinear();
    SameLengthBits(sent, received);
    VerifiedIffDivisible(sent);
    VerifiedIffDivisible(received);
    DifferenceDivisible(MODE_S, Bits(sent), Bits(received));
  }

  lemma WindowSurvives(window: seq<bool>, k: nat)
    requires |window| <= 24 && Value(window) != 0
    ensures Steps(MODE_S, Rem(MODE_S, window), k) != 0
  {
    ModeSNoCarry();
    ShortRem(MODE_S, AsNat, 24, window);
    ZeroReads(Rem(MODE_S, window));
    RemStaysSmall(window);
    StepsStaySmall(Rem(MODE_S, window), k);
  }

  /** Any damage confined to 24 consecutive bits, data or parity, makes the check fail. */
  lemma BurstDetected(sent: seq<bv8>, received: seq<bv8>, start: nat)
    requires |sent| == |received| && Verified(sent)
    requires Bits(sent) != Bits(received) && Burst(Damage(sent, received), start, 24)
    ensures !Verified(received)
  {
    var e := Damage(sent, received);
    UndetectedIffDivisible(sent, received);
    assert exists i :: 0 <= i < |e| && e[i];
    ModeSIsLinear();
    var window, k := BurstRemainder(MODE_S, e, start, 24);
    WindowSurvives(window, k);
  }

  /** The value of CRC_UNDEFINED, -1, as the unsigned word it is compared with. */
  const CRC_UNDEFINED: bv32 := 0xFFFFFFFF

  /** The fields of Source/Aviation/ADSB.h:81-106 that take part in the check. */
  class Message {
    const msg: array<bv8>
    var len: nat
    var crc: bv32
    var hexident: bv32

    ghost predicate Valid()
      reads this
    {
      len <= msg.Length
    }

    ghost function Received(): seq<bv8>
      requires Valid()
      reads this, msg
    {
      msg[..len]
    }

    ghost function Data(): seq<bv8>
      requires Valid()
      reads this, msg
    {
      if len < 3 then [] else msg[..len - 3]
    }

    constructor (buffer: array<bv8>, n: nat)
      requires n <= buffer.Length
      ensures Valid() && msg == buffer && len == n && crc == CRC_UNDEFINED
    {
      msg, len, crc, hexident := buffer, n, CRC_UNDEFINED, 0;
    }

    /** Source/Aviation/ADSB.cpp:129-140 */
    method CalcCRC() returns (rem: bv32)
      requires Valid()
      ensures rem == Parity(Data())
      ensures rem as nat == Value(Divide(GENERATOR, Bits(Data()) + Zeros(24)))
    {
      rem := 0;
      EmptyParity();
      var i := 0;
      while i + 3 < len
        invariant len < 3 || i + 3 <= len
        invariant len < 3 ==> i == 0
        invariant rem == Parity(msg[..i])
      {
        ParityAppend(msg[..i], msg[i]);
        assert msg[..i + 1] == msg[..i] + [msg[i]];
        rem := Round(rem, msg[i]);
        i := i + 1;
      }
      assert msg[..i] == Data();
      RemIsRemainder(Bits(Data()) + Zeros(24));
    }

    /** Source/Aviation/ADSB.h:217-229 */
    method SetCRC()
      requires Valid()
      modifies this`crc
      ensures crc == if len >= 3 then ParityField(Received()) else CRC_UNDEFINED
    {
      if len >= 3 {
        crc := ((msg[len - 3] as bv32) << 16) | ((msg[len - 2] as bv32) << 8) | (msg[len - 1] as bv32);
      } else {
        crc := CRC_UNDEFINED;
      }
    }

    /** The received parity against the computed one. */
    static method AddressIn(field: bv32, parity: bv32, ghost all: seq<bv8>, ghost data: seq<bv8>)
      returns (address: bv32)
      requires |all| >= 3 ==> data == all[..|all| - 3] && field == ParityField(all) && parity == Parity(data)
      ensures |all| >= 3 ==> field == Parity(data) ^ address && address as nat == Value(Divide(GENERATOR, Bits(all)))
    {
      address := field ^ parity;
      if |all| >= 3 {
        AddressFound(all, data, field, parity, address);
      }
    }

    /** Source/Aviation/ADSB.h:232-240. The address is what the whole message leaves on division. */
    method SetCRCandICAO()
      requires Valid()
      modifies this`crc, this`hexident
      ensures crc == if len >= 3 then ParityField(Received()) else CRC_UNDEFINED
      ensures len >= 3 ==> hexident as nat == Value(Divide(GENERATOR, Bits(Received())))
      // the transmitter added the address to the parity, and this is that address
      ensures len >= 3 ==> crc == Parity(Data()) ^ hexident
    {
      SetCRC();
      var computed := CalcCRC();
      var address := AddressIn(crc, computed, Received(), Data());
      hexident := address;
    }

    /** Source/Aviation/ADSB.h:242-247 */
    method VerifyCRC() returns (ok: bool)
      requires Valid()
      ensures ok <==> crc == Parity(Data())
    {
      var computed := CalcCRC();
      ok := computed == crc;
    }

    /** setCRC then verifyCRC, as Source/Aviation/ADSB.cpp:287 and 318 or 343 call them. */
    method Check() returns (ok: bool)
      requires Valid()
      modifies this`crc
      ensures ok <==> Verified(Received())
    {
      SetCRC();
      ok := VerifyCRC();
      if len < 3 {
        RemStaysSmall(Bits(Data()) + Zeros(24));
      } else {
        assert Received()[..len - 3] == Data();
      }
    }
  }

  lemma EmptyParity()
    ensures Parity([]) == 0
  {
    ModeSIsLinear();
    RemZeros(MODE_S, 24);
    assert Bits([]) + Zeros(24) == Zeros(24);
  }

  lemma XorReadsSwapped(f: bv32, p: bv32)
    ensures MODE_S.xor(p, f) == f ^ p
  {
    XorCommutes(f, p);
    XorReads(f, p);
  }

  lemma SyndromeIsXor(bytes: seq<bv8>, field: bv32, parity: bv32)
    requires |bytes| >= 3 && field == ParityField(bytes) && parity == Parity(bytes[..|bytes| - 3])
    ensures Rem(MODE_S, Bits(bytes)) == field ^ parity
  {
    Syndrome(bytes);
    XorReadsSwapped(field, parity);
  }

  lemma AddressIsRemainder(bytes: seq<bv8>, field: bv32, parity: bv32, address: bv32)
    requires |bytes| >= 3 && field == ParityField(bytes) && parity == Parity(bytes[..|bytes| - 3])
    requires address == field ^ parity
    ensures field == parity ^ address
    ensures |Bits(bytes)| >= 24 && address as nat == Value(Divide(GENERATOR, Bits(bytes)))
  {
    CancelXor(field, parity);
    SyndromeIsXor(bytes, field, parity);
    BitsOfLength(ByteBits, bytes, 8);
    RemIsRemainder(Bits(bytes));
  }

  lemma AddressFound(all: seq<bv8>, data: seq<bv8>, field: bv32, parity: bv32, address: bv32)
    requires |all| >= 3 && data == all[..|all| - 3] && field == ParityField(all) && parity == Parity(data)
    requires address == field ^ parity
    ensures field == Parity(data) ^ address
    ensures address as nat == Value(Divide(GENERATOR, Bits(all)))
  {
    AddressIsRemainder(all, field, parity, address);
  }

  lemma CancelXor(a: bv32, b: bv32)
    ensures b ^ (a ^ b) == a
  {
  }
}
