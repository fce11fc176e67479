/**
 The fixed-point CIC5 decimators of Source/DSP/DSP.cpp:491-712. I and Q travel in the two 16-bit halves of one
 32-bit word; every addition is one 32-bit addition. The loop is proved to be the five-fold filter on whole words
 modulo 2^32, the words to be two independent filters as long as no half overflows, and the chains to stay in range.
 */
module Cic5 {
  import opened Arith

  const WORD := 0x1_0000_0000
  const HALF := 0x1_0000

  function Add32(a: nat, b: nat): nat {
    (a + b) % WORD
  }

  // ---------------------------------------------------------------- the filter on the whole stream

  /** i cascaded stages 1 + z^-1 at time t, on a stream that was zero before it started. */
  function Cascade(i: nat, x: seq<nat>, t: int): nat {
    if t < 0 || t >= |x| then 0
    else if i == 0 then x[t]
    else Cascade(i - 1, x, t) + Cascade(i - 1, x, t - 1)
  }

  function At(x: seq<nat>, t: int): nat {
    if 0 <= t < |x| then x[t] else 0
  }

  lemma CascadeStep(i: nat, x: seq<nat>, t: int)
    requires i > 0 && t < |x|
    ensures Cascade(i, x, t) == Cascade(i - 1, x, t) + Cascade(i - 1, x, t - 1)
  {
  }

  /** The five stages weigh the last six samples by the binomial coefficients. */
  lemma FiveStages(x: seq<nat>, t: int)
    requires t < |x|
    ensures Cascade(5, x, t)
         == At(x, t) + 5 * At(x, t - 1) + 10 * At(x, t - 2) + 10 * At(x, t - 3) + 5 * At(x, t - 4) + At(x, t - 5)
  {
    ThreeStages(x, t);
    ThreeStages(x, t - 1);
    ThreeStages(x, t - 2);
    CascadeStep(4, x, t);
    CascadeStep(4, x, t - 1);
    CascadeStep(5, x, t);
  }

  lemma ThreeStages(x: seq<nat>, t: int)
    requires t < |x|
    ensures Cascade(3, x, t) == At(x, t) + 3 * At(x, t - 1) + 3 * At(x, t - 2) + At(x, t - 3)
  {
    OneStage(x, t);
    OneStage(x, t - 1);
    OneStage(x, t - 2);
    CascadeStep(2, x, t);
    CascadeStep(2, x, t - 1);
    CascadeStep(3, x, t);
  }

  lemma OneStage(x: seq<nat>, t: int)
    requires t < |x|
    ensures Cascade(1, x, t) == At(x, t) + At(x, t - 1)
  {
    CascadeStep(1, x, t);
  }

  /** Samples still to come do not matter. */
  lemma {:induction false} CascadeCausal(i: nat, x: seq<nat>, y: seq<nat>, t: int)
    requires t < |x|
    ensures Cascade(i, x + y, t) == Cascade(i, x, t)
  {
    if i > 0 && t >= 0 {
      CascadeCausal(i - 1, x, y, t);
      CascadeCausal(i - 1, x, y, t - 1);
    }
  }

  lemma {:induction false} CascadeBound(i: nat, x: seq<nat>, t: int, b: nat)
    requires forall k :: 0 <= k < |x| ==> x[k] <= b
    ensures Cascade(i, x, t) <= Pow2(i) * b
  {
    if 0 <= t < |x| && i > 0 {
      CascadeBound(i - 1, x, t, b);
      CascadeBound(i - 1, x, t - 1, b);
      MulAssoc(2, Pow2(i - 1), b);
    }
  }

  // ---------------------------------------------------------------- two lanes in one word

  function Pack(i: nat, q: nat): nat {
    i + HALF * q
  }

  function PackAll(i: seq<nat>, q: seq<nat>): (w: seq<nat>)
    requires |i| == |q|
    ensures |w| == |i|
  {
    seq(|i|, k requires 0 <= k < |i| => Pack(i[k], q[k]))
  }

  /** The word filter is the packing of the lane filters; this is linearity, and holds without any bound. */
  lemma {:induction false} CascadeOfPacked(n: nat, i: seq<nat>, q: seq<nat>, t: int)
    requires |i| == |q|
    ensures Cascade(n, PackAll(i, q), t) == Pack(Cascade(n, i, t), Cascade(n, q, t))
  {
    if 0 <= t < |i| && n > 0 {
      CascadeOfPacked(n - 1, i, q, t);
      CascadeOfPacked(n - 1, i, q, t - 1);
    }
  }

  /** Bitwise and with the mask 0xFFFF >> shift repeated in both halves; `ones` is 2^(16 - shift). */
  function AndMask(v: nat, ones: nat): nat
    requires ones > 0
  {
    v % ones + HALF * ((v / HALF) % ones)
  }

  function Quotient(x: nat, d: nat): nat
    requires d > 0
  {
    x / d
  }

  function Shr(x: nat, shift: nat): nat {
    Quotient(x, Pow2(shift))
  }

  lemma AndMaskIsWord(v: nat, ones: nat)
    requires 0 < ones <= HALF
    ensures AndMask(v, ones) < WORD
  {
    DivMod(v, ones);
    DivMod(v / HALF, ones);
  }

  /** `(z >> shift) & mask` of Source/DSP/DSP.cpp:515. */
  function ShiftMask(z: nat, shift: nat): (w: nat)
    requires shift <= 16
    ensures w < WORD
  {
    Pow2OfSixteen();
    Pow2Monotone(16 - shift, 16);
    AndMaskIsWord(Shr(z, shift), Pow2(16 - shift));
    AndMask(Shr(z, shift), Pow2(16 - shift))
  }

  lemma Pow2OfSixteen()
    ensures Pow2(16) == HALF
  {
    assert Pow2(4) == 16;
    Pow2Add(4, 4);
    Pow2Add(8, 8);
  }

  /** Dividing the word divides the upper half and lets its low bits fall into the lower one. */
  lemma DividePacked(i: nat, q: nat, p: nat, r: nat)
    requires p > 0 && p * r == HALF
    ensures Pack(i, q) / p == i / p + r * q
  {
    DivMod(i, p);
    MulAssoc(p, r, q);
    MulAssoc(r, q, p);
    MulAdd(i / p, r * q, p);
    DivModUnique(i / p + r * q, p, i % p);
  }

  /** The mask clears them again. */
  lemma MaskPacked(i: nat, q: nat, p: nat, r: nat)
    requires p > 0 && r > 0 && p * r == HALF && i < r && q < HALF
    ensures AndMask(i + r * q, r) == Pack(i, q / p)
  {
    var v := i + r * q;
    assert v % r == i by {
      MulAssoc(q, r, 1);
      DivModUnique(q, r, i);
    }
    assert v / HALF == q / p by {
      DivMod(q, p);
      MulAdd((q / p) * p, q % p, r);
      MulAssoc(q / p, p, r);
      LaneRemainder(q % p, p, r, i);
      DivModUnique(q / p, HALF, (q % p) * r + i);
    }
    HalfQuotient(q, p, r);
    DivModUnique(0, r, q / p);
  }

  /** While both halves fit, shifting and masking the word shifts each half. */
  lemma ShiftMaskLanes(i: nat, q: nat, shift: nat)
    requires shift <= 16 && i < HALF && q < HALF
    ensures ShiftMask(Pack(i, q), shift) == Pack(Shr(i, shift), Shr(q, shift))
  {
    var p, r := Pow2(shift), Pow2(16 - shift);
    Pow2Add(shift, 16 - shift);
    Pow2OfSixteen();
    HalfQuotient(i, p, r);
    DividePacked(i, q, p, r);
    MaskPacked(i / p, q, p, r);
  }

  lemma HalfQuotient(i: nat, p: nat, r: nat)
    requires p > 0 && i < p * r
    ensures i / p < r
  {
    DivMod(i, p);
    if i / p >= r {
      MulMonotone(r, i / p, p);
    }
  }

  lemma LaneRemainder(a: nat, p: nat, r: nat, b: nat)
    requires a < p && b < r
    ensures a * r + b < p * r
  {
    MulStep(a, p, r);
  }

  // ---------------------------------------------------------------- one decimator

  /** What the loop writes for the pair of words 2n, 2n+1 of the stream. */
  function WordOut(x: seq<nat>, shift: nat, n: nat): nat
    requires shift <= 16
  {
    ShiftMask(StageWord(5, x, 2 * n), shift)
  }

  function Words(x: seq<nat>, shift: nat): (y: seq<nat>)
    requires shift <= 16
    ensures |y| == |x| / 2
  {
    seq(|x| / 2, n requires 0 <= n < |x| / 2 => WordOut(x, shift, n))
  }

  /** One integer filter and decimation by two: what a single lane is meant to compute. */
  function Decimate(x: seq<nat>, shift: nat): (y: seq<nat>)
    ensures |y| == |x| / 2
  {
    seq(|x| / 2, n requires 0 <= n < |x| / 2 => Shr(Cascade(5, x, 2 * n), shift))
  }

  predicate Below(x: seq<nat>, b: nat) {
    forall k :: 0 <= k < |x| ==> x[k] <= b
  }

  lemma WordIsLanes(i: seq<nat>, q: seq<nat>, shift: nat, n: nat)
    requires |i| == |q| && shift <= 16 && Below(i, 2047) && Below(q, 2047)
    ensures WordOut(PackAll(i, q), shift, n) == Pack(Shr(Cascade(5, i, 2 * n), shift), Shr(Cascade(5, q, 2 * n), shift))
  {
    SmallPowers();
    CascadeOfPacked(5, i, q, 2 * n);
    CascadeBound(5, i, 2 * n, 2047);
    CascadeBound(5, q, 2 * n, 2047);
    var a, b := Cascade(5, i, 2 * n), Cascade(5, q, 2 * n);
    NoOverflow(a, b);
    ShiftMaskLanes(a, b, shift);
  }

  lemma NoOverflow(a: nat, b: nat)
    requires a < HALF && b < HALF
    ensures Pack(a, b) % WORD == Pack(a, b)
  {
  }

  /** As long as no input exceeds 2047 the halves never touch: the word filter is two separate lane filters. */
  lemma WordsAreLanes(i: seq<nat>, q: seq<nat>, shift: nat)
    requires |i| == |q| && shift <= 16 && Below(i, 2047) && Below(q, 2047)
    ensures Words(PackAll(i, q), shift) == PackAll(Decimate(i, shift), Decimate(q, shift))
  {
    forall n | 0 <= n < |i| / 2
      ensures Words(PackAll(i, q), shift)[n] == PackAll(Decimate(i, shift), Decimate(q, shift))[n]
    {
      WordIsLanes(i, q, shift, n);
    }
  }

  lemma DecimateBelow(x: seq<nat>, shift: nat, b: nat, c: nat)
    requires Below(x, b) && 32 * b <= c * Pow2(shift)
    ensures Below(Decimate(x, shift), c)
  {
    SmallPowers();
    forall n | 0 <= n < |x| / 2
      ensures Decimate(x, shift)[n] <= c
    {
      CascadeBound(5, x, 2 * n, b);
      QuotientBound(Cascade(5, x, 2 * n), Pow2(shift), c);
    }
  }

  lemma QuotientBound(v: nat, p: nat, c: nat)
    requires p > 0 && v <= c * p
    ensures Quotient(v, p) <= c
  {
    DivMod(v, p);
    if v / p > c {
      MulMonotone(c + 1, v / p, p);
      MulAdd(c, 1, p);
    }
  }

  /** A longer stream starts with the same outputs, and each pair adds one. */
  lemma WordsPair(x: seq<nat>, a: nat, b: nat, shift: nat)
    requires shift <= 16 && |x| % 2 == 0
    ensures Words(x + [a, b], shift) == Words(x, shift) + [WordOut(x + [a, b], shift, |x| / 2)]
  {
    forall n | 0 <= n < |x| / 2
      ensures WordOut(x + [a, b], shift, n) == WordOut(x, shift, n)
    {
      CascadeCausal(5, x, [a, b], 2 * n);
    }
  }

  lemma AddCongruent(a: nat, b: nat)
    ensures Add32(a % WORD, b % WORD) == (a + b) % WORD
  {
  }

  /** Stage i at time t as a machine word. */
  function StageWord(i: nat, x: seq<nat>, t: int): nat {
    Cascade(i, x, t) % WORD
  }

  class DS_UINT16 {
    var h0: nat
    var h1: nat
    var h2: nat
    var h3: nat
    var h4: nat
    // every word taken in since construction
    ghost var heard: seq<nat>

    ghost predicate Valid()
      reads this
    {
      var t := |heard| - 1;
      && |heard| % 2 == 0
      && h0 == StageWord(0, heard, t)
      && h1 == StageWord(1, heard, t)
      && h2 == StageWord(2, heard, t)
      && h3 == StageWord(3, heard, t)
      && h4 == StageWord(4, heard, t)
    }

    constructor ()
      ensures Valid() && heard == []
    {
      h0, h1, h2, h3, h4 := 0, 0, 0, 0, 0;
      heard := [];
    }

    /** The macros MA1(0..4) on the first word of a pair and MA2(0..4) on the second, Source/DSP/DSP.cpp:84-90. */
    method TakePair(a: nat, b: nat) returns (z: nat)
      requires Valid() && a < WORD && b < WORD
      modifies this
      ensures Valid() && heard == old(heard) + [a, b]
      ensures z == StageWord(5, heard, |old(heard)|)
    {
      ghost var x := heard + [a, b];
      PairStart(heard, x, a, b);
      PairFact(heard, x, a, b, 0);
      PairFact(heard, x, a, b, 1);
      PairFact(heard, x, a, b, 2);
      PairFact(heard, x, a, b, 3);
      PairFact(heard, x, a, b, 4);
      z := a;
      var r0 := z;
      z := Add32(z, h0);
      var r1 := z;
      z := Add32(z, h1);
      var r2 := z;
      z := Add32(z, h2);
      var r3 := z;
      z := Add32(z, h3);
      var r4 := z;
      z := Add32(z, h4);
      var y := b;
      h0 := y;
      y := Add32(y, r0);
      h1 := y;
      y := Add32(y, r1);
      h2 := y;
      y := Add32(y, r2);
      h3 := y;
      y := Add32(y, r3);
      h4 := y;
      y := Add32(y, r4);
      heard := x;
    }

    /** A pair of words taken in, and the output word for it. */
    method Step(a: nat, b: nat, shift: nat) returns (out: nat)
      requires Valid() && a < WORD && b < WORD && shift <= 16
      modifies this
      ensures Valid() && heard == old(heard) + [a, b] && out < WORD
      ensures Words(heard, shift) == Words(old(heard), shift) + [out]
    {
      WordsPair(heard, a, b, shift);
      var z := TakePair(a, b);
      out := ShiftMask(z, shift);
    }

    /** Source/DSP/DSP.cpp:499-524. The output overwrites the first half of the input while the rest is being read. */
    method Run(data: array<nat>, len: nat, shift: nat) returns (n: nat)
      requires Valid() && len <= data.Length && shift <= 16
      requires forall k :: 0 <= k < len ==> data[k] < WORD
      modifies this, data
      ensures Valid() && n == len / 2 && heard == old(heard) + old(data[..2 * n])
      ensures Words(heard, shift) == Words(old(heard), shift) + data[..n]
      ensures data[n..] == old(data[n..]) && forall k :: 0 <= k < n ==> data[k] < WORD
    {
      n := len / 2;
      var i := 0;
      while i < n
        invariant i <= n && Valid() && heard == old(heard) + old(data[..2 * i])
        invariant Words(heard, shift) == Words(old(heard), shift) + data[..i]
        invariant forall k :: i <= k < data.Length ==> data[k] == old(data[k])
        invariant forall k :: 0 <= k < i ==> data[k] < WORD
      {
        ghost var done := data[..i];
        assert old(data[..2 * i + 2]) == old(data[..2 * i]) + [data[2 * i], data[2 * i + 1]];
        var out := Step(data[2 * i], data[2 * i + 1], shift);
        data[i] := out;
        assert data[..i + 1] == done + [out];
        i := i + 1;
      }
    }

    /** Source/DSP/DSP.cpp:526-583: the same, with the words made from pairs of bytes. */
    method RunBytes(input: seq<nat>, signed: bool, out: array<nat>, len: nat, shift: nat) returns (n: nat)
      requires Valid() && 2 * len <= |input| && len / 2 <= out.Length && shift <= 16
      requires forall k :: 0 <= k < |input| ==> input[k] < 256
      modifies this, out
      ensures Valid() && n == len / 2 && heard == old(heard) + WordsOfBytes(input[..4 * n], signed)
      ensures Words(heard, shift) == Words(old(heard), shift) + out[..n]
      ensures forall k :: 0 <= k < n ==> out[k] < WORD
    {
      n := len / 2;
      var i := 0;
      while i < n
        invariant i <= n && Valid() && heard == old(heard) + WordsOfBytes(input[..4 * i], signed)
        invariant Words(heard, shift) == Words(old(heard), shift) + out[..i]
        invariant forall k :: 0 <= k < i ==> out[k] < WORD
      {
        ghost var done := out[..i];
        var a := WordOfBytes(input[4 * i], input[4 * i + 1], signed);
        var b := WordOfBytes(input[4 * i + 2], input[4 * i + 3], signed);
        MoreBytes(old(heard), input, i, signed);
        var y := Step(a, b, shift);
        out[i] := y;
        assert out[..i + 1] == done + [y];
        i := i + 1;
      }
    }

    /** Source/DSP/DSP.cpp:585-614: the last stage, which turns each word into two fractions. */
    method RunFloat(input: array<nat>, out: array<(real, real)>, len: nat, shift: nat) returns (n: nat)
      requires Valid() && len <= input.Length && len / 2 <= out.Length && shift <= 16
      requires forall k :: 0 <= k < len ==> input[k] < WORD
      modifies this, out
      ensures Valid() && n == len / 2 && heard == old(heard) + input[..2 * n]
      ensures Words(old(heard), shift) <= Words(heard, shift)
      ensures |Words(heard, shift)| == |Words(old(heard), shift)| + n
      ensures forall k :: 0 <= k < n ==> out[k] == Fractions(Words(heard, shift)[|Words(old(heard), shift)| + k])
    {
      n := len / 2;
      var i := 0;
      ghost var base := Words(heard, shift);
      while i < n
        invariant i <= n && Valid() && heard == old(heard) + input[..2 * i]
        invariant base <= Words(heard, shift) && |Words(heard, shift)| == |base| + i
        invariant forall k :: 0 <= k < i ==> out[k] == Fractions(Words(heard, shift)[|base| + k])
      {
        assert input[..2 * i + 2] == input[..2 * i] + [input[2 * i], input[2 * i + 1]];
        var y := Step(input[2 * i], input[2 * i + 1], shift);
        out[i] := Fractions(y);
        i := i + 1;
      }
    }
  }

  /** Two bytes as a word; signed bytes have their sign bits flipped, Source/DSP/DSP.cpp:564-566. */
  function WordOfBytes(i: nat, q: nat, signed: bool): (w: nat)
    requires i < 256 && q < 256
    ensures w < WORD
  {
    Pack(Offset(i, signed), Offset(q, signed))
  }

  /** The byte on a scale from 0 to 255: a signed byte is moved up by 128, modulo 256. */
  function Offset(b: nat, signed: bool): (v: nat)
    requires b < 256
    ensures v < 256
  {
    if signed then (b + 128) % 256 else b
  }

  /** The number a byte stands for as a signed one. */
  function TwosComplement(b: nat): int
    requires b < 256
  {
    if b < 128 then b else b - 256
  }

  /** An unsigned byte is taken as it is, a signed one is raised by 128: its sign bit is flipped. */
  lemma OffsetIs(b: nat)
    requires b < 256
    ensures Offset(b, false) == b
    ensures Offset(b, true) == TwosComplement(b) + 128
  {
  }

  lemma OffsetFlips(b: bv8)
    ensures Offset(b as nat, true) == (b ^ 0x80) as nat
  {
  }

  /** Flipping the sign bit and reading the half as a signed 16-bit number, over 32768. */
  function Fraction(half: nat): real {
    (half as real - 32768.0) / 32768.0
  }

  function Fractions(w: nat): (real, real) {
    (Fraction(w % HALF), Fraction(w / HALF))
  }

  function WordsOfBytes(input: seq<nat>, signed: bool): (w: seq<nat>)
    requires forall k :: 0 <= k < |input| ==> input[k] < 256
    ensures |w| == |input| / 2
  {
    seq(|input| / 2, k requires 0 <= k < |input| / 2 => WordOfBytes(input[2 * k], input[2 * k + 1], signed))
  }

  lemma MoreBytes(before: seq<nat>, input: seq<nat>, i: nat, signed: bool)
    requires 4 * i + 4 <= |input| && forall n :: 0 <= n < |input| ==> input[n] < 256
    ensures var k := 4 * i;
            before + WordsOfBytes(input[..4 * (i + 1)], signed)
            == (before + WordsOfBytes(input[..k], signed))
               + [WordOfBytes(input[k], input[k + 1], signed), WordOfBytes(input[k + 2], input[k + 3], signed)]
  {
    FourBytes(input, 4 * i, 2 * i, signed);
  }

  lemma FourBytes(input: seq<nat>, k: nat, j: nat, signed: bool)
    requires k == 2 * j && k + 4 <= |input| && forall n :: 0 <= n < |input| ==> input[n] < 256
    ensures WordsOfBytes(input[..k + 4], signed)
         == WordsOfBytes(input[..k], signed)
            + [WordOfBytes(input[k], input[k + 1], signed), WordOfBytes(input[k + 2], input[k + 3], signed)]
  {
  }

  /** One more stage at time t, from the stage below at t and at t - 1. */
  lemma StageFact(i: nat, x: seq<nat>, t: int)
    requires 0 <= t < |x|
    ensures Add32(Cascade(i, x, t) % WORD, Cascade(i, x, t - 1) % WORD) == Cascade(i + 1, x, t) % WORD
  {
    CascadeStep(i + 1, x, t);
    AddCongruent(Cascade(i, x, t), Cascade(i, x, t - 1));
  }

  /** How stage i + 1 follows from stage i when a pair of words arrives. */
  lemma PairFact(s: seq<nat>, x: seq<nat>, a: nat, b: nat, i: nat)
    requires x == s + [a, b]
    ensures Add32(StageWord(i, x, |s|), StageWord(i, s, |s| - 1)) == StageWord(i + 1, x, |s|)
    ensures Add32(StageWord(i, x, |s| + 1), StageWord(i, x, |s|)) == StageWord(i + 1, x, |s| + 1)
  {
    CascadeCausal(i, s, [a, b], |s| - 1);
    StageFact(i, x, |s|);
    StageFact(i, x, |s| + 1);
  }

  lemma PairStart(s: seq<nat>, x: seq<nat>, a: nat, b: nat)
    requires x == s + [a, b] && a < WORD && b < WORD
    ensures StageWord(0, x, |s|) == a && StageWord(0, x, |s| + 1) == b
  {
  }

  // ---------------------------------------------------------------- the chains

  /** Filter and decimate once for each shift. */
  function Chain(x: seq<nat>, shifts: seq<nat>): seq<nat> {
    if |shifts| == 0 then x else Decimate(Chain(x, shifts[..|shifts| - 1]), shifts[|shifts| - 1])
  }

  function WordChain(w: seq<nat>, shifts: seq<nat>): seq<nat>
    requires Below(shifts, 16)
  {
    if |shifts| == 0 then w else Words(WordChain(w, shifts[..|shifts| - 1]), shifts[|shifts| - 1])
  }

  /** From place `from` on every element is c. */
  predicate ConstantFrom(x: seq<nat>, from: int, c: nat) {
    forall k :: 0 <= k < |x| && from <= k ==> x[k] == c
  }

  /** A stage has unit gain but for its factor: five samples after the input its output is constant. */
  lemma StageSettles(x: seq<nat>, from: nat, c: nat, shift: nat, d: nat, to: nat)
    requires ConstantFrom(x, from, c) && 32 * c == d * Pow2(shift) && 2 * to >= from + 5
    ensures ConstantFrom(Decimate(x, shift), to, d)
  {
    forall n | 0 <= n < |x| / 2 && to <= n
      ensures Decimate(x, shift)[n] == d
    {
      FiveStages(x, 2 * n);
      DivModUnique(d, Pow2(shift), 0);
    }
  }

  /** A constant level goes through the five stages of the 32-fold decimator with a factor of 256. */
  lemma ChainSettles(x: seq<nat>, c: nat, n: nat)
    requires n < |Chain(x, [3, 4, 5, 5, 0])| && 32 * n >= 155 && ConstantFrom(x, 32 * n - 155, c)
    ensures Chain(x, [3, 4, 5, 5, 0])[n] == 256 * c
  {
    var x1 := Decimate(x, 3);
    var x2 := Decimate(x1, 4);
    var x3 := Decimate(x2, 5);
    var x4 := Decimate(x3, 5);
    FiveDecimations(x);
    SmallPowers();
    assert Pow2(0) == 1;
    StageSettles(x, 32 * n - 155, c, 3, 4 * c, 16 * n - 75);
    StageSettles(x1, 16 * n - 75, 4 * c, 4, 8 * c, 8 * n - 35);
    StageSettles(x2, 8 * n - 35, 8 * c, 5, 8 * c, 4 * n - 15);
    StageSettles(x3, 4 * n - 15, 8 * c, 5, 8 * c, 2 * n - 5);
    StageSettles(x4, 2 * n - 5, 8 * c, 0, 256 * c, n);
  }

  lemma FiveDecimations(x: seq<nat>)
    ensures Chain(x, [3, 4, 5, 5, 0]) == Decimate(Decimate(Decimate(Decimate(Decimate(x, 3), 4), 5), 5), 0)
  {
    assert [3, 4, 5, 5, 0][..4] == [3, 4, 5, 5];
    assert [3, 4, 5, 5][..3] == [3, 4, 5];
    assert [3, 4, 5][..2] == [3, 4];
    assert [3, 4][..1] == [3];
    assert Chain(x, [3]) == Decimate(x, 3);
    assert Chain(x, [3, 4]) == Decimate(Decimate(x, 3), 4);
    assert Chain(x, [3, 4, 5]) == Decimate(Decimate(Decimate(x, 3), 4), 5);
  }

  /** The shifts before the last stage: 3, 4, then 5 for every further stage. */
  predicate Scaling(shifts: seq<nat>) {
    && Below(shifts, 16)
    && (|shifts| > 0 ==> shifts[0] == 3)
    && (|shifts| > 1 ==> shifts[1] == 4)
    && forall k :: 2 <= k < |shifts| ==> shifts[k] == 5
  }

  function StageBound(k: nat): nat {
    if k == 0 then 255 else if k == 1 then 1020 else 2040
  }

  lemma SmallPowers()
    ensures Pow2(3) == 8 && Pow2(4) == 16 && Pow2(5) == 32
  {
    assert Pow2(1) == 2;
  }

  lemma {:induction false} ChainLength(x: seq<nat>, y: seq<nat>, shifts: seq<nat>)
    requires |x| == |y|
    ensures |Chain(x, shifts)| == |Chain(y, shifts)|
  {
    if |shifts| != 0 {
      ChainLength(x, y, shifts[..|shifts| - 1]);
    }
  }

  /** With these shifts every stage keeps its lanes at 2040 or below, for any number of stages. */
  lemma {:induction false} ChainBelow(x: seq<nat>, shifts: seq<nat>)
    requires Below(x, 255) && Scaling(shifts)
    ensures Below(Chain(x, shifts), StageBound(|shifts|))
  {
    var n := |shifts|;
    if n != 0 {
      var before := shifts[..n - 1];
      ChainBelow(x, before);
      SmallPowers();
      DecimateBelow(Chain(x, before), shifts[n - 1], StageBound(n - 1), StageBound(n));
    }
  }

  /** The packed chain is the two lane chains: I never carries into Q, whatever the bytes. */
  lemma {:induction false} ChainOfPacked(i: seq<nat>, q: seq<nat>, shifts: seq<nat>)
    requires |i| == |q| && Below(i, 255) && Below(q, 255) && Scaling(shifts)
    ensures |Chain(i, shifts)| == |Chain(q, shifts)|
    ensures WordChain(PackAll(i, q), shifts) == PackAll(Chain(i, shifts), Chain(q, shifts))
  {
    ChainLength(i, q, shifts);
    var n := |shifts|;
    if n != 0 {
      var before := shifts[..n - 1];
      ChainOfPacked(i, q, before);
      ChainBelow(i, before);
      ChainBelow(q, before);
      WordsAreLanes(Chain(i, before), Chain(q, before), shifts[n - 1]);
    }
  }

  /** The last stage does not scale, and its lanes still fit: 65280 is the largest value. */
  lemma LastStage(i: seq<nat>, q: seq<nat>, shifts: seq<nat>)
    requires |i| == |q| && Below(i, 255) && Below(q, 255) && Scaling(shifts)
    ensures Below(Chain(i, shifts + [0]), 65280) && Below(Chain(q, shifts + [0]), 65280)
    ensures |Chain(i, shifts + [0])| == |Chain(q, shifts + [0])|
    ensures Words(WordChain(PackAll(i, q), shifts), 0) == PackAll(Chain(i, shifts + [0]), Chain(q, shifts + [0]))
  {
    var all := shifts + [0];
    assert all[..|all| - 1] == shifts;
    ChainLength(i, q, all);
    ChainOfPacked(i, q, shifts);
    ChainBelow(i, shifts);
    ChainBelow(q, shifts);
    WordsAreLanes(Chain(i, shifts), Chain(q, shifts), 0);
    assert Pow2(0) == 1;
    DecimateBelow(Chain(i, shifts), 0, 2040, 65280);
    DecimateBelow(Chain(q, shifts), 0, 2040, 65280);
  }
}
