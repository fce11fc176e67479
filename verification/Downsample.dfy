/**
 The five-stage decimator of Source/DSP/DSP.cpp:616-649: one pass over the bytes, three in place over the
 buffer, one into fractions. Proved to be two separate integer filter chains, over any sequence of calls.
 */
module Downsample {
  import opened Cic5

  function Outputs(w: seq<nat>): (s: seq<(real, real)>)
    ensures |s| == |w|
  {
    seq(|w|, k requires 0 <= k < |w| => Fractions(w[k]))
  }

  class Downsample32 {
    const signed: bool
    const DS1: DS_UINT16
    const DS2: DS_UINT16
    const DS3: DS_UINT16
    const DS4: DS_UINT16
    const DS5: DS_UINT16
    var buffer: array<nat>
    var output: array<(real, real)>
    // every byte received (I and Q alternating) and every sample sent since construction
    ghost var heard: seq<nat>
    ghost var blocks: nat
    var sent: seq<(real, real)>

    ghost predicate Separate() {
      && DS1 != DS2 && DS1 != DS3 && DS1 != DS4 && DS1 != DS5
      && DS2 != DS3 && DS2 != DS4 && DS2 != DS5
      && DS3 != DS4 && DS3 != DS5
      && DS4 != DS5
    }

    ghost predicate Linked()
      reads DS1, DS2, DS3, DS4, DS5
    {
      && DS1.Valid() && DS2.Valid() && DS3.Valid() && DS4.Valid() && DS5.Valid()
      && DS2.heard == Words(DS1.heard, 3)
      && DS3.heard == Words(DS2.heard, 4)
      && DS4.heard == Words(DS3.heard, 5)
      && DS5.heard == Words(DS4.heard, 5)
    }

    ghost predicate Valid()
      reads this, DS1, DS2, DS3, DS4, DS5
    {
      && Separate() && Linked()
      && |heard| == 64 * blocks
      && (forall k :: 0 <= k < |heard| ==> heard[k] < 256)
      && DS1.heard == WordsOfBytes(heard, signed)
      && sent == Outputs(Words(DS5.heard, 0))
    }

    constructor (signed: bool)
      ensures Valid() && heard == [] && sent == [] && this.signed == signed
      ensures fresh(buffer) && fresh(output)
    {
      this.signed := signed;
      DS1 := new DS_UINT16();
      DS2 := new DS_UINT16();
      DS3 := new DS_UINT16();
      DS4 := new DS_UINT16();
      DS5 := new DS_UINT16();
      buffer, output := new nat[0], new (real, real)[0];
      heard, sent, blocks := [], [], 0;
    }

    /** The pass over the bytes and the first pass over the buffer. */
    method FirstStages(input: seq<nat>, buf: array<nat>, ghost m: nat) returns (len: nat)
      requires DS1 != DS2 && DS1.Valid() && DS2.Valid() && DS2.heard == Words(DS1.heard, 3)
      requires |input| == 8 * m && 2 * m <= buf.Length
      requires forall k :: 0 <= k < |input| ==> input[k] < 256
      modifies DS1, DS2, buf
      ensures DS1.Valid() && DS2.Valid() && DS2.heard == Words(DS1.heard, 3) && len == m
      ensures DS1.heard == old(DS1.heard) + WordsOfBytes(input, signed)
      ensures Words(DS2.heard, 4) == Words(old(DS2.heard), 4) + buf[..len]
      ensures forall k :: 0 <= k < len ==> buf[k] < WORD
    {
      len := FirstStage(input, buf, 2 * m);
      len := DS2.Run(buf, len, 4);
    }

    /** The pass over the bytes. */
    method FirstStage(input: seq<nat>, buf: array<nat>, ghost m: nat) returns (len: nat)
      requires DS1.Valid() && |input| == 4 * m && m <= buf.Length
      requires forall k :: 0 <= k < |input| ==> input[k] < 256
      modifies DS1, buf
      ensures DS1.Valid() && len == m && DS1.heard == old(DS1.heard) + WordsOfBytes(input, signed)
      ensures Words(DS1.heard, 3) == Words(old(DS1.heard), 3) + buf[..len]
      ensures forall k :: 0 <= k < len ==> buf[k] < WORD
    {
      len := |input| / 2;
      len := DS1.RunBytes(input, signed, buf, len, 3);
      assert input[..4 * m] == input;
    }

    /** The other two passes over the buffer. */
    method MiddleStages(buf: array<nat>, n: nat, ghost m: nat) returns (len: nat)
      requires DS3 != DS4 && DS3.Valid() && DS4.Valid() && DS4.heard == Words(DS3.heard, 5)
      requires n == 4 * m && n <= buf.Length && forall k :: 0 <= k < n ==> buf[k] < WORD
      modifies DS3, DS4, buf
      ensures DS3.Valid() && DS4.Valid() && DS4.heard == Words(DS3.heard, 5) && len == m
      ensures DS3.heard == old(DS3.heard) + old(buf[..n])
      ensures Words(DS4.heard, 5) == Words(old(DS4.heard), 5) + buf[..len]
      ensures forall k :: 0 <= k < len ==> buf[k] < WORD
    {
      len := DS3.Run(buf, n, 5);
      len := DS4.Run(buf, len, 5);
    }

    /** The last pass, into fractions. */
    method LastStage(buf: array<nat>, n: nat, output: array<(real, real)>, ghost m: nat) returns (len: nat)
      requires DS5.Valid() && n == 2 * m && n <= buf.Length && forall k :: 0 <= k < n ==> buf[k] < WORD
      requires m <= output.Length
      modifies DS5, output
      ensures DS5.Valid() && len == m && DS5.heard == old(DS5.heard) + buf[..n]
      ensures Outputs(Words(DS5.heard, 0)) == Outputs(Words(old(DS5.heard), 0)) + output[..len]
    {
      len := DS5.RunFloat(buf, output, n, 0);
    }

    /** All five passes keep every stage fed with exactly what the one before it produced. */
    method Passes(input: seq<nat>, buf: array<nat>, output: array<(real, real)>, ghost m: nat) returns (len: nat)
      requires Separate() && Linked() && |input| == 64 * m
      requires forall k :: 0 <= k < |input| ==> input[k] < 256
      requires 16 * m <= buf.Length && m <= output.Length
      modifies DS1, DS2, DS3, DS4, DS5, buf, output
      ensures Linked() && len == m
      ensures DS1.heard == old(DS1.heard) + WordsOfBytes(input, signed)
      ensures Outputs(Words(DS5.heard, 0)) == Outputs(Words(old(DS5.heard), 0)) + output[..len]
    {
      len := FirstStages(input, buf, 8 * m);
      ghost var first := buf[..len];
      len := MiddleStages(buf, len, 2 * m);
      assert DS3.heard == old(DS3.heard) + first;
      ghost var middle := buf[..len];
      len := LastStage(buf, len, output, m);
      assert DS5.heard == old(DS5.heard) + middle;
    }

    /** The passes over buffers that are large enough; the samples are sent. */
    method Process(input: seq<nat>, buf: array<nat>, samples: array<(real, real)>, ghost m: nat)
      requires Valid() && |input| == 64 * m
      requires forall k :: 0 <= k < |input| ==> input[k] < 256
      requires 16 * m <= buf.Length && m <= samples.Length
      modifies `heard, `blocks, `sent, DS1, DS2, DS3, DS4, DS5, buf, samples
      ensures Valid() && heard == old(heard) + input
    {
      ghost var bytes, words := heard, DS1.heard;
      var len := Passes(input, buf, samples, m);
      sent := sent + samples[..len];
      heard := bytes + input;
      BytesAppend(bytes, input, signed, 32 * blocks);
      blocks := blocks + m;
      assert DS1.heard == words + WordsOfBytes(input, signed) == WordsOfBytes(bytes + input, signed);
    }

    /** Both buffers grow with the blocks. */
    method Fit(len: nat, ghost m: nat)
      requires len == 32 * m
      modifies `buffer, `output
      ensures 16 * m <= buffer.Length && m <= output.Length
      ensures (buffer == old(buffer) || fresh(buffer)) && (output == old(output) || fresh(output))
    {
      if output.Length < len / 32 {
        output := new (real, real)[len / 32];
      }
      if buffer.Length < len / 2 {
        buffer := new nat[len / 2];
      }
    }

    /** Source/DSP/DSP.cpp:617-632 for unsigned bytes, 634-649 for signed ones. */
    method Receive(input: seq<nat>)
      requires Valid() && |input| % 64 == 0
      requires forall k :: 0 <= k < |input| ==> input[k] < 256
      modifies this, DS1, DS2, DS3, DS4, DS5, buffer, output
      ensures Valid() && heard == old(heard) + input
      ensures (buffer == old(buffer) || fresh(buffer)) && (output == old(output) || fresh(output))
    {
      ghost var m := |input| / 64;
      assert |input| == 64 * m;
      Fit(|input| / 2, m);
      Process(input, buffer, output, m);
    }
  }

  lemma BytesAppend(a: seq<nat>, b: seq<nat>, signed: bool, k: nat)
    requires |a| == 2 * k
    requires (forall j :: 0 <= j < |a| ==> a[j] < 256) && forall j :: 0 <= j < |b| ==> b[j] < 256
    ensures WordsOfBytes(a + b, signed) == WordsOfBytes(a, signed) + WordsOfBytes(b, signed)
  {
  }

  // ---------------------------------------------------------------- what the samples are

  /** The bytes of one lane on the 0..255 scale: lane 0 is I, lane 1 is Q. */
  function Lane(bytes: seq<nat>, lane: nat, signed: bool): (x: seq<nat>)
    requires lane < 2 && forall k :: 0 <= k < |bytes| ==> bytes[k] < 256
    ensures |x| == |bytes| / 2 && Below(x, 255)
  {
    seq(|bytes| / 2, k requires 0 <= k < |bytes| / 2 => Offset(bytes[2 * k + lane], signed))
  }

  lemma BytesArePacked(bytes: seq<nat>, signed: bool)
    requires forall k :: 0 <= k < |bytes| ==> bytes[k] < 256
    ensures WordsOfBytes(bytes, signed) == PackAll(Lane(bytes, 0, signed), Lane(bytes, 1, signed))
  {
    forall k | 0 <= k < |bytes| / 2
      ensures WordOfBytes(bytes[2 * k], bytes[2 * k + 1], signed)
           == Pack(Lane(bytes, 0, signed)[k], Lane(bytes, 1, signed)[k])
    {
    }
  }

  const SHIFTS: seq<nat> := [3, 4, 5, 5]

  lemma FourStages(w: seq<nat>)
    ensures WordChain(w, SHIFTS) == Words(Words(Words(Words(w, 3), 4), 5), 5)
  {
    assert SHIFTS[..3] == [3, 4, 5];
    assert [3, 4, 5][..2] == [3, 4];
    assert [3, 4][..1] == [3];
    assert [3][..0] == [];
    assert WordChain(w, [3]) == Words(w, 3);
    assert WordChain(w, [3, 4]) == Words(Words(w, 3), 4);
    assert WordChain(w, [3, 4, 5]) == Words(Words(Words(w, 3), 4), 5);
  }

  lemma UnpackFractions(i: nat, q: nat)
    requires i < HALF
    ensures Fractions(Pack(i, q)) == (Fraction(i), Fraction(q))
  {
  }

  /**
   Whatever the block sizes, every sample sent is the pair of two separate five-stage integer filters, one
   fed with the I bytes of the whole stream and one with the Q bytes: unsigned ones as they are, signed ones
   raised by 128. The outputs are read from the middle of their range, in units of 2^-15.
   */
  lemma SamplesAreTwoFilters(d: Downsample32, i: seq<nat>, q: seq<nat>, n: nat)
    requires d.Valid() && n < |d.sent| && |i| == |q| == |d.heard| / 2
    requires forall k :: 0 <= k < |i| ==>
               i[k] == if d.signed then TwosComplement(d.heard[2 * k]) + 128 else d.heard[2 * k]
    requires forall k :: 0 <= k < |q| ==>
               q[k] == if d.signed then TwosComplement(d.heard[2 * k + 1]) + 128 else d.heard[2 * k + 1]
    ensures var a, b := Chain(i, [3, 4, 5, 5, 0]), Chain(q, [3, 4, 5, 5, 0]);
            && |a| == |b| == |d.sent| && a[n] <= 65280 && b[n] <= 65280
            && d.sent[n] == ((a[n] as real - 32768.0) / 32768.0, (b[n] as real - 32768.0) / 32768.0)
  {
    SentIs(d);
    SampleOfLanes(d.heard, i, q, d.signed, n);
  }

  /** The samples of the whole stream, on values. */
  function Samples(bytes: seq<nat>, signed: bool): seq<(real, real)>
    requires forall k :: 0 <= k < |bytes| ==> bytes[k] < 256
  {
    Outputs(Words(Words(Words(Words(Words(WordsOfBytes(bytes, signed), 3), 4), 5), 5), 0))
  }

  lemma SentIs(d: Downsample32)
    requires d.Valid()
    ensures d.sent == Samples(d.heard, d.signed)
  {
  }

  lemma SampleOfLanes(bytes: seq<nat>, i: seq<nat>, q: seq<nat>, signed: bool, n: nat)
    requires (forall k :: 0 <= k < |bytes| ==> bytes[k] < 256) && |i| == |q| == |bytes| / 2
    requires n < |Samples(bytes, signed)|
    requires forall k :: 0 <= k < |i| ==> i[k] == if signed then TwosComplement(bytes[2 * k]) + 128 else bytes[2 * k]
    requires forall k :: 0 <= k < |q| ==>
               q[k] == if signed then TwosComplement(bytes[2 * k + 1]) + 128 else bytes[2 * k + 1]
    ensures var a, b := Chain(i, [3, 4, 5, 5, 0]), Chain(q, [3, 4, 5, 5, 0]);
            && |a| == |b| == |Samples(bytes, signed)| && a[n] <= 65280 && b[n] <= 65280
            && Samples(bytes, signed)[n] == ((a[n] as real - 32768.0) / 32768.0, (b[n] as real - 32768.0) / 32768.0)
  {
    LanesAre(bytes, i, q, signed);
    SampleOfChains(bytes, i, q, Chain(i, [3, 4, 5, 5, 0]), Chain(q, [3, 4, 5, 5, 0]), signed, n);
  }

  lemma SampleOfChains(bytes: seq<nat>, i: seq<nat>, q: seq<nat>, a: seq<nat>, b: seq<nat>, signed: bool, n: nat)
    requires (forall k :: 0 <= k < |bytes| ==> bytes[k] < 256) && n < |Samples(bytes, signed)|
    requires i == Lane(bytes, 0, signed) && q == Lane(bytes, 1, signed)
    requires a == Chain(i, [3, 4, 5, 5, 0]) && b == Chain(q, [3, 4, 5, 5, 0])
    ensures |a| == |b| == |Samples(bytes, signed)| && a[n] <= 65280 && b[n] <= 65280
    ensures Samples(bytes, signed)[n] == ((a[n] as real - 32768.0) / 32768.0, (b[n] as real - 32768.0) / 32768.0)
  {
    var w := WordsOfBytes(bytes, signed);
    BytesArePacked(bytes, signed);
    var y := WordsOfChains(w, i, q, a, b);
    assert y[n] == Pack(a[n], b[n]);
    UnpackFractions(a[n], b[n]);
  }

  lemma WordsOfChains(w: seq<nat>, i: seq<nat>, q: seq<nat>, a: seq<nat>, b: seq<nat>) returns (y: seq<nat>)
    requires |i| == |q| && w == PackAll(i, q) && Below(i, 255) && Below(q, 255)
    requires a == Chain(i, [3, 4, 5, 5, 0]) && b == Chain(q, [3, 4, 5, 5, 0])
    ensures Below(a, 65280) && Below(b, 65280) && |a| == |b|
    ensures y == Words(Words(Words(Words(Words(w, 3), 4), 5), 5), 0) == PackAll(a, b)
  {
    FourStages(w);
    LastStage(i, q, SHIFTS);
    assert SHIFTS + [0] == [3, 4, 5, 5, 0];
    y := PackAll(a, b);
  }

  lemma LanesAre(bytes: seq<nat>, i: seq<nat>, q: seq<nat>, signed: bool)
    requires (forall k :: 0 <= k < |bytes| ==> bytes[k] < 256) && |i| == |q| == |bytes| / 2
    requires forall k :: 0 <= k < |i| ==> i[k] == if signed then TwosComplement(bytes[2 * k]) + 128 else bytes[2 * k]
    requires forall k :: 0 <= k < |q| ==>
               q[k] == if signed then TwosComplement(bytes[2 * k + 1]) + 128 else bytes[2 * k + 1]
    ensures i == Lane(bytes, 0, signed) && q == Lane(bytes, 1, signed)
  {
    forall k | 0 <= k < |i|
      ensures i[k] == Lane(bytes, 0, signed)[k] && q[k] == Lane(bytes, 1, signed)[k]
    {
      OffsetIs(bytes[2 * k]);
      OffsetIs(bytes[2 * k + 1]);
    }
  }

  /** A signed stream gives the samples of the unsigned stream with all sign bits flipped. */
  lemma SignedIsFlipped(u: Downsample32, s: Downsample32, bytes: seq<bv8>)
    requires u.Valid() && s.Valid() && !u.signed && s.signed && |u.heard| == |s.heard| == |bytes|
    requires forall k :: 0 <= k < |bytes| ==> s.heard[k] == bytes[k] as nat && u.heard[k] == (bytes[k] ^ 0x80) as nat
    ensures u.sent == s.sent
  {
    SentIs(u);
    SentIs(s);
    WordsFlipped(u.heard, s.heard, bytes);
  }

  lemma WordsFlipped(u: seq<nat>, s: seq<nat>, bytes: seq<bv8>)
    requires (forall k :: 0 <= k < |u| ==> u[k] < 256) && |u| == |s| == |bytes|
    requires forall k :: 0 <= k < |bytes| ==> s[k] == bytes[k] as nat && u[k] == (bytes[k] ^ 0x80) as nat
    ensures WordsOfBytes(u, false) == WordsOfBytes(s, true)
  {
    forall k | 0 <= k < |u|
      ensures Offset(u[k], false) == Offset(s[k], true)
    {
      OffsetFlips(bytes[k]);
    }
  }

  /**
   If from some pair of bytes on I stands at level a and Q at level b, counted from the zero level, then the
   samples are exactly a/128 and b/128 as soon as the filters have forgotten what was before: 155 pairs later.
   */
  lemma LevelSettles(d: Downsample32, from: nat, a: int, b: int, n: nat)
    requires d.Valid() && n < |d.sent| && -128 <= a < 128 && -128 <= b < 128 && 32 * n >= from + 155
    requires forall k :: from <= k < |d.heard| / 2 ==>
               if d.signed then TwosComplement(d.heard[2 * k]) == a && TwosComplement(d.heard[2 * k + 1]) == b
               else d.heard[2 * k] == a + 128 && d.heard[2 * k + 1] == b + 128
    ensures d.sent[n] == (a as real / 128.0, b as real / 128.0)
  {
    SentIs(d);
    LevelOfLanes(d.heard, d.signed, from, a, b, n);
  }

  lemma LevelOfLanes(bytes: seq<nat>, signed: bool, from: nat, a: int, b: int, n: nat)
    requires (forall k :: 0 <= k < |bytes| ==> bytes[k] < 256) && n < |Samples(bytes, signed)|
    requires -128 <= a < 128 && -128 <= b < 128 && 32 * n >= from + 155
    requires forall k :: from <= k < |bytes| / 2 ==>
               if signed then TwosComplement(bytes[2 * k]) == a && TwosComplement(bytes[2 * k + 1]) == b
               else bytes[2 * k] == a + 128 && bytes[2 * k + 1] == b + 128
    ensures Samples(bytes, signed)[n] == (a as real / 128.0, b as real / 128.0)
  {
    var i, q := LanesOf(bytes, signed);
    SampleOfLanes(bytes, i, q, signed, n);
    ChainSettles(i, a + 128, n);
    ChainSettles(q, b + 128, n);
  }

  lemma LanesOf(bytes: seq<nat>, signed: bool) returns (i: seq<nat>, q: seq<nat>)
    requires forall k :: 0 <= k < |bytes| ==> bytes[k] < 256
    ensures |i| == |q| == |bytes| / 2
    ensures forall k :: 0 <= k < |i| ==> i[k] == if signed then TwosComplement(bytes[2 * k]) + 128 else bytes[2 * k]
    ensures forall k :: 0 <= k < |q| ==>
              q[k] == if signed then TwosComplement(bytes[2 * k + 1]) + 128 else bytes[2 * k + 1]
  {
    i, q := Lane(bytes, 0, signed), Lane(bytes, 1, signed);
    forall k | 0 <= k < |bytes| / 2
      ensures i[k] == if signed then TwosComplement(bytes[2 * k]) + 128 else bytes[2 * k]
      ensures q[k] == if signed then TwosComplement(bytes[2 * k + 1]) + 128 else bytes[2 * k + 1]
    {
      OffsetIs(bytes[2 * k]);
      OffsetIs(bytes[2 * k + 1]);
    }
  }
}
