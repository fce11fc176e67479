/**
 The block feeder of Source/DSP/DSP.cpp:475-489: squared samples are stored in bit-reversed order
 and every N-th sample triggers the in-place transform.
 */
module Spectrum {
  import opened Algebra
  import opened Arith
  import opened FFT

  ghost function Squares<T>(R: Ring<T>, s: seq<T>): seq<T> {
    seq(|s|, i requires 0 <= i < |s| => R.mul(s[i], s[i]))
  }

  /** The Fourier transform of the squared samples of one block. */
  ghost function BlockSpectrum<T>(R: Ring<T>, w: T, s: seq<T>): (f: seq<T>)
    ensures |f| == |s|
  {
    seq(|s|, k requires 0 <= k < |s| => Dft(R, Squares(R, s), w, k, |s|))
  }

  /** One spectrum for each complete block of n samples of the whole stream, in order. */
  ghost function Spectra<T>(R: Ring<T>, w: T, n: nat, s: seq<T>): seq<seq<T>>
    requires n > 0
  {
    if |s| < n then []
    else if |s| % n != 0 then Spectra(R, w, n, s[..|s| - 1])
    else Spectra(R, w, n, s[..|s| - n]) + [BlockSpectrum(R, w, s[|s| - n..])]
  }

  /** Samples since the last complete block. */
  ghost function Partial<T>(n: nat, s: seq<T>): (p: seq<T>)
    requires n > 0
    ensures |p| == |s| % n
  {
    s[|s| - |s| % n..]
  }

  lemma SpectraIgnorePartial<T>(R: Ring<T>, w: T, n: nat, s: seq<T>)
    requires n > 0
    ensures Spectra(R, w, n, s) == Spectra(R, w, n, s[..|s| - |s| % n])
    decreases |s| % n
  {
    var k := |s| % n;
    if |s| >= n && k != 0 {
      DivMod(|s|, n);
      DivModUnique(|s| / n, n, k - 1);
      SpectraIgnorePartial(R, w, n, s[..|s| - 1]);
      assert s[..|s| - 1][..|s| - k] == s[..|s| - k];
    } else if k == 0 {
      assert s[..|s|] == s;
    } else {
      DivModUnique(0, n, |s|);
    }
  }

  lemma NextMod(c: nat, n: nat)
    requires n > 0
    ensures (c + 1) % n == if c % n + 1 == n then 0 else c % n + 1
  {
    DivMod(c, n);
    if c % n + 1 == n {
      MulAdd(c / n, 1, n);
      DivModUnique(c / n + 1, n, 0);
    } else {
      DivModUnique(c / n, n, c % n + 1);
    }
  }

  lemma OneMoreSample<T>(n: nat, s: seq<T>, x: T)
    requires n > 0
    ensures |s| % n + 1 == n ==>
              && |s| + 1 >= n && |s + [x]| % n == 0 && Partial(n, s + [x]) == []
              && (s + [x])[|s| + 1 - n..] == Partial(n, s) + [x]
              && (s + [x])[..|s| + 1 - n] == s[..|s| - |s| % n]
    ensures |s| % n + 1 != n ==> Partial(n, s + [x]) == Partial(n, s) + [x] && |s + [x]| % n == |s| % n + 1
  {
    NextMod(|s|, n);
    var k := |s| % n;
    var cut := |s| - k;
    assert Partial(n, s) == s[cut..];
    assert (s + [x])[cut..] == s[cut..] + [x];
    assert (s + [x])[..cut] == s[..cut];
    if k + 1 != n {
      assert |s + [x]| - |s + [x]| % n == cut;
    }
  }

  lemma BlockCompletes<T>(R: Ring<T>, w: T, n: nat, s: seq<T>, x: T)
    requires n > 0 && |s| % n + 1 == n
    ensures Spectra(R, w, n, s + [x]) == Spectra(R, w, n, s) + [BlockSpectrum(R, w, Partial(n, s) + [x])]
  {
    OneMoreSample(n, s, x);
    SpectraIgnorePartial(R, w, n, s);
  }

  lemma BlockGoesOn<T>(R: Ring<T>, w: T, n: nat, s: seq<T>, x: T)
    requires n > 0 && |s| % n + 1 != n
    ensures Spectra(R, w, n, s + [x]) == Spectra(R, w, n, s)
  {
    OneMoreSample(n, s, x);
    assert (s + [x])[..|s + [x]| - 1] == s;
  }

  lemma SpectraStep<T>(R: Ring<T>, w: T, n: nat, s: seq<T>, x: T)
    requires n > 0
    ensures Spectra(R, w, n, s + [x])
         == Spectra(R, w, n, s)
            + (if |s| % n + 1 == n then [BlockSpectrum(R, w, Partial(n, s) + [x])] else [])
  {
    if |s| % n + 1 == n {
      BlockCompletes(R, w, n, s, x);
    } else {
      BlockGoesOn(R, w, n, s, x);
      var before := Spectra(R, w, n, s);
      assert before + [] == before;
    }
  }

  class SquareFreqOffsetCorrection<T(!new)> {
    const plan: Plan<T>
    const n: nat
    const log: nat
    var data: array<T>
    var count: nat
    // every sample received and every spectrum handed on since construction
    ghost var heard: seq<T>
    var sent: seq<seq<T>>

    ghost predicate Valid()
      reads this, plan, data
    {
      && plan.Valid()
      && n == Pow2(log) == data.Length
      && (n > 1 ==> Pow(plan.R, plan.root(n), n / 2) == plan.R.neg(plan.R.one))
      && count == |Partial(n, heard)|
      && Stored(plan.R, data[..], log, Partial(n, heard))
      && sent == Spectra(plan.R, plan.root(n), n, heard)
    }

    constructor (plan: Plan<T>, storage: array<T>, log: nat)
      requires plan.Valid() && storage.Length == Pow2(log)
      requires storage.Length > 1 ==>
        Pow(plan.R, plan.root(storage.Length), storage.Length / 2) == plan.R.neg(plan.R.one)
      ensures Valid() && heard == [] && sent == []
      ensures this.plan == plan && data == storage && n == storage.Length
    {
      this.plan, this.log, this.n, data, count := plan, log, storage.Length, storage, 0;
      heard, sent := [], [];
    }

    /** The body of the loop, Source/DSP/DSP.cpp:480-488. */
    method Take(x: T)
      requires Valid()
      modifies this, plan, data
      ensures Valid() && data == old(data)
      ensures heard == old(heard) + [x]
    {
      ghost var R, p := plan.R, Partial(n, heard);
      OneMoreSample(n, heard, x);
      SpectraStep(R, plan.root(n), n, heard, x);
      StoreNext(R, data[..], log, p, x);
      Put(x);
      heard := heard + [x];
      if count == n {
        CorrectFrequency(p + [x]);
        sent := sent + [data[..]];
        count := 0;
      }
    }

    /** One squared sample goes to its bit-reversed place. */
    method Put(x: T)
      requires n == Pow2(log) == data.Length && BitReverse(count, log) < n
      modifies `count, data
      ensures data[..] == old(data[..])[BitReverse(old(count), log) := plan.R.mul(x, x)]
      ensures count == old(count) + 1
    {
      var pos := Rev(count, log);
      data[pos] := plan.R.mul(x, x);
      count := count + 1;
    }

    /** The transform at the head of correctFrequency, Source/DSP/DSP.cpp:421. */
    method CorrectFrequency(ghost p: seq<T>)
      requires plan.Valid() && n == Pow2(log) == data.Length == |p|
      requires n > 1 ==> Pow(plan.R, plan.root(n), n / 2) == plan.R.neg(plan.R.one)
      requires Stored(plan.R, data[..], log, p)
      modifies plan, data
      ensures plan.Valid() && data[..] == BlockSpectrum(plan.R, plan.root(n), p)
    {
      FullBlock(plan.R, data[..], log, p);
      plan.Fft(data);
      Pow2Same(plan.logN, log);
    }

    /** After any sequence of calls the spectra sent are those of the whole stream, whatever the block sizes. */
    method Receive(input: seq<T>)
      requires Valid()
      modifies this, plan, data
      ensures Valid() && data == old(data)
      ensures heard == old(heard) + input
    {
      var i := 0;
      while i < |input|
        invariant i <= |input| && data == old(data)
        invariant Valid() && heard == old(heard) + input[..i]
      {
        Take(input[i]);
        i := i + 1;
        assert input[..i] == input[..i - 1] + [input[i - 1]];
      }
      assert input[..i] == input;
    }
  }

  lemma Pow2Same(m: nat, n: nat)
    requires Pow2(m) == Pow2(n)
    ensures m == n
  {
    Pow2Injective(n, m);
  }

  /** The first |p| squared samples sit at their bit-reversed places. */
  ghost predicate Stored<T>(R: Ring<T>, data: seq<T>, log: nat, p: seq<T>)
    requires |p| <= |data| == Pow2(log)
  {
    forall i :: 0 <= i < |p| ==> BitReverse(i, log) < |data| && data[BitReverse(i, log)] == R.mul(p[i], p[i])
  }

  lemma StoreNext<T>(R: Ring<T>, data: seq<T>, log: nat, p: seq<T>, x: T)
    requires |p| < |data| == Pow2(log) && Stored(R, data, log, p)
    ensures BitReverse(|p|, log) < |data|
    ensures Stored(R, data[BitReverse(|p|, log) := R.mul(x, x)], log, p + [x])
  {
    BoundAll(log);
    forall i | 0 <= i < |p|
      ensures BitReverse(i, log) != BitReverse(|p|, log)
    {
      BitReverseInvolution(i, log);
      BitReverseInvolution(|p|, log);
    }
  }

  lemma FullBlock<T>(R: Ring<T>, data: seq<T>, log: nat, p: seq<T>)
    requires |p| == |data| == Pow2(log) && Stored(R, data, log, p)
    ensures Unscrambled(data, log) == Squares(R, p)
  {
  }
}
