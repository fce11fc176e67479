/**
 Shift registers over GF(2): a step that respects exclusive-or, fed one message bit at a time.
 The register type is left open so that no proof here looks inside a machine word.
 */
module LinearRegister {
  import opened Algebra
  import opened Arith

  datatype Register<!T> = Register(zero: T, one: T, xor: (T, T) -> T, step: T -> T)

  ghost predicate LinearAt<T>(M: Register<T>, a: T, b: T, c: T) {
    && M.xor(a, b) == M.xor(b, a)
    && M.xor(M.xor(a, b), c) == M.xor(a, M.xor(b, c))
    && M.xor(a, M.zero) == a
    && M.xor(a, a) == M.zero
    && M.step(M.xor(a, b)) == M.xor(M.step(a), M.step(b))
  }

  ghost predicate Linear<T(!new)>(M: Register<T>) {
    forall a, b, c {:trigger Consider(a, b, c)} :: Consider(a, b, c) ==> LinearAt(M, a, b, c)
  }

  lemma LinearLaws<T(!new)>(M: Register<T>, a: T, b: T, c: T)
    requires Linear(M)
    ensures LinearAt(M, a, b, c)
  {
    assert Consider(a, b, c);
  }

  lemma XorInterchange<T(!new)>(M: Register<T>, a: T, b: T, c: T, d: T)
    requires Linear(M)
    ensures M.xor(M.xor(a, b), M.xor(c, d)) == M.xor(M.xor(a, c), M.xor(b, d))
  {
    LinearLaws(M, a, b, M.xor(c, d));
    LinearLaws(M, b, c, d);
    LinearLaws(M, c, b, d);
    LinearLaws(M, a, c, M.xor(b, d));
  }

  /** k steps without input: multiplication by x^k. */
  ghost function Steps<T>(M: Register<T>, r: T, k: nat): T {
    if k == 0 then r else M.step(Steps(M, r, k - 1))
  }

  lemma {:induction false} StepsLinear<T(!new)>(M: Register<T>, a: T, b: T, k: nat)
    requires Linear(M)
    ensures Steps(M, M.xor(a, b), k) == M.xor(Steps(M, a, k), Steps(M, b, k))
  {
    if k != 0 {
      StepsLinear(M, a, b, k - 1);
      LinearLaws(M, Steps(M, a, k - 1), Steps(M, b, k - 1), a);
    }
  }

  lemma {:induction false} StepsAdd<T>(M: Register<T>, r: T, j: nat, k: nat)
    ensures Steps(M, Steps(M, r, j), k) == Steps(M, r, j + k)
  {
    if k != 0 {
      StepsAdd(M, r, j, k - 1);
    }
  }

  lemma EightSteps<T>(M: Register<T>, r: T)
    ensures Steps(M, r, 8) == M.step(M.step(M.step(M.step(M.step(M.step(M.step(M.step(r))))))))
  {
    var r4 := M.step(M.step(M.step(M.step(r))));
    assert Steps(M, r, 2) == M.step(M.step(r)) by {
      assert Steps(M, r, 1) == M.step(r);
    }
    assert Steps(M, r4, 2) == M.step(M.step(r4)) by {
      assert Steps(M, r4, 1) == M.step(r4);
    }
    StepsAdd(M, r, 4, 4);
  }

  lemma {:induction false} StepsOfZero<T(!new)>(M: Register<T>, k: nat)
    requires Linear(M)
    ensures Steps(M, M.zero, k) == M.zero
  {
    if k != 0 {
      StepsOfZero(M, k - 1);
      LinearLaws(M, M.zero, M.zero, M.zero);
      LinearLaws(M, M.step(M.zero), M.zero, M.zero);
    }
  }

  function Coefficient<T>(M: Register<T>, b: bool): T {
    if b then M.one else M.zero
  }

  /** One step that also takes in a message bit. */
  function Push<T>(M: Register<T>, r: T, b: bool): T {
    M.xor(M.step(r), Coefficient(M, b))
  }

  /** The register after the whole message, most significant bit first, starting from zero. */
  ghost function Rem<T>(M: Register<T>, bits: seq<bool>): T {
    if |bits| == 0 then M.zero
    else Push(M, Rem(M, bits[..|bits| - 1]), bits[|bits| - 1])
  }

  ghost function Zeros(n: nat): (z: seq<bool>)
    ensures |z| == n && forall i :: 0 <= i < n ==> !z[i]
  {
    seq(n, _ => false)
  }

  ghost function XorBits(a: seq<bool>, b: seq<bool>): (c: seq<bool>)
    requires |a| == |b|
    ensures |c| == |a| && forall i :: 0 <= i < |c| ==> c[i] == (a[i] != b[i])
  {
    seq(|a|, i requires 0 <= i < |a| => a[i] != b[i])
  }

  lemma {:induction false} RemLinear<T(!new)>(M: Register<T>, a: seq<bool>, b: seq<bool>)
    requires Linear(M) && |a| == |b|
    ensures Rem(M, XorBits(a, b)) == M.xor(Rem(M, a), Rem(M, b))
  {
    var n := |a|;
    if n == 0 {
      LinearLaws(M, M.zero, M.zero, M.zero);
    } else {
      var a', b' := a[..n - 1], b[..n - 1];
      RemLinear(M, a', b');
      assert XorBits(a, b)[..n - 1] == XorBits(a', b');
      var x, y := Rem(M, a'), Rem(M, b');
      LinearLaws(M, x, y, x);
      var p, q := Coefficient(M, a[n - 1]), Coefficient(M, b[n - 1]);
      XorInterchange(M, M.step(x), M.step(y), p, q);
      assert M.xor(p, q) == Coefficient(M, a[n - 1] != b[n - 1]) by {
        LinearLaws(M, M.one, M.one, M.one);
        LinearLaws(M, M.zero, M.one, M.one);
        LinearLaws(M, M.one, M.zero, M.one);
        LinearLaws(M, M.zero, M.zero, M.zero);
      }
    }
  }

  lemma {:induction false} RemConcat<T(!new)>(M: Register<T>, a: seq<bool>, b: seq<bool>)
    requires Linear(M)
    ensures Rem(M, a + b) == M.xor(Steps(M, Rem(M, a), |b|), Rem(M, b))
  {
    if |b| == 0 {
      assert a + b == a;
      LinearLaws(M, Rem(M, a), M.zero, M.zero);
    } else {
      var b' := b[..|b| - 1];
      RemConcat(M, a, b');
      assert (a + b)[..|a + b| - 1] == a + b';
      var s, t := Steps(M, Rem(M, a), |b'|), Rem(M, b');
      LinearLaws(M, s, t, s);
      LinearLaws(M, M.step(s), M.step(t), Coefficient(M, b[|b| - 1]));
    }
  }

  lemma {:induction false} RemZeros<T(!new)>(M: Register<T>, n: nat)
    requires Linear(M)
    ensures Rem(M, Zeros(n)) == M.zero
  {
    if n != 0 {
      RemZeros(M, n - 1);
      assert Zeros(n)[..n - 1] == Zeros(n - 1);
      StepsOfZero(M, 1);
      assert Steps(M, M.zero, 1) == M.step(Steps(M, M.zero, 0));
      LinearLaws(M, M.zero, M.zero, M.zero);
    }
  }

  lemma RemAppendZeros<T(!new)>(M: Register<T>, a: seq<bool>, k: nat)
    requires Linear(M)
    ensures Rem(M, a + Zeros(k)) == Steps(M, Rem(M, a), k)
  {
    RemConcat(M, a, Zeros(k));
    RemZeros(M, k);
    LinearLaws(M, Steps(M, Rem(M, a), k), M.zero, M.zero);
  }

  /**
   Schoolbook division of a polynomial by the generator `g` (leading coefficient first): while the dividend is
   longer than the remainder may be, cancel the leading one with a shifted copy of `g` and drop the leading bit.
   */
  ghost function Divide(g: seq<bool>, bits: seq<bool>): (r: seq<bool>)
    requires |g| > 0
    ensures |bits| >= |g| - 1 ==> |r| == |g| - 1
    decreases |bits|
  {
    if |bits| < |g| then bits
    else if bits[0] then Divide(g, XorBits(bits, g + Zeros(|bits| - |g|))[1..])
    else Divide(g, bits[1..])
  }

  /** A register that is zero after the generator computes the remainder of schoolbook division. */
  lemma {:induction false} RemIsDivision<T(!new)>(M: Register<T>, g: seq<bool>, bits: seq<bool>)
    requires Linear(M) && |g| > 0 && g[0] && Rem(M, g) == M.zero
    ensures Rem(M, bits) == Rem(M, Divide(g, bits))
    decreases |bits|
  {
    if |bits| >= |g| {
      var d := if bits[0] then XorBits(bits, g + Zeros(|bits| - |g|)) else bits;
      if bits[0] {
        var multiple := g + Zeros(|bits| - |g|);
        RemLinear(M, bits, multiple);
        RemAppendZeros(M, g, |bits| - |g|);
        StepsOfZero(M, |bits| - |g|);
        LinearLaws(M, Rem(M, bits), M.zero, M.zero);
      }
      assert Rem(M, d) == Rem(M, bits);
      DropLeadingZero(M, d);
      RemIsDivision(M, g, d[1..]);
    }
  }

  lemma DropLeadingZero<T(!new)>(M: Register<T>, d: seq<bool>)
    requires Linear(M) && |d| > 0 && !d[0]
    ensures Rem(M, d) == Rem(M, d[1..])
  {
    assert d == Zeros(1) + d[1..];
    RemConcat(M, Zeros(1), d[1..]);
    RemZeros(M, 1);
    StepsOfZero(M, |d| - 1);
    LinearLaws(M, M.zero, Rem(M, d[1..]), M.zero);
    LinearLaws(M, Rem(M, d[1..]), M.zero, M.zero);
  }

  lemma RemTake<T>(M: Register<T>, s: seq<bool>, k: nat)
    requires k < |s|
    ensures Rem(M, s[..k + 1]) == Push(M, Rem(M, s[..k]), s[k])
  {
    assert s[..k + 1][..k] == s[..k];
  }

  lemma RemOfEight<T>(M: Register<T>, s: seq<bool>)
    requires |s| == 8
    ensures Rem(M, s) == Push(M, Push(M, Push(M, Push(M, Push(M, Push(M, Push(M, Push(M,
                           M.zero, s[0]), s[1]), s[2]), s[3]), s[4]), s[5]), s[6]), s[7])
  {
    RemOfFour(M, s);
    RemTake(M, s, 4);
    RemTake(M, s, 5);
    RemTake(M, s, 6);
    RemTake(M, s, 7);
    assert s[..8] == s;
  }

  lemma RemOfFour<T>(M: Register<T>, s: seq<bool>)
    requires |s| >= 4
    ensures Rem(M, s[..4]) == Push(M, Push(M, Push(M, Push(M, M.zero, s[0]), s[1]), s[2]), s[3])
  {
    RemTake(M, s, 0);
    RemTake(M, s, 1);
    RemTake(M, s, 2);
    RemTake(M, s, 3);
  }

  /** The number written by the bits, most significant first. */
  function Value(bits: seq<bool>): nat {
    if |bits| == 0 then 0 else 2 * Value(bits[..|bits| - 1]) + if bits[|bits| - 1] then 1 else 0
  }

  lemma {:induction false} ValueBound(bits: seq<bool>)
    ensures Value(bits) < Pow2(|bits|)
  {
    if |bits| != 0 {
      ValueBound(bits[..|bits| - 1]);
    }
  }

  lemma {:induction false} ValueZero(bits: seq<bool>)
    requires Value(bits) == 0
    ensures forall i :: 0 <= i < |bits| ==> !bits[i]
  {
    if |bits| != 0 {
      ValueZero(bits[..|bits| - 1]);
    }
  }

  /** `val` reads the register as a number, and below 2^(width-1) a step only doubles it. */
  ghost predicate NoCarryBelow<T(!new)>(M: Register<T>, val: T -> nat, width: nat)
    requires width > 0
  {
    && val(M.zero) == 0
    && forall r, b :: val(r) < Pow2(width - 1) ==> val(Push(M, r, b)) == 2 * val(r) + if b then 1 else 0
  }

  /** A message no longer than the register is its own remainder. */
  lemma {:induction false} ShortRem<T(!new)>(M: Register<T>, val: T -> nat, width: nat, bits: seq<bool>)
    requires |bits| <= width && width > 0 && NoCarryBelow(M, val, width)
    ensures val(Rem(M, bits)) == Value(bits)
  {
    if |bits| != 0 {
      var b' := bits[..|bits| - 1];
      ShortRem(M, val, width, b');
      ValueBound(b');
      Pow2Monotone(|b'|, width - 1);
    }
  }

  /**
   The byte-at-a-time step: keeping the register 24 places ahead of the data, eight more bits enter at the
   top 16 places up, and eight steps follow.
   */
  lemma AppendByte<T(!new)>(M: Register<T>, bits: seq<bool>, byte: seq<bool>)
    requires Linear(M) && |byte| == 8
    ensures Rem(M, bits + byte + Zeros(24))
         == Steps(M, M.xor(Rem(M, bits + Zeros(24)), Steps(M, Rem(M, byte), 16)), 8)
  {
    var r, b := Rem(M, bits), Rem(M, byte);
    RemAppendZeros(M, bits + byte, 24);
    RemAppendZeros(M, bits, 24);
    RemConcat(M, bits, byte);
    StepsLinear(M, Steps(M, r, 8), b, 24);
    StepsAdd(M, r, 8, 24);
    StepsAdd(M, r, 24, 8);
    StepsAdd(M, b, 16, 8);
    StepsLinear(M, Steps(M, r, 24), Steps(M, b, 16), 8);
  }

  /** A message of symbols as bits, each symbol written out by f. */
  ghost function BitsOf<B>(f: B -> seq<bool>, symbols: seq<B>): seq<bool> {
    if |symbols| == 0 then [] else BitsOf(f, symbols[..|symbols| - 1]) + f(symbols[|symbols| - 1])
  }

  lemma {:induction false} BitsOfLength<B>(f: B -> seq<bool>, symbols: seq<B>, w: nat)
    requires forall b :: |f(b)| == w
    ensures |BitsOf(f, symbols)| == w * |symbols|
  {
    if |symbols| != 0 {
      BitsOfLength(f, symbols[..|symbols| - 1], w);
      assert w * |symbols| == w * (|symbols| - 1) + w;
    }
  }

  lemma BitsOfAppend<B>(f: B -> seq<bool>, a: seq<B>, b: B)
    ensures BitsOf(f, a + [b]) == BitsOf(f, a) + f(b)
  {
    assert (a + [b])[..|a|] == a;
  }

  lemma {:induction false} BitsOfConcat<B>(f: B -> seq<bool>, a: seq<B>, b: seq<B>)
    ensures BitsOf(f, a + b) == BitsOf(f, a) + BitsOf(f, b)
  {
    if |b| == 0 {
      assert a + b == a;
    } else {
      var b' := b[..|b| - 1];
      BitsOfConcat(f, a, b');
      assert (a + b)[..|a + b| - 1] == a + b';
      assert BitsOf(f, a + b) == (BitsOf(f, a) + BitsOf(f, b')) + f(b[|b| - 1]);
    }
  }

  lemma XorIsZero<T(!new)>(M: Register<T>, a: T, b: T)
    requires Linear(M)
    ensures M.xor(a, b) == M.zero <==> a == b
  {
    LinearLaws(M, a, b, b);
    LinearLaws(M, b, b, b);
    LinearLaws(M, M.zero, b, b);
    LinearLaws(M, b, M.zero, b);
    LinearLaws(M, a, M.zero, a);
  }

  /** Splitting off the last k bits, when the register takes them in unchanged. */
  lemma RemSplit<T(!new)>(M: Register<T>, a: seq<bool>, b: seq<bool>)
    requires Linear(M)
    ensures Rem(M, a + b) == M.xor(Rem(M, a + Zeros(|b|)), Rem(M, b))
  {
    RemConcat(M, a, b);
    RemAppendZeros(M, a, |b|);
  }

  /** Every set bit of e lies in a window of `width` positions starting at `start`. */
  ghost predicate Burst(e: seq<bool>, start: nat, width: nat) {
    forall i :: 0 <= i < |e| && e[i] ==> start <= i < start + width
  }

  /** A burst leaves the remainder of its window, stepped on to the end of the message. */
  lemma BurstRemainder<T(!new)>(M: Register<T>, e: seq<bool>, start: nat, width: nat)
    returns (window: seq<bool>, k: nat)
    requires Linear(M) && Burst(e, start, width) && exists i :: 0 <= i < |e| && e[i]
    ensures |window| <= width && Value(window) != 0
    ensures Rem(M, e) == Steps(M, Rem(M, window), k)
  {
    var i :| 0 <= i < |e| && e[i];
    var n := |e|;
    var end := if start + width < n then start + width else n;
    window, k := e[start..end], n - end;
    assert window[i - start];
    if Value(window) == 0 {
      ValueZero(window);
      assert false;
    }
    assert e[..start] == Zeros(start) && e[end..] == Zeros(k);
    assert e == (Zeros(start) + window) + Zeros(k);
    RemAppendZeros(M, Zeros(start) + window, k);
    RemConcat(M, Zeros(start), window);
    RemZeros(M, start);
    StepsOfZero(M, |window|);
    var r := Rem(M, window);
    LinearLaws(M, M.zero, r, r);
    LinearLaws(M, r, M.zero, r);
  }

  /** Two messages of which one is divisible: the other is divisible exactly when their difference is. */
  lemma DifferenceDivisible<T(!new)>(M: Register<T>, a: seq<bool>, b: seq<bool>)
    requires Linear(M) && |a| == |b| && Rem(M, a) == M.zero
    ensures Rem(M, b) == M.zero <==> Rem(M, XorBits(a, b)) == M.zero
  {
    RemLinear(M, a, b);
    XorIsZero(M, Rem(M, a), Rem(M, b));
  }
}
