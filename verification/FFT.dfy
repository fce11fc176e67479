/**
 The in-place radix-2 transform of Source/DSP/FFT.h over an arbitrary commutative ring,
 proved equal to the discrete Fourier sum.
 */
module FFT {
  import opened Algebra
  import opened Arith

  /** Source/DSP/FFT.h:28-34 */
  method Log2(x: nat) returns (y: nat)
    ensures x > 0 ==> Pow2(y) <= x < Pow2(y + 1)
    ensures x == 0 ==> y == 0
  {
    var rest := x / 2;
    y := 0;
    assert Pow2(1) == 2;
    while rest != 0
      invariant rest >= 0 && rest == x / Pow2(y + 1)
      invariant x > 0 ==> Pow2(y) <= x
      invariant x == 0 ==> y == 0
      decreases rest
    {
      QuotientAtLeastOne(x, Pow2(y + 1));
      HalveQuotient(x, Pow2(y + 1));
      rest := rest / 2;
      y := y + 1;
    }
    DivMod(x, Pow2(y + 1));
  }

  lemma QuotientAtLeastOne(x: nat, p: nat)
    requires p > 0
    ensures x / p != 0 ==> p <= x
    ensures x == 0 ==> x / p == 0
  {
    if x < p {
      DivModUnique(0, p, x);
    }
  }

  // ---------------------------------------------------------------- bit reversal

  /** The low n bits of x in the opposite order, one bit at a time. */
  function BitReverse(x: nat, n: nat): nat {
    if n == 0 then 0 else (x % 2) * Pow2(n - 1) + BitReverse(x / 2, n - 1)
  }

  function Bit(x: nat, i: nat): nat {
    (x / Pow2(i)) % 2
  }

  lemma {:induction false} BitReverseBound(x: nat, n: nat)
    ensures BitReverse(x, n) < Pow2(n)
  {
    if n != 0 {
      BitReverseBound(x / 2, n - 1);
      assert x % 2 == 0 || x % 2 == 1;
    }
  }

  /** The independent meaning of BitReverse: bit i of the result is bit n-1-i of the argument. */
  lemma {:induction false} BitReverseBits(x: nat, n: nat, i: nat)
    requires i < n
    ensures Bit(BitReverse(x, n), i) == Bit(x, n - 1 - i)
  {
    var r := BitReverse(x, n);
    if i == n - 1 {
      FirstReversed(x, n, r);
      assert Bit(x, 0) == x % 2;
    } else {
      BitReverseBits(x / 2, n - 1, i);
      OthersReversed(x, n, i, r);
      HalfBit(x, n - 2 - i);
    }
  }

  lemma FirstReversed(x: nat, n: nat, r: nat)
    requires n > 0 && r == BitReverse(x, n)
    ensures Bit(r, n - 1) == x % 2
  {
    BitReverseBound(x / 2, n - 1);
    TopBit(x % 2, BitReverse(x / 2, n - 1), n - 1);
  }

  lemma OthersReversed(x: nat, n: nat, i: nat, r: nat)
    requires i + 1 < n && r == BitReverse(x, n)
    ensures Bit(r, i) == Bit(BitReverse(x / 2, n - 1), i)
  {
    AddAbove(x % 2, BitReverse(x / 2, n - 1), i, n - 1);
  }

  lemma TopBit(top: nat, low: nat, m: nat)
    requires top < 2 && low < Pow2(m)
    ensures Bit(top * Pow2(m) + low, m) == top
  {
    DivModUnique(top, Pow2(m), low);
  }

  lemma HalfBit(x: nat, i: nat)
    ensures Bit(x / 2, i) == Bit(x, i + 1)
  {
    DivDiv(x, Pow2(i));
  }

  /** Adding a multiple of 2^k leaves bit i < k alone. */
  lemma AddAbove(top: nat, low: nat, i: nat, k: nat)
    requires i < k
    ensures Bit(top * Pow2(k) + low, i) == Bit(low, i)
  {
    var p, e := Pow2(i), Pow2(k - 1 - i);
    assert top * Pow2(k) == (2 * (top * e)) * p by {
      Pow2Add(i, k - i);
      assert Pow2(k - i) == 2 * e;
      MulAssoc(2 * e, p, 1);
      MulAssoc(top, 2 * e, p);
      MulAssoc(top, 2, e);
    }
    EvenQuotient(top * e, low, p);
  }

  lemma EvenQuotient(u: nat, low: nat, p: nat)
    requires p > 0
    ensures (2 * u * p + low) / p % 2 == low / p % 2
  {
    DivMod(low, p);
    MulAdd(2 * u, low / p, p);
    DivModUnique(2 * u + low / p, p, low % p);
  }

  /** Reversal seen from the top bit. */
  lemma {:induction false} BitReverseTop(h: nat, l: nat, n: nat)
    requires n > 0 && h < 2 && l < Pow2(n - 1)
    ensures BitReverse(h * Pow2(n - 1) + l, n) == 2 * BitReverse(l, n - 1) + h
  {
    var x := h * Pow2(n - 1) + l;
    if n > 1 {
      var p := Pow2(n - 2);
      assert h * Pow2(n - 1) == 2 * (h * p);
      assert x / 2 == h * p + l / 2 && x % 2 == l % 2;
      BitReverseTop(h, l / 2, n - 1);
      assert (x % 2) * Pow2(n - 1) == 2 * ((x % 2) * p);
    } else {
      assert l == 0 && Pow2(0) == 1;
    }
  }

  lemma {:induction false} BitReverseInvolution(x: nat, n: nat)
    requires x < Pow2(n)
    ensures BitReverse(BitReverse(x, n), n) == x
  {
    if n != 0 {
      BitReverseBound(x / 2, n - 1);
      BitReverseTop(x % 2, BitReverse(x / 2, n - 1), n);
      BitReverseInvolution(x / 2, n - 1);
    }
  }

  const REV4: seq<nat> := [0, 8, 4, 12, 2, 10, 6, 14, 1, 9, 5, 13, 3, 11, 7, 15]

  lemma Rev4Step(x: nat, n: nat)
    requires n >= 4
    ensures BitReverse(x, n) == REV4[x % 16] * Pow2(n - 4) + BitReverse(x / 16, n - 4)
  {
    var p := Pow2(n - 4);
    var x1, x2, x3 := x / 2, x / 2 / 2, x / 2 / 2 / 2;
    var a, b, c, d := x % 2, x1 % 2, x2 % 2, x3 % 2;
    assert x3 / 2 == x / 16 && x % 16 == a + 2 * b + 4 * c + 8 * d;
    assert BitReverse(x3, n - 3) == d * p + BitReverse(x / 16, n - 4);
    assert BitReverse(x2, n - 2) == c * Pow2(n - 3) + BitReverse(x3, n - 3);
    assert BitReverse(x1, n - 1) == b * Pow2(n - 2) + BitReverse(x2, n - 2);
    assert BitReverse(x, n) == a * Pow2(n - 1) + BitReverse(x1, n - 1);
    Rev4Table(a, b, c, d);
    FourBits(a, b, c, d, p, n);
  }

  lemma FourBits(a: nat, b: nat, c: nat, d: nat, p: nat, n: nat)
    requires n >= 4 && p == Pow2(n - 4)
    ensures a * Pow2(n - 1) + b * Pow2(n - 2) + c * Pow2(n - 3) + d * p == (8 * a + 4 * b + 2 * c + d) * p
  {
    assert Pow2(n - 3) == 2 * p && Pow2(n - 2) == 4 * p && Pow2(n - 1) == 8 * p;
    MulAssoc(a, 8, p);
    MulAssoc(b, 4, p);
    MulAssoc(c, 2, p);
    MulAdd(8 * a, 4 * b, p);
    MulAdd(8 * a + 4 * b, 2 * c, p);
    MulAdd(8 * a + 4 * b + 2 * c, d, p);
  }

  lemma Rev4Table(a: nat, b: nat, c: nat, d: nat)
    requires a < 2 && b < 2 && c < 2 && d < 2
    ensures REV4[a + 2 * b + 4 * c + 8 * d] == 8 * a + 4 * b + 2 * c + d
  {
  }

  lemma SixteenTimes(n: nat)
    requires n >= 4
    ensures Pow2(n) == 16 * Pow2(n - 4)
  {
    assert Pow2(n - 2) == 4 * Pow2(n - 4);
  }

  /** Source/DSP/FFT.h:36-69, the portable branch: four bits a round, then one at a time. */
  method Rev(x: nat, logN: nat) returns (y: nat)
    ensures y == BitReverse(x, logN)
  {
    y := 0;
    var rest := x;
    var j := 0;
    while j < logN / 4
      invariant j <= logN / 4
      invariant BitReverse(x, logN) == y * Pow2(logN - 4 * j) + BitReverse(rest, logN - 4 * j)
    {
      ghost var n := logN - 4 * j;
      Rev4Step(rest, n);
      SixteenTimes(n);
      MulAssoc(y, 16, Pow2(n - 4));
      MulAdd(y * 16, REV4[rest % 16], Pow2(n - 4));
      y := y * 16 + REV4[rest % 16];
      rest := rest / 16;
      j := j + 1;
    }
    var i := j * 4;
    while i < logN
      invariant i <= logN
      invariant BitReverse(x, logN) == y * Pow2(logN - i) + BitReverse(rest, logN - i)
    {
      ghost var p := Pow2(logN - i - 1);
      MulAssoc(y, 2, p);
      MulAdd(y * 2, rest % 2, p);
      y := y * 2 + rest % 2;
      rest := rest / 2;
      i := i + 1;
    }
  }

  // ---------------------------------------------------------------- the Fourier sum

  /** The discrete Fourier sum: the first n terms of sum a[i] * w^(k*i). */
  ghost function Dft<T>(R: Ring<T>, a: seq<T>, w: T, k: nat, n: nat): T
    requires n <= |a|
  {
    if n == 0 then R.zero
    else R.add(Dft(R, a, w, k, n - 1), R.mul(a[n - 1], Pow(R, w, k * (n - 1))))
  }

  ghost function At<T>(R: Ring<T>, a: seq<T>, i: nat): T {
    if i < |a| then a[i] else R.zero
  }

  /** The polynomial with coefficients a[r], a[r+d], a[r+2d], ... (c of them), evaluated at v. */
  ghost function Eval<T>(R: Ring<T>, a: seq<T>, r: nat, d: nat, v: T, c: nat): T {
    if c == 0 then R.zero
    else R.add(Eval(R, a, r, d, v, c - 1), R.mul(At(R, a, r + (c - 1) * d), Pow(R, v, c - 1)))
  }

  lemma {:induction false} EvalIsDft<T(!new)>(R: Ring<T>, a: seq<T>, w: T, k: nat, n: nat)
    requires CommutativeRing(R) && n <= |a|
    ensures Eval(R, a, 0, 1, Pow(R, w, k), n) == Dft(R, a, w, k, n)
  {
    if n != 0 {
      EvalIsDft(R, a, w, k, n - 1);
      PowMul(R, w, k, n - 1);
    }
  }

  lemma PowSquare<T(!new)>(R: Ring<T>, v: T, c: nat)
    requires CommutativeRing(R)
    ensures Pow(R, v, 2 * c) == Pow(R, R.mul(v, v), c)
  {
    PowMul(R, v, 2, c);
    Laws(R, v, R.one, R.one);
    assert Pow(R, v, 1) == R.mul(v, Pow(R, v, 0));
  }

  /** Decimation in time: P(v) = E(v^2) + v * O(v^2). */
  lemma {:induction false} EvalSplit<T(!new)>(R: Ring<T>, a: seq<T>, r: nat, d: nat, v: T, c: nat)
    requires CommutativeRing(R)
    ensures Eval(R, a, r, d, v, 2 * c)
         == R.add(Eval(R, a, r, 2 * d, R.mul(v, v), c), R.mul(v, Eval(R, a, r + d, 2 * d, R.mul(v, v), c)))
  {
    if c == 0 {
      MulZero(R, v);
      Laws(R, R.zero, R.zero, R.zero);
    } else {
      EvalSplit(R, a, r, d, v, c - 1);
      var i0, i1 := PairIndices(r, c - 1, d);
      PairUp(R, a, r, d, 2 * d, v, c - 1, 2 * (c - 1), i0, i1);
      assert 2 * (c - 1) + 2 == 2 * c;
    }
  }

  /** The last two of 2m + 2 coefficients go to the two halves; the products are named so that none is left here. */
  lemma PairUp<T(!new)>(R: Ring<T>, a: seq<T>, r: nat, d: nat, dd: nat, v: T, m: nat, n: nat, i0: nat, i1: nat)
    requires CommutativeRing(R) && i0 == r + n * d == r + m * dd && i1 == r + (n + 1) * d == r + d + m * dd
    requires n == 2 * m
    requires Eval(R, a, r, d, v, n)
          == R.add(Eval(R, a, r, dd, R.mul(v, v), m), R.mul(v, Eval(R, a, r + d, dd, R.mul(v, v), m)))
    ensures Eval(R, a, r, d, v, n + 2)
         == R.add(Eval(R, a, r, dd, R.mul(v, v), m + 1), R.mul(v, Eval(R, a, r + d, dd, R.mul(v, v), m + 1)))
  {
    var vv := R.mul(v, v);
    var q := Pow(R, vv, m);
    PowSquare(R, v, m);
    LastTwo(R, a, r, d, v, n, i0, i1, q);
    LastOne(R, a, r, dd, vv, m, i0, q);
    LastOne(R, a, r + d, dd, vv, m, i1, q);
    TakeInPair(R, Eval(R, a, r, dd, vv, m), Eval(R, a, r + d, dd, vv, m), v, q, At(R, a, i0), At(R, a, i1));
  }

  /** The places of the last two of 2m + 2 coefficients, counted by ones and by twos. */
  lemma PairIndices(r: nat, m: nat, d: nat) returns (i0: nat, i1: nat)
    ensures i0 == r + (2 * m) * d == r + m * (2 * d)
    ensures i1 == r + (2 * m + 1) * d == r + d + m * (2 * d)
  {
    MulMonotone(0, 2 * m, d);
    MulAssoc(m, 2, d);
    MulAdd(2 * m, 1, d);
    i0 := r + (2 * m) * d;
    i1 := i0 + d;
  }

  lemma LastOne<T(!new)>(R: Ring<T>, a: seq<T>, r: nat, d: nat, v: T, n: nat, i: nat, q: T)
    requires i == r + n * d && q == Pow(R, v, n)
    ensures Eval(R, a, r, d, v, n + 1) == R.add(Eval(R, a, r, d, v, n), R.mul(At(R, a, i), q))
  {
  }

  lemma LastTwo<T(!new)>(R: Ring<T>, a: seq<T>, r: nat, d: nat, v: T, n: nat, i0: nat, i1: nat, q: T)
    requires i0 == r + n * d && i1 == r + (n + 1) * d && q == Pow(R, v, n)
    ensures Eval(R, a, r, d, v, n + 2)
         == R.add(R.add(Eval(R, a, r, d, v, n), R.mul(At(R, a, i0), q)), R.mul(At(R, a, i1), R.mul(v, q)))
  {
    LastOne(R, a, r, d, v, n + 1, i1, R.mul(v, q));
    LastOne(R, a, r, d, v, n, i0, q);
  }

  /** ((e + v o) + x0 q) + x1 (v q) == (e + x0 q) + v (o + x1 q) */
  lemma TakeInPair<T(!new)>(R: Ring<T>, e: T, o: T, v: T, q: T, x0: T, x1: T)
    requires CommutativeRing(R)
    ensures R.add(R.add(R.add(e, R.mul(v, o)), R.mul(x0, q)), R.mul(x1, R.mul(v, q)))
         == R.add(R.add(e, R.mul(x0, q)), R.mul(v, R.add(o, R.mul(x1, q))))
  {
    // x1 * (v * q) == v * (x1 * q)
    Laws(R, x1, v, q);
    Laws(R, v, x1, q);
    Laws(R, v, o, R.mul(x1, q));
    Laws(R, R.add(e, R.mul(v, o)), R.mul(x0, q), R.mul(v, R.mul(x1, q)));
    Interchange(R, e, R.mul(v, o), R.mul(x0, q), R.mul(v, R.mul(x1, q)));
  }

  /** What cell i holds once blocks of size m are transformed and d levels remain. */
  ghost function Node<T>(R: Ring<T>, a: seq<T>, w: T, m: nat, d: nat, i: nat): T
    requires m > 0
  {
    Eval(R, a, BitReverse(i / m, d), Pow2(d), Pow(R, w, Pow2(d) * (i % m)), m)
  }

  /** Half a turn further a power changes its sign. */
  lemma HalfTurn<T(!new)>(R: Ring<T>, w: T, p: nat, half: nat)
    requires CommutativeRing(R) && Pow(R, w, half) == R.neg(R.one)
    ensures Pow(R, w, p + half) == R.neg(Pow(R, w, p))
  {
    var v, minus := Pow(R, w, p), R.neg(R.one);
    PowAdd(R, w, p, half);
    Laws(R, v, minus, minus);
    Laws(R, R.one, v, v);
    Laws(R, v, R.one, R.one);
    MulNeg(R, R.one, v);
  }

  lemma SquareOfNeg<T(!new)>(R: Ring<T>, v: T)
    requires CommutativeRing(R)
    ensures R.mul(R.neg(v), R.neg(v)) == R.mul(v, v)
  {
    MulNeg(R, v, R.neg(v));
    Laws(R, v, R.neg(v), v);
    MulNeg(R, v, v);
    NegNeg(R, R.mul(v, v));
  }

  /** Cell i stands at place j of the lower half of block b, and cell i + h at the same place of the upper half. */
  predicate Paired(i: nat, b: nat, h: nat, j: nat) {
    && 0 <= j < h
    && i / (2 * h) == b && i % (2 * h) == j
    && (i + h) / (2 * h) == b && (i + h) % (2 * h) == j + h
    && i / h == 2 * b && i % h == j
    && (i + h) / h == 2 * b + 1 && (i + h) % h == j
  }

  /** The cells of a butterfly after it, as values of polynomials. */
  lemma NodesAfter<T(!new)>(R: Ring<T>, a: seq<T>, w: T, h: nat, d: nat, b: nat, j: nat, i: nat, p: nat, half: nat)
    requires d > 0 && Paired(i, b, h, j) && p == j * Pow2(d - 1) && half == h * Pow2(d - 1)
    ensures var r, s := BitReverse(b, d - 1), Pow2(d - 1);
            && Node(R, a, w, 2 * h, d - 1, i) == Eval(R, a, r, s, Pow(R, w, p), 2 * h)
            && Node(R, a, w, 2 * h, d - 1, i + h) == Eval(R, a, r, s, Pow(R, w, p + half), 2 * h)
  {
    Exponents(Pow2(d - 1), j, h, p, half);
    NodeIs(R, a, w, 2 * h, d - 1, i, b, j, p);
    NodeIs(R, a, w, 2 * h, d - 1, i + h, b, j + h, p + half);
  }

  /** The same cells before it. */
  lemma NodesBefore<T(!new)>(R: Ring<T>, a: seq<T>, w: T, h: nat, d: nat, b: nat, j: nat, i: nat, p: nat)
    requires d > 0 && Paired(i, b, h, j) && p == j * Pow2(d - 1)
    ensures var r, s := BitReverse(b, d - 1), Pow2(d - 1);
            && Node(R, a, w, h, d, i) == Eval(R, a, r, 2 * s, Pow(R, w, p + p), h)
            && Node(R, a, w, h, d, i + h) == Eval(R, a, r + s, 2 * s, Pow(R, w, p + p), h)
  {
    ReverseOfChildren(b, d);
    Exponents(Pow2(d - 1), j, h, p, h * Pow2(d - 1));
    NodeIs(R, a, w, h, d, i, 2 * b, j, p + p);
    NodeIs(R, a, w, h, d, i + h, 2 * b + 1, j, p + p);
  }

  lemma NodeIs<T(!new)>(R: Ring<T>, a: seq<T>, w: T, m: nat, d: nat, i: nat, b: nat, j: nat, p: nat)
    requires m > 0 && i / m == b && i % m == j && Pow2(d) * j == p
    ensures Node(R, a, w, m, d, i) == Eval(R, a, BitReverse(b, d), Pow2(d), Pow(R, w, p), m)
  {
  }

  lemma ReverseOfChildren(b: nat, d: nat)
    requires d > 0
    ensures BitReverse(2 * b, d) == BitReverse(b, d - 1)
    ensures BitReverse(2 * b + 1, d) == BitReverse(b, d - 1) + Pow2(d - 1)
  {
    assert (2 * b) % 2 == 0 && (2 * b) / 2 == b && (2 * b + 1) % 2 == 1 && (2 * b + 1) / 2 == b;
  }

  lemma Exponents(s: nat, j: nat, h: nat, p: nat, half: nat)
    requires p == j * s && half == h * s
    ensures s * j == p && s * (j + h) == p + half && (2 * s) * j == p + p
  {
    MulAdd(j, h, s);
    MulAssoc(2, s, j);
  }

  /** The same in terms of one point v. */
  lemma NodesAt<T(!new)>(R: Ring<T>, a: seq<T>, w: T, h: nat, d: nat, b: nat, j: nat, i: nat, p: nat)
    requires CommutativeRing(R) && d > 0 && Paired(i, b, h, j) && p == j * Pow2(d - 1)
    requires Pow(R, w, h * Pow2(d - 1)) == R.neg(R.one)
    ensures var r, s, v := BitReverse(b, d - 1), Pow2(d - 1), Pow(R, w, p);
            && Node(R, a, w, 2 * h, d - 1, i) == Eval(R, a, r, s, v, 2 * h)
            && Node(R, a, w, 2 * h, d - 1, i + h) == Eval(R, a, r, s, R.neg(v), 2 * h)
            && Node(R, a, w, h, d, i) == Eval(R, a, r, 2 * s, R.mul(v, v), h)
            && Node(R, a, w, h, d, i + h) == Eval(R, a, r + s, 2 * s, R.mul(v, v), h)
  {
    var half := h * Pow2(d - 1);
    NodesAfter(R, a, w, h, d, b, j, i, p, half);
    NodesBefore(R, a, w, h, d, b, j, i, p);
    HalfTurn(R, w, p, half);
    PowAdd(R, w, p, p);
  }

  /** P(v) and P(-v) from the same two halves. */
  lemma SplitBothWays<T(!new)>(R: Ring<T>, a: seq<T>, r: nat, s: nat, v: T, h: nat)
    requires CommutativeRing(R)
    ensures var e, o := Eval(R, a, r, 2 * s, R.mul(v, v), h), Eval(R, a, r + s, 2 * s, R.mul(v, v), h);
            && Eval(R, a, r, s, v, 2 * h) == R.add(e, R.mul(v, o))
            && Eval(R, a, r, s, R.neg(v), 2 * h) == R.Sub(e, R.mul(v, o))
  {
    SquareOfNeg(R, v);
    EvalSplit(R, a, r, s, v, h);
    EvalSplit(R, a, r, s, R.neg(v), h);
    MulNeg(R, v, Eval(R, a, r + s, 2 * s, R.mul(v, v), h));
  }

  /** One butterfly turns two cells of level d into the two cells of level d-1. */
  lemma Butterfly<T(!new)>(R: Ring<T>, a: seq<T>, w: T, h: nat, d: nat, b: nat, j: nat, i: nat, p: nat)
    requires CommutativeRing(R) && d > 0 && Paired(i, b, h, j) && p == j * Pow2(d - 1)
    requires Pow(R, w, h * Pow2(d - 1)) == R.neg(R.one)
    ensures var t := R.mul(Pow(R, w, p), Node(R, a, w, h, d, i + h));
            && Node(R, a, w, 2 * h, d - 1, i) == R.add(Node(R, a, w, h, d, i), t)
            && Node(R, a, w, 2 * h, d - 1, i + h) == R.Sub(Node(R, a, w, h, d, i), t)
  {
    var v, r, s := Pow(R, w, p), BitReverse(b, d - 1), Pow2(d - 1);
    var e, o := Eval(R, a, r, 2 * s, R.mul(v, v), h), Eval(R, a, r + s, 2 * s, R.mul(v, v), h);
    assert Eval(R, a, r, s, v, 2 * h) == R.add(e, R.mul(v, o))
        && Eval(R, a, r, s, R.neg(v), 2 * h) == R.Sub(e, R.mul(v, o)) by {
      SplitBothWays(R, a, r, s, v, h);
    }
    NodesAt(R, a, w, h, d, b, j, i, p);
  }

  lemma NegNeg<T(!new)>(R: Ring<T>, a: T)
    requires CommutativeRing(R)
    ensures R.neg(R.neg(a)) == a
  {
    var n := R.neg(a);
    Laws(R, a, n, R.neg(n));
    Laws(R, n, R.zero, R.zero);
    Laws(R, R.zero, R.neg(n), R.neg(n));
    Laws(R, R.neg(n), R.zero, R.zero);
  }

  lemma BlockIndices(b: nat, h: nat, j: nat)
    requires j < h
    ensures Paired(b * (2 * h) + j, b, h, j)
  {
    DivModUnique(b, 2 * h, j);
    DivModUnique(b, 2 * h, j + h);
    MulAssoc(b, 2, h);
    MulAdd(2 * b, 1, h);
    DivModUnique(2 * b, h, j);
    DivModUnique(2 * b + 1, h, j);
  }

  // ---------------------------------------------------------------- the in-place loops

  /** The contents of cell i in the middle of a stage: columns below j, and column j below k, are done. */
  ghost function Cell<T>(R: Ring<T>, a: seq<T>, w: T, h: nat, d: nat, j: nat, k: nat, i: nat): T
    requires h > 0 && d > 0
  {
    if i % h < j || (i % h == j && i < k) then Node(R, a, w, 2 * h, d - 1, i) else Node(R, a, w, h, d, i)
  }

  ghost predicate InStage<T>(R: Ring<T>, a: seq<T>, w: T, h: nat, d: nat, j: nat, k: nat, x: seq<T>)
    requires h > 0 && d > 0
  {
    forall i :: 0 <= i < |x| ==> x[i] == Cell(R, a, w, h, d, j, k, i)
  }

  lemma OnlyTwoInColumn(b: nat, h: nat, j: nat, i: nat)
    requires j < h && b * (2 * h) <= i < b * (2 * h) + 2 * h && i % h == j
    ensures i == b * (2 * h) + j || i == b * (2 * h) + j + h
  {
    var o := i - b * (2 * h);
    BlockIndices(b, h, if o < h then o else o - h);
  }

  lemma ButterflyKeepsStage<T(!new)>(R: Ring<T>, a: seq<T>, w: T, h: nat, d: nat, j: nat, b: nat, k: nat,
                                     half: nat, o: T, x: seq<T>, y: seq<T>)
    requires CommutativeRing(R) && d > 0 && j < h && k == b * (2 * h) && k + 2 * h <= |x|
    requires half == h * Pow2(d - 1) && Pow(R, w, half) == R.neg(R.one) && o == Pow(R, w, j * Pow2(d - 1))
    requires InStage(R, a, w, h, d, j, k, x)
    requires var i := k + j; var t := R.mul(o, x[i + h]); y == x[i + h := R.Sub(x[i], t)][i := R.add(x[i], t)]
    ensures InStage(R, a, w, h, d, j, k + 2 * h, y)
  {
    BlockIndices(b, h, j);
    PairDone(R, a, w, h, d, j, b, k, k + j, j * Pow2(d - 1), x, y);
    forall i | 0 <= i < |y|
      ensures y[i] == Cell(R, a, w, h, d, j, k + 2 * h, i)
    {
      if i != k + j && i != k + j + h {
        CellStays(R, a, w, h, d, j, b, i);
      }
    }
  }

  /** The two cells of a butterfly hold what they hold once their block is done. */
  lemma PairDone<T(!new)>(R: Ring<T>, a: seq<T>, w: T, h: nat, d: nat, j: nat, b: nat, k: nat, i: nat, p: nat,
                          x: seq<T>, y: seq<T>)
    requires CommutativeRing(R) && d > 0 && Paired(i, b, h, j) && i == k + j && i + h < |x| && p == j * Pow2(d - 1)
    requires Pow(R, w, h * Pow2(d - 1)) == R.neg(R.one) && InStage(R, a, w, h, d, j, k, x)
    requires var t := R.mul(Pow(R, w, p), x[i + h]); y == x[i + h := R.Sub(x[i], t)][i := R.add(x[i], t)]
    ensures y[i] == Cell(R, a, w, h, d, j, k + 2 * h, i) && y[i + h] == Cell(R, a, w, h, d, j, k + 2 * h, i + h)
  {
    Butterfly(R, a, w, h, d, b, j, i, p);
    assert x[i] == Node(R, a, w, h, d, i) && x[i + h] == Node(R, a, w, h, d, i + h);
  }

  /** Cells outside the butterfly are in the same condition before and after it. */
  lemma CellStays<T>(R: Ring<T>, a: seq<T>, w: T, h: nat, d: nat, j: nat, b: nat, i: nat)
    requires d > 0 && j < h && i != b * (2 * h) + j && i != b * (2 * h) + j + h
    ensures Cell(R, a, w, h, d, j, b * (2 * h), i) == Cell(R, a, w, h, d, j, b * (2 * h) + 2 * h, i)
  {
    if i % h == j && b * (2 * h) <= i < b * (2 * h) + 2 * h {
      OnlyTwoInColumn(b, h, j, i);
      assert false;
    }
  }

  /** Column j is complete once k has passed the end of the array. */
  lemma NextColumn<T>(R: Ring<T>, a: seq<T>, w: T, h: nat, d: nat, j: nat, x: seq<T>)
    requires d > 0 && j < h && InStage(R, a, w, h, d, j, |x|, x)
    ensures InStage(R, a, w, h, d, j + 1, 0, x)
  {
  }

  ghost predicate AllNodes<T>(R: Ring<T>, a: seq<T>, w: T, m: nat, d: nat, x: seq<T>)
    requires m > 0
  {
    forall i :: 0 <= i < |x| ==> x[i] == Node(R, a, w, m, d, i)
  }

  lemma StageEnds<T>(R: Ring<T>, a: seq<T>, w: T, h: nat, d: nat, x: seq<T>)
    requires h > 0 && d > 0 && InStage(R, a, w, h, d, h, 0, x)
    ensures AllNodes(R, a, w, 2 * h, d - 1, x)
  {
  }

  /** The array whose entry n is x[rev(n)], the samples in their natural order. */
  ghost function Unscrambled<T>(x: seq<T>, n: nat): (a: seq<T>)
    requires |x| == Pow2(n)
    ensures |a| == |x|
    ensures forall i :: 0 <= i < |a| ==> BitReverse(i, n) < |x| && a[i] == x[BitReverse(i, n)]
  {
    BoundAll(n);
    seq(|x|, i requires 0 <= i < |x| => x[BitReverse(i, n)])
  }

  lemma BoundAll(n: nat)
    ensures forall i: nat {:trigger BitReverse(i, n)} :: BitReverse(i, n) < Pow2(n)
  {
    forall i: nat
      ensures BitReverse(i, n) < Pow2(n)
    {
      BitReverseBound(i, n);
    }
  }

  lemma ScrambledCells<T(!new)>(R: Ring<T>, w: T, x: seq<T>, n: nat)
    requires CommutativeRing(R) && |x| == Pow2(n)
    ensures AllNodes(R, Unscrambled(x, n), w, 1, n, x)
  {
    var a := Unscrambled(x, n);
    forall i: nat | i < |x|
      ensures x[i] == Node(R, a, w, 1, n, i)
    {
      var r := BitReverse(i, n);
      BitReverseBound(i, n);
      BitReverseInvolution(i, n);
      assert i / 1 == i && i % 1 == 0;
      assert a[r] == x[i];
      var p := Pow(R, Pow(R, w, 0), 0);
      Laws(R, a[r], R.one, R.one);
      Laws(R, R.zero, a[r], R.one);
      Laws(R, a[r], R.zero, R.one);
      assert Node(R, a, w, 1, n, i) == Eval(R, a, r, Pow2(n), Pow(R, w, Pow2(n) * 0), 1);
      assert Eval(R, a, r, Pow2(n), Pow(R, w, Pow2(n) * 0), 0) == R.zero;
      assert r + 0 * Pow2(n) == r;
    }
  }

  lemma FinalCells<T(!new)>(R: Ring<T>, a: seq<T>, w: T, x: seq<T>)
    requires CommutativeRing(R) && |x| == |a| > 0
    requires AllNodes(R, a, w, |x|, 0, x)
    ensures forall k :: 0 <= k < |x| ==> x[k] == Dft(R, a, w, k, |x|)
  {
    forall k | 0 <= k < |x|
      ensures x[k] == Dft(R, a, w, k, |x|)
    {
      DivModUnique(0, |x|, k);
      assert x[k] == Node(R, a, w, |x|, 0, k);
      assert Pow2(0) * (k % |x|) == k;
      EvalIsDft(R, a, w, k, |x|);
    }
  }

  lemma RevOfPower(i: nat, n: nat)
    requires i < n
    ensures BitReverse(Pow2(i), n) == Pow2(n - 1 - i)
  {
    if i == 0 {
      RevOfZero(n - 1);
      assert Pow2(0) == 1;
    } else {
      RevOfPower(i - 1, n - 1);
    }
  }

  lemma {:induction false} RevOfZero(n: nat)
    ensures BitReverse(0, n) == 0
  {
    if n != 0 {
      RevOfZero(n - 1);
    }
  }

  /**
   Source/DSP/FFT.h:86-131. `root` gives the principal root of unity the code takes from std::polar.
   */
  class Plan<T(!new)> {
    const R: Ring<T>
    const root: nat -> T
    var Omega: seq<T>
    var N: nat
    var logN: nat

    ghost predicate Valid()
      reads this
    {
      && CommutativeRing(R)
      && (N > 0 ==> N == Pow2(logN) && |Omega| == N)
      && forall s :: 0 <= s < |Omega| ==> Omega[s] == Pow(R, root(N), s)
    }

    constructor (R: Ring<T>, root: nat -> T)
      requires CommutativeRing(R)
      ensures Valid() && this.R == R && this.root == root && N == 0
    {
      this.R, this.root := R, root;
      Omega, N, logN := [], 0, 0;
    }

    /** Source/DSP/FFT.h:71-84; `ok` is false where the code throws. */
    method CalcOmega(n: nat) returns (ok: bool, table: seq<T>)
      requires exists p :: n == Pow2(p)
      ensures ok && |table| == n
      ensures forall s :: 0 <= s < n ==> table[s] == Pow(R, root(n), s)
    {
      ghost var p :| n == Pow2(p);
      var log := Log2(n);
      Pow2Injective(p, log);
      table := [];
      var i, bit, mirrored := 0, 1, n / 2;
      while i < log
        invariant i <= log && bit == Pow2(i)
        invariant i < log ==> mirrored == Pow2(log - 1 - i)
      {
        var y := Rev(bit, log);
        RevOfPower(i, log);
        if y != mirrored {
          return false, [];
        }
        i, bit, mirrored := i + 1, bit * 2, mirrored / 2;
      }
      var s := 0;
      while s < n
        invariant s <= n && |table| == s
        invariant forall q :: 0 <= q < s ==> table[q] == Pow(R, root(n), q)
      {
        table := table + [Pow(R, root(n), s)];
        s := s + 1;
      }
      ok := true;
    }

    /** The innermost loop, Source/DSP/FFT.h:116-122: one twiddle factor, every block. */
    method Column(x: array<T>, o: T, j: nat, h: nat, ghost a: seq<T>, ghost w: T, ghost s: nat, ghost d: nat)
      requires CommutativeRing(R) && d > 0 && j < h
      requires h == Pow2(s) && x.Length == Pow2(s + d)
      requires Pow(R, w, x.Length / 2) == R.neg(R.one) && o == Pow(R, w, j * Pow2(d - 1))
      requires InStage(R, a, w, h, d, j, 0, x[..])
      modifies x
      ensures InStage(R, a, w, h, d, j + 1, 0, x[..])
    {
      StageSizes(s, d);
      var k := 0;
      ghost var b := 0;
      while k < x.Length
        invariant k == b * (2 * h) <= x.Length
        invariant InStage(R, a, w, h, d, j, k, x[..])
        decreases x.Length - k
      {
        NextBlock(b, Pow2(d - 1), 2 * h);
        ghost var before := x[..];
        var t := R.mul(o, x[k + j + h]);
        x[k + j + h] := R.Sub(x[k + j], t);
        x[k + j] := R.add(x[k + j], t);
        assert x[..] == before[k + j + h := R.Sub(before[k + j], t)][k + j := R.add(before[k + j], t)];
        ButterflyKeepsStage(R, a, w, h, d, j, b, k, x.Length / 2, o, before, x[..]);
        k := k + 2 * h;
        b := b + 1;
      }
      NextColumn(R, a, w, h, d, j, x[..]);
    }

    /** One pass of the middle loop, Source/DSP/FFT.h:112-125: all columns of a stage. */
    method Stage(x: array<T>, h: nat, r: nat, ghost a: seq<T>, ghost s: nat)
      requires Valid() && s < logN && h == Pow2(s) && r == Pow2(logN - s - 1)
      requires N == Pow2(logN) == x.Length && Pow(R, root(N), N / 2) == R.neg(R.one)
      requires AllNodes(R, a, root(N), h, logN - s, x[..])
      modifies x
      ensures AllNodes(R, a, root(N), 2 * h, logN - s - 1, x[..])
    {
      ghost var w, d := root(N), logN - s;
      var idx, j := 0, 0;
      assert InStage(R, a, w, h, d, 0, 0, x[..]);
      while j < h
        invariant j <= h && idx == j * r
        invariant InStage(R, a, w, h, d, j, 0, x[..])
      {
        TwiddleIndex(j, s, d);
        Column(x, Omega[idx], j, h, a, w, s, d);
        idx := idx + r;
        j := j + 1;
      }
      StageEnds(R, a, w, h, d, x[..]);
    }

    /** The refresh of the cached table, Source/DSP/FFT.h:97-102. */
    method Prepare(n: nat)
      requires Valid() && exists p :: n == Pow2(p)
      modifies this
      ensures Valid() && N == n == Pow2(logN)
    {
      if N != n {
        N := n;
        logN := Log2(n);
        ghost var p :| n == Pow2(p);
        Pow2Injective(p, logN);
        var ok, table := CalcOmega(n);
        Omega := table;
      }
    }

    /** The outer loop, Source/DSP/FFT.h:104-130. */
    method Stages(x: array<T>, ghost a: seq<T>)
      requires Valid() && x.Length == |a| == N == Pow2(logN)
      requires x.Length > 1 ==> Pow(R, root(N), N / 2) == R.neg(R.one)
      requires AllNodes(R, a, root(N), 1, logN, x[..])
      modifies x
      ensures forall k :: 0 <= k < N ==> x[k] == Dft(R, a, root(N), k, N)
    {
      var m, m2, r, s := 2, 1, N, 0;
      while s < logN
        invariant s <= logN
        invariant m2 == Pow2(s) && m == 2 * m2 && r == Pow2(logN - s)
        invariant AllNodes(R, a, root(N), m2, logN - s, x[..])
        modifies x
      {
        r := r / 2;
        Stage(x, m2, r, a, s);
        m2 := m;
        m := m * 2;
        s := s + 1;
      }
      FinalCells(R, a, root(N), x[..]);
    }

    /** Source/DSP/FFT.h:93-130 */
    method Fft(x: array<T>)
      requires Valid()
      requires exists p :: x.Length == Pow2(p)
      requires x.Length > 1 ==> Pow(R, root(x.Length), x.Length / 2) == R.neg(R.one)
      modifies this, x
      ensures Valid() && N == x.Length == Pow2(logN)
      ensures forall k :: 0 <= k < N ==> x[k] == Dft(R, Unscrambled(old(x[..]), logN), root(N), k, N)
    {
      Prepare(x.Length);
      ScrambledCells(R, root(N), x[..], logN);
      Stages(x, Unscrambled(x[..], logN));
    }
  }

  /** Below the end of the array there is always room for a whole block. */
  lemma NextBlock(b: nat, blocks: nat, m: nat)
    requires b * m < blocks * m
    ensures b * m + m == (b + 1) * m <= blocks * m
  {
    if b >= blocks {
      MulMonotone(blocks, b, m);
      assert false;
    }
    MulStep(b, blocks, m);
  }

  lemma TwiddleIndex(j: nat, s: nat, d: nat)
    requires d > 0 && j < Pow2(s)
    ensures (j + 1) * Pow2(d - 1) == j * Pow2(d - 1) + Pow2(d - 1)
    ensures j * Pow2(d - 1) < Pow2(s + d)
  {
    MulStep(j, Pow2(s), Pow2(d - 1));
    StageSizes(s, d);
  }

  lemma StageSizes(s: nat, d: nat)
    requires d > 0
    ensures Pow2(s + d) == Pow2(d - 1) * (2 * Pow2(s)) == 2 * (Pow2(s) * Pow2(d - 1))
  {
    Pow2Add(s, d - 1);
    MulAssoc(Pow2(d - 1), 2, Pow2(s));
    assert Pow2(s + d) == 2 * Pow2(s + (d - 1));
  }
}
