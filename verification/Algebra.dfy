/** Commutative rings, powers, and the ring of exact complex numbers. */
module Algebra {

  /** The operations that replace the floating-point arithmetic of `std::complex<T>`. */
  datatype Ring<!T> = Ring(zero: T, one: T, add: (T, T) -> T, neg: T -> T, mul: (T, T) -> T) {
    function Sub(a: T, b: T): T { add(a, neg(b)) }
  }

  /** Always true. It only marks the triples at which a proof wants to use the ring laws. */
  ghost predicate Consider<T>(a: T, b: T, c: T) { true }

  ghost predicate LawsAt<T>(R: Ring<T>, a: T, b: T, c: T) {
    && R.add(a, b) == R.add(b, a)
    && R.add(R.add(a, b), c) == R.add(a, R.add(b, c))
    && R.add(a, R.zero) == a
    && R.add(a, R.neg(a)) == R.zero
    && R.mul(a, b) == R.mul(b, a)
    && R.mul(R.mul(a, b), c) == R.mul(a, R.mul(b, c))
    && R.mul(a, R.one) == a
    && R.mul(a, R.add(b, c)) == R.add(R.mul(a, b), R.mul(a, c))
  }

  ghost predicate CommutativeRing<T(!new)>(R: Ring<T>) {
    forall a, b, c {:trigger Consider(a, b, c)} :: Consider(a, b, c) ==> LawsAt(R, a, b, c)
  }

  lemma Laws<T(!new)>(R: Ring<T>, a: T, b: T, c: T)
    requires CommutativeRing(R)
    ensures LawsAt(R, a, b, c)
  {
    assert Consider(a, b, c);
  }

  /** (a + b) + (c + d) == (a + c) + (b + d) */
  lemma Interchange<T(!new)>(R: Ring<T>, a: T, b: T, c: T, d: T)
    requires CommutativeRing(R)
    ensures R.add(R.add(a, b), R.add(c, d)) == R.add(R.add(a, c), R.add(b, d))
  {
    Laws(R, a, b, R.add(c, d));
    Laws(R, b, c, d);
    Laws(R, c, b, d);
    Laws(R, a, c, R.add(b, d));
  }

  /** The additive inverse is unique, so negation commutes with multiplication. */
  lemma MulNeg<T(!new)>(R: Ring<T>, a: T, b: T)
    requires CommutativeRing(R)
    ensures R.mul(R.neg(a), b) == R.neg(R.mul(a, b))
  {
    var p, q := R.mul(a, b), R.mul(R.neg(a), b);
    MulZero(R, b);
    Laws(R, b, a, R.neg(a));
    Laws(R, b, R.neg(a), a);
    Laws(R, a, b, b);
    assert R.add(p, q) == R.zero;
    Laws(R, q, p, R.neg(p));
    Laws(R, p, q, q);
    Laws(R, R.neg(p), R.zero, R.zero);
    Laws(R, R.zero, R.neg(p), q);
  }

  lemma MulZero<T(!new)>(R: Ring<T>, b: T)
    requires CommutativeRing(R)
    ensures R.mul(b, R.zero) == R.zero
  {
    var z := R.mul(b, R.zero);
    Laws(R, R.zero, b, b);
    Laws(R, b, R.zero, R.zero);
    assert R.add(z, z) == z;
    Laws(R, z, z, R.neg(z));
  }

  function Pow<T>(R: Ring<T>, w: T, n: nat): T {
    if n == 0 then R.one else R.mul(w, Pow(R, w, n - 1))
  }

  lemma {:induction false} PowAdd<T(!new)>(R: Ring<T>, w: T, m: nat, n: nat)
    requires CommutativeRing(R)
    ensures Pow(R, w, m + n) == R.mul(Pow(R, w, m), Pow(R, w, n))
  {
    if m == 0 {
      Laws(R, Pow(R, w, n), R.one, R.one);
    } else {
      PowAdd(R, w, m - 1, n);
      Laws(R, w, Pow(R, w, m - 1), Pow(R, w, n));
    }
  }

  lemma {:induction false} PowMul<T(!new)>(R: Ring<T>, w: T, m: nat, n: nat)
    requires CommutativeRing(R)
    ensures Pow(R, w, m * n) == Pow(R, Pow(R, w, m), n)
  {
    if n == 0 {
      assert m * n == 0;
    } else {
      PowMul(R, w, m, n - 1);
      assert m * n == m + m * (n - 1);
      PowAdd(R, w, m, m * (n - 1));
    }
  }

  datatype Complex = Complex(re: real, im: real)

  /** Multiplication and addition of `std::complex`, without rounding. */
  const COMPLEX: Ring<Complex> := Ring(
    Complex(0.0, 0.0),
    Complex(1.0, 0.0),
    (a: Complex, b: Complex) => Complex(a.re + b.re, a.im + b.im),
    (a: Complex) => Complex(-a.re, -a.im),
    (a: Complex, b: Complex) => Complex(a.re * b.re - a.im * b.im, a.re * b.im + a.im * b.re))

  lemma RealLaws(x: real, y: real, z: real)
    ensures (x * y) * z == x * (y * z)
    ensures (x + y) * z == x * z + y * z && z * (x + y) == z * x + z * y
    ensures (x - y) * z == x * z - y * z && z * (x - y) == z * x - z * y
  {
  }

  lemma ComplexMulAssociates(a: Complex, b: Complex, c: Complex)
    ensures COMPLEX.mul(COMPLEX.mul(a, b), c) == COMPLEX.mul(a, COMPLEX.mul(b, c))
  {
    RealLaws(a.re * b.re, a.im * b.im, c.re);
    RealLaws(a.re * b.re, a.im * b.im, c.im);
    RealLaws(a.re * b.im, a.im * b.re, c.re);
    RealLaws(a.re * b.im, a.im * b.re, c.im);
    RealLaws(b.re * c.re, b.im * c.im, a.re);
    RealLaws(b.re * c.re, b.im * c.im, a.im);
    RealLaws(b.re * c.im, b.im * c.re, a.re);
    RealLaws(b.re * c.im, b.im * c.re, a.im);
    RealLaws(a.re, b.re, c.re); RealLaws(a.re, b.re, c.im);
    RealLaws(a.re, b.im, c.re); RealLaws(a.re, b.im, c.im);
    RealLaws(a.im, b.re, c.re); RealLaws(a.im, b.re, c.im);
    RealLaws(a.im, b.im, c.re); RealLaws(a.im, b.im, c.im);
  }

  lemma ComplexMulDistributes(a: Complex, b: Complex, c: Complex)
    ensures COMPLEX.mul(a, COMPLEX.add(b, c)) == COMPLEX.add(COMPLEX.mul(a, b), COMPLEX.mul(a, c))
  {
    RealLaws(b.re, c.re, a.re);
    RealLaws(b.re, c.re, a.im);
    RealLaws(b.im, c.im, a.re);
    RealLaws(b.im, c.im, a.im);
  }

  lemma ComplexMulCommutes(a: Complex, b: Complex)
    ensures COMPLEX.mul(a, b) == COMPLEX.mul(b, a)
    ensures COMPLEX.mul(a, COMPLEX.one) == a
  {
  }

  lemma ComplexIsCommutativeRing()
    ensures CommutativeRing(COMPLEX)
  {
    forall a, b, c | Consider(a, b, c)
      ensures LawsAt(COMPLEX, a, b, c)
    {
      ComplexMulCommutes(a, b);
      ComplexMulAssociates(a, b, c);
      ComplexMulDistributes(a, b, c);
    }
  }
}
