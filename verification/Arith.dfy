/** Integer facts shared by the other modules: products, quotients and powers of two. */
module Arith {

  function Min(a: int, b: int): int {
    if a < b then a else b
  }

  function Max(a: int, b: int): int {
    if a > b then a else b
  }

  lemma MulMonotone(a: int, b: int, d: int)
    requires a <= b && d >= 0
    ensures a * d <= b * d
  {
  }

  lemma MulAssoc(a: int, b: int, c: int)
    ensures (a * b) * c == a * (b * c) == b * (a * c)
  {
  }

  lemma MulAdd(a: int, b: int, c: int)
    ensures (a + b) * c == a * c + b * c
    ensures (a - b) * c == a * c - b * c
  {
  }

  lemma DivModUnique(q: int, d: int, r: int)
    requires 0 <= r < d
    ensures (q * d + r) / d == q && (q * d + r) % d == r
  {
    var x := q * d + r;
    var q' := x / d;
    assert x == d * q' + x % d;
    if q' > q {
      MulMonotone(q + 1, q', d);
      MulAdd(q, 1, d);
    } else if q' < q {
      MulMonotone(q' + 1, q, d);
      MulAdd(q', 1, d);
    }
  }

  lemma DivMod(x: int, d: int)
    requires d > 0
    ensures x == (x / d) * d + x % d && 0 <= x % d < d
  {
  }

  /** b < c leaves room for one more block of m. */
  lemma MulStep(b: int, c: int, m: nat)
    requires b < c
    ensures b * m + m == (b + 1) * m <= c * m
  {
    MulAdd(b, 1, m);
    MulMonotone(b + 1, c, m);
  }

  lemma DivDiv(x: nat, p: nat)
    requires p > 0
    ensures x / (2 * p) == (x / 2) / p
  {
    var y := x / 2;
    DivMod(y, p);
    var q, r := y / p, y % p;
    MulAssoc(2, q, p);
    assert x == q * (2 * p) + (2 * r + x % 2);
    DivModUnique(q, 2 * p, 2 * r + x % 2);
  }

  lemma HalveQuotient(x: nat, p: nat)
    requires p > 0
    ensures x / (2 * p) == (x / p) / 2
  {
    DivMod(x, p);
    var q, r := x / p, x % p;
    MulAdd(2 * (q / 2), q % 2, p);
    MulAssoc(2, q / 2, p);
    MulAssoc(q / 2, 2, p);
    assert q % 2 == 0 || q % 2 == 1;
    DivModUnique(q / 2, 2 * p, (q % 2) * p + r);
  }

  function Pow2(n: nat): (p: nat)
    ensures p > 0
  {
    if n == 0 then 1 else 2 * Pow2(n - 1)
  }

  lemma {:induction false} Pow2Add(m: nat, n: nat)
    ensures Pow2(m + n) == Pow2(m) * Pow2(n)
  {
    if m != 0 {
      Pow2Add(m - 1, n);
      MulAssoc(2, Pow2(m - 1), Pow2(n));
    }
  }

  lemma {:induction false} Pow2Monotone(m: nat, n: nat)
    requires m <= n
    ensures Pow2(m) <= Pow2(n)
  {
    if m < n {
      Pow2Monotone(m, n - 1);
    }
  }

  lemma Pow2Injective(n: nat, y: nat)
    requires Pow2(y) <= Pow2(n) < Pow2(y + 1)
    ensures y == n
  {
    if y < n {
      Pow2Monotone(y + 1, n);
    } else if n < y {
      Pow2Monotone(n + 1, y);
    }
  }
}
