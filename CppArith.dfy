/** Integer division and remainder as C++ defines them on signed operands:
    the quotient is truncated toward zero and the remainder takes the sign
    of the dividend. Dafny's own `/` and `%` are Euclidean, so the harness's
    `(after - before) / 1000` and `idx[..] % v.size()` go through these. */
module CppArith {

  /** `a / d` in C++ for a positive divisor. */
  function TruncDiv(a: int, d: int): (q: int)
    requires d > 0
    ensures a >= 0 ==> 0 <= q * d <= a < q * d + d
    ensures a < 0 ==> q * d - d < a <= q * d <= 0
  {
    if a >= 0 then
      EuclidFacts(a, d); a / d
    else
      EuclidFacts(-a, d); -((-a) / d)
  }

  lemma EuclidFacts(a: int, d: int)
    requires a >= 0 && d > 0
    ensures a == (a / d) * d + a % d
    ensures 0 <= a % d < d
    ensures 0 <= a / d
  {
  }

  /** `a % m` in C++ for a positive modulus: `a - m * (a / m)` with the truncating quotient. */
  function TruncRem(a: int, m: int): (r: int)
    requires m > 0
    ensures a >= 0 ==> 0 <= r < m
    ensures a < 0 ==> -m < r <= 0
    ensures a == m * TruncDiv(a, m) + r
  {
    a - m * TruncDiv(a, m)
  }

  /** The truncating quotient is the only integer with the truncation bounds:
      the contract of TruncDiv determines it completely. */
  lemma TruncDivUnique(a: int, d: int, q: int)
    requires d > 0
    requires a >= 0 ==> 0 <= q * d <= a < q * d + d
    requires a < 0 ==> q * d - d < a <= q * d <= 0
    ensures q == TruncDiv(a, d)
  {
    var t := TruncDiv(a, d);
    if q < t {
      StepBelow(q, t, d);
      assert false;
    } else if q > t {
      StepBelow(t, q, d);
      assert false;
    }
  }

  lemma StepBelow(x: int, y: int, d: int)
    requires x < y && d > 0
    ensures x * d <= y * d - d
  {
    MulMonotone(1, y - x, d);
    assert (y - x) * d == y * d - x * d;
  }

  lemma MulMonotone(x: int, y: int, d: int)
    requires x <= y && d > 0
    ensures x * d <= y * d
  {
  }

  /** Truncation is odd: negating the dividend negates the quotient
      (Euclidean division has no such symmetry). */
  lemma TruncDivNegate(a: int, d: int)
    requires d > 0
    ensures TruncDiv(-a, d) == -TruncDiv(a, d)
  {
  }

  /** On a non-negative dividend the truncating quotient never exceeds it. */
  lemma TruncDivBelowDividend(a: int, d: int)
    requires d > 0 && a >= 0
    ensures 0 <= TruncDiv(a, d) <= a
  {
    var q := TruncDiv(a, d);
    if q > 0 {
      MulMonotone(1, d, q);
    }
  }

  /** The C++ remainder is a valid index into a container of size `m`
      exactly when the dividend is non-negative or a multiple of `m`. */
  lemma TruncRemIsIndex(a: int, m: int)
    requires m > 0
    ensures 0 <= TruncRem(a, m) < m <==> (a >= 0 || a % m == 0)
  {
    if a < 0 {
      var q := TruncDiv(a, m);
      if TruncRem(a, m) == 0 {
        assert a == m * q;
        EuclidUnique(a, m, q, 0);
      } else {
        assert a % m != 0 by {
          if a % m == 0 {
            var k := a / m;
            assert a == m * k;
            TruncDivUnique(a, m, k);
          }
        }
      }
    }
  }

  /** Euclidean quotient and remainder are determined by `a == q * m + r, 0 <= r < m`. */
  lemma EuclidUnique(a: int, m: int, q: int, r: int)
    requires m > 0 && a == q * m + r && 0 <= r < m
    ensures a / m == q && a % m == r
  {
    var k := a / m - q;
    assert k * m == r - a % m by {
      assert a == (a / m) * m + a % m;
      assert k * m == (a / m) * m - q * m;
    }
    if k >= 1 {
      MulMonotone(1, k, m);
      assert false;
    } else if k <= -1 {
      MulMonotone(k, -1, m);
      assert false;
    }
  }

  /** The worked case behind the scaling choice: a small positive delta
      truncates to zero and a negative one rounds toward zero, not down. */
  lemma TruncDivExamples()
    ensures TruncDiv(40, 1000) == 0
    ensures TruncDiv(-1500, 1000) == -1 && (-1500) / 1000 == -2
    ensures TruncRem(-7, 5) == -2 && (-7) % 5 == 3
  {
  }
}
