/** Monotonicity of multiplication, for integers and for reals, stated once so that the
    nonlinear steps of the other proofs are explicit. */
module Arith {

  // ---------------------------------------------------------------------------------------
  // Integers

  lemma {:induction false} MulAtLeast(k: int, n: int)
    requires k >= 1 && n > 0
    ensures k * n >= n
  {
    if k > 1 {
      MulAtLeast(k - 1, n);
      assert k * n == (k - 1) * n + n;
    }
  }

  lemma {:induction false} MulMonotone(a: int, b: int, n: int)
    requires a <= b && n >= 0
    ensures a * n <= b * n
  {
    if a < b && n > 0 {
      MulAtLeast(b - a, n);
      assert b * n - a * n == (b - a) * n;
    }
  }

  lemma MulSucc(i: int, n: int)
    ensures (i + 1) * n == i * n + n
  {
  }

  // ---------------------------------------------------------------------------------------
  // Reals

  lemma SquareBelow(d: real, c: real)
    requires 0.0 <= d < c
    ensures d * d < c * c
  {
    calc {
      d * d;
    <= { MulWeak(d, c, d); }
      c * d;
      d * c;
    < { MulStrict(d, c, c); }
      c * c;
    }
  }

  lemma SquareAtLeast(a: real, b: real)
    requires 0.0 <= a <= b
    ensures a * a <= b * b
  {
    calc {
      a * a;
    <= { MulWeak(a, b, a); }
      b * a;
      a * b;
    <= { MulWeak(a, b, b); }
      b * b;
    }
  }

  lemma MulWeak(a: real, b: real, c: real)
    requires a <= b && 0.0 <= c
    ensures a * c <= b * c
  {
    assert b * c - a * c == (b - a) * c;
  }

  lemma MulStrict(a: real, b: real, c: real)
    requires a < b && 0.0 < c
    ensures a * c < b * c
  {
    assert b * c - a * c == (b - a) * c;
  }

  /** Multiplying by a positive number keeps strict order, read backwards. */
  lemma MulStrictRev(a: real, b: real, c: real)
    requires 0.0 < c && a * c < b * c
    ensures a < b
  {
    if b <= a {
      MulWeak(b, a, c);
    }
  }

  lemma SquareNonNegative(d: real)
    ensures 0.0 <= d * d
  {
    if d < 0.0 {
      SquareAtLeast(0.0, -d);
    } else {
      SquareAtLeast(0.0, d);
    }
  }
}
