/** Integer arithmetic of the C++ source, written out explicitly:
    `int / int` truncates toward zero, and `int(sqrt(d))` of a non-negative
    integer is its floor square root. */
module IntArith {

  /** C++ division of an `int` by a positive `int`: the quotient is rounded
      toward zero, so a negative dividend rounds up (Dafny's `/` floors). */
  function TruncDiv(a: int, b: int): int
    requires b > 0
  {
    if a >= 0 then a / b else -((-a) / b)
  }

  /** The quotient has the dividend's sign, and q * b brackets the
      dividend from below for a >= 0, from above for a < 0, within one
      divisor. */
  lemma TruncDivBracket(a: int, b: int)
    requires b > 0
    ensures 0 <= a ==> 0 <= TruncDiv(a, b) && TruncDiv(a, b) * b <= a < TruncDiv(a, b) * b + b
    ensures a < 0 ==> TruncDiv(a, b) <= 0 && TruncDiv(a, b) * b - b < a <= TruncDiv(a, b) * b
  {
  }

  /** The remainder C++ division leaves lies strictly between -b and b. */
  lemma TruncDivNear(a: int, b: int)
    requires b > 0
    ensures -b < a - TruncDiv(a, b) * b < b
  {
    TruncDivBracket(a, b);
  }

  /** Absolute value. */
  function Abs(v: int): (r: nat)
    ensures r == v || r == -v
  {
    if v < 0 then -v else v
  }

  /** Largest r >= 0 with r * r <= d, computed from the root of d / 4. */
  function ISqrt(d: nat): (r: nat)
    ensures r * r <= d < (r + 1) * (r + 1)
    decreases d
  {
    if d == 0 then 0
    else
      var s := ISqrt(d / 4);
      RootStep(d, s);
      if (2 * s + 1) * (2 * s + 1) <= d then 2 * s + 1 else 2 * s
  }

  /** From s = isqrt(d / 4), both candidates 2s and 2s + 1 bracket d. */
  lemma RootStep(d: nat, s: nat)
    requires s * s <= d / 4 < (s + 1) * (s + 1)
    ensures (2 * s) * (2 * s) <= d < (2 * s + 2) * (2 * s + 2)
  {
    var q := d / 4;
    assert d == 4 * q + d % 4;
    assert (2 * s) * (2 * s) == 4 * (s * s);
    assert (2 * s + 2) * (2 * s + 2) == 4 * ((s + 1) * (s + 1));
    assert q + 1 <= (s + 1) * (s + 1);
  }

  /** Multiplication by a non-negative factor is monotone. */
  lemma MulLe(a: int, b: int, c: int)
    requires a <= b && 0 <= c
    ensures a * c <= b * c
  {
    assert b * c - a * c == (b - a) * c;
  }

  /** Quotient and remainder by a positive divisor are unique. */
  lemma DivModUnique(a: int, p: int, q: int, r: int)
    requires p > 0 && 0 <= r < p && a == q * p + r
    ensures a / p == q && a % p == r
  {
    var q', r' := a / p, a % p;
    assert a == q' * p + r';
    if q' < q {
      MulLe(q' + 1, q, p);
    } else if q' > q {
      MulLe(q + 1, q', p);
    }
  }

  /** Counting one further: within a block the remainder grows by one. */
  lemma DivStepInside(x: nat, p: int)
    requires p > 0 && x % p < p - 1
    ensures (x + 1) / p == x / p && (x + 1) % p == x % p + 1
  {
    DivModUnique(x + 1, p, x / p, x % p + 1);
  }

  /** Counting one further: at the end of a block the quotient grows by one. */
  lemma DivStepBoundary(x: nat, p: int)
    requires p > 0 && x % p == p - 1
    ensures (x + 1) / p == x / p + 1 && (x + 1) % p == 0
  {
    assert x + 1 == (x / p + 1) * p + 0;
    DivModUnique(x + 1, p, x / p + 1, 0);
  }

  /** Division by a positive number is monotone. */
  lemma DivMonotone(a: int, b: int, p: int)
    requires p > 0 && a <= b
    ensures a / p <= b / p
  {
    if a / p > b / p {
      MulLe(b / p + 1, a / p, p);
    }
  }

  /** Squaring is monotone on non-negative numbers. */
  lemma SquareMono(a: nat, b: nat)
    requires a <= b
    ensures a * a <= b * b
  {
    MulLe(a, b, a);
    MulLe(a, b, b);
  }

  /** A smaller floor square root means a smaller radicand. */
  lemma RootLess(a: nat, b: nat)
    requires ISqrt(a) < ISqrt(b)
    ensures a < b
  {
    SquareMono(ISqrt(a) + 1, ISqrt(b));
  }

  /** A factor of size at most m contributes at most m * |d|. */
  lemma BoundedProduct(e: int, m: int, d: int)
    requires -m <= e <= m
    ensures e * d <= m * Abs(d)
  {
    if d >= 0 {
      MulLe(e, m, d);
    } else {
      MulLe(-m, e, -d);
    }
  }

  /** Two offsets each strictly within n of zero, taken along (dx, dy),
      stay below n times the gap unit: |dx| + |dy|, or 1 when that is 0. */
  lemma OffsetBelowUnit(n: int, ex: int, ey: int, dx: int, dy: int)
    requires -n < ex < n && -n < ey < n
    ensures ex * dx + ey * dy < n * (if Abs(dx) + Abs(dy) >= 1 then Abs(dx) + Abs(dy) else 1)
  {
    BoundedProduct(ex, n - 1, dx);
    BoundedProduct(ey, n - 1, dy);
    var a := Abs(dx) + Abs(dy);
    assert (n - 1) * Abs(dx) + (n - 1) * Abs(dy) == (n - 1) * a;
    assert (n - 1) * a == n * a - a;
  }

  /** Expanding (u - d)^2. */
  lemma SquareOfDifference(u: int, d: int)
    ensures (u - d) * (u - d) == u * u - 2 * (u * d) + d * d
  {
  }

  /** d^2 >= 2|d| - 1, as (|d| - 1)^2 >= 0. */
  lemma SquareAboveAbs(d: int)
    ensures d * d >= 2 * Abs(d) - 1
  {
    var a: int := Abs(d);
    assert d * d == a * a;
    assert (a - 1) * (a - 1) == a * a - 2 * a + 1;
  }

  /** If (u, v) is strictly nearer to (dx, dy) than to the origin, its dot
      product with (dx, dy) is at least |dx| + |dy| and at least 1. */
  lemma BisectorGap(u: int, v: int, dx: int, dy: int)
    requires (u - dx) * (u - dx) + (v - dy) * (v - dy) < u * u + v * v
    ensures u * dx + v * dy >= Abs(dx) + Abs(dy)
    ensures u * dx + v * dy >= 1
  {
    SquareOfDifference(u, dx);
    SquareOfDifference(v, dy);
    assert 2 * (u * dx + v * dy) >= dx * dx + dy * dy + 1;
    SquareAboveAbs(dx);
    SquareAboveAbs(dy);
  }
}
