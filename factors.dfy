/** Board-size selection: the factor pair of the cell count that is closest to a square. */
module Factors {

  /** a <= b implies a * c <= b * c for a non-negative c. */
  lemma MulMonotone(a: int, b: int, c: int)
    requires 0 <= a <= b && 0 <= c
    ensures a * c <= b * c
  {
  }

  /** Counts r upwards from a value whose square does not exceed n, stopping at the
      last one whose square still does. */
  function SqrtFrom(n: int, r: nat): (s: nat)
    requires r * r <= n
    ensures r <= s && s * s <= n < (s + 1) * (s + 1)
    decreases n - r
  {
    if (r + 1) * (r + 1) > n then r
    else
      MulMonotone(1, r + 1, r + 1);
      SqrtFrom(n, r + 1)
  }

  /** Integer stand-in for `sqrt(number.toDouble()).toInt()`: the floor of the square
      root, and 0 below 1 (the square root of a negative number is NaN, whose
      `toInt()` is 0). */
  function FloorSqrt(n: int): (r: nat)
    ensures n >= 0 ==> r * r <= n < (r + 1) * (r + 1)
    ensures n < 1 ==> r == 0
  {
    if n <= 0 then 0 else SqrtFrom(n, 0)
  }

  /** A non-negative d whose square does not exceed n is at most FloorSqrt(n). */
  lemma BelowFloorSqrt(n: int, d: int)
    requires 0 <= d && d * d <= n
    ensures d <= FloorSqrt(n)
  {
    var r := FloorSqrt(n);
    if d > r {
      MulMonotone(r + 1, d, r + 1);
      MulMonotone(r + 1, d, d);
      assert false;
    }
  }

  /** The loop `for (x in sqrt downTo 1)` entered at x: the first x that divides
      number, paired with its cofactor, or (0, 0) when none of x, x-1, ..., 1 does. */
  function FactorSearch(number: int, x: int): (p: (int, int))
    ensures p == (0, 0) || (1 <= p.0 <= x && number % p.0 == 0 && p.0 * p.1 == number)
    ensures forall d :: p.0 < d <= x ==> number % d != 0
    ensures x >= 1 ==> p.0 >= 1
    decreases x
  {
    if x < 1 then (0, 0)
    else if number % x == 0 then (x, number / x)
    else FactorSearch(number, x - 1)
  }

  /** A factor x at most r, where r * r <= x * y, is at most its cofactor y. */
  lemma SmallFactorFirst(x: int, y: int, r: int)
    requires 1 <= x <= r && r * r <= x * y
    ensures x <= y
  {
    if y < x {
      MulMonotone(y + 1, x, x);
      MulMonotone(x, r, x);
      MulMonotone(x, r, r);
      assert false;
    }
  }

  /** a divides a * b, with quotient b. */
  lemma DivisorOfProduct(a: int, b: int)
    requires a >= 1
    ensures (a * b) % a == 0 && (a * b) / a == b
  {
    var q, m := (a * b) / a, (a * b) % a;
    assert a * (b - q) == m;
    if b - q >= 1 {
      MulMonotone(1, b - q, a);
      assert false;
    } else if b - q <= -1 {
      MulMonotone(1, q - b, a);
      assert false;
    }
  }

  /** A divisor pair (x, y) found at or below the floor of the square root has
      x <= y, and no divisor between x and the square root was skipped. */
  lemma SearchFromRoot(number: int)
    requires number >= 1
    ensures var p := FactorSearch(number, FloorSqrt(number));
      1 <= p.0 <= p.1 && p.0 * p.1 == number &&
      forall d :: p.0 < d && d * d <= number ==> number % d != 0
  {
    var r := FloorSqrt(number);
    var p := FactorSearch(number, r);
    SmallFactorFirst(p.0, p.1, r);
    forall d | p.0 < d && d * d <= number
      ensures number % d != 0
    {
      BelowFloorSqrt(number, d);
    }
  }

  /** closestFactors: the divisor pair (x, y) of number with x * y == number, x <= y
      and x the largest divisor whose square does not exceed number; (0, 0) exactly
      when number < 1. */
  function ClosestFactors(number: int): (p: (int, int))
    ensures number >= 1 <==> p != (0, 0)
    ensures number >= 1 ==> 1 <= p.0 <= p.1 && p.0 * p.1 == number
    ensures number >= 1 ==> forall d :: p.0 < d && d * d <= number ==> number % d != 0
  {
    if number >= 1 then SearchFromRoot(number); FactorSearch(number, FloorSqrt(number))
    else FactorSearch(number, FloorSqrt(number))
  }

  /** No factorisation a * b == number with a <= b is closer to a square than
      ClosestFactors(number): its smaller factor is at most x and its larger at least y. */
  lemma ClosestFactorsMostSquare(number: int, a: int, b: int)
    requires 1 <= a <= b && a * b == number
    ensures var p := ClosestFactors(number);
      a <= p.0 && p.1 <= b && p.1 - p.0 <= b - a
  {
    var p := ClosestFactors(number);
    MulMonotone(a, b, a);
    DivisorOfProduct(a, b);
    assert a <= p.0;
    if p.1 > b {
      LargerProduct(a, b, p.0, p.1);
    }
  }

  /** Growing one factor of a positive product and strictly growing the other
      strictly grows the product. */
  lemma LargerProduct(a: int, b: int, x: int, y: int)
    requires 1 <= a <= x && 1 <= b < y
    ensures a * b < x * y
  {
    MulMonotone(b + 1, y, x);
    MulMonotone(a, x, b);
  }

  /** Board sizes of the first levels: 4 cells give 2 x 2, 6 give 2 x 3,
      8 give 2 x 4, 12 give 3 x 4 and 20 give 4 x 5. */
  lemma ClosestFactorsExamples()
    ensures ClosestFactors(4) == (2, 2)
    ensures ClosestFactors(6) == (2, 3)
    ensures ClosestFactors(8) == (2, 4)
    ensures ClosestFactors(12) == (3, 4)
    ensures ClosestFactors(20) == (4, 5)
  {
  }
}
