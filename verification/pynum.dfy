/**
 * Python's numeric conversions on exact reals: `int(x)` truncates toward
 * zero, `math.ceil` rounds up, `abs` drops the sign. Floating-point
 * rounding is not modelled; every real here is exact.
 */
module PyNum {

  function Abs(i: int): (r: nat)
    ensures r == i || r == -i
  {
    if i < 0 then -i else i
  }

  function AbsReal(x: real): (r: real)
    ensures r >= 0.0 && (r == x || r == -x)
  {
    if x < 0.0 then -x else x
  }

  /** `int(x)` on a float: the integer part, rounded toward zero. */
  function Trunc(x: real): (r: int)
    ensures x >= 0.0 ==> r as real <= x < r as real + 1.0
    ensures x < 0.0 ==> r as real - 1.0 < x <= r as real
    ensures (r < 0) == (x <= -1.0)
  {
    if x >= 0.0 then x.Floor else -((-x).Floor)
  }

  /** `math.ceil(x)`: the least integer not below `x`. */
  function Ceil(x: real): (r: int)
    ensures r as real - 1.0 < x <= r as real
  {
    -((-x).Floor)
  }

  function Max(a: int, b: int): (r: int)
    ensures r >= a && r >= b && (r == a || r == b)
  {
    if a >= b then a else b
  }

  function Min(a: int, b: int): (r: int)
    ensures r <= a && r <= b && (r == a || r == b)
  {
    if a <= b then a else b
  }

  function MaxReal(a: real, b: real): (r: real)
    ensures r >= a && r >= b && (r == a || r == b)
  {
    if a >= b then a else b
  }

  function MinReal(a: real, b: real): (r: real)
    ensures r <= a && r <= b && (r == a || r == b)
  {
    if a <= b then a else b
  }

  /** Truncation is the identity on integers. */
  lemma TruncOfInt(n: int)
    ensures Trunc(n as real) == n
  {
  }
  /** A product of integers, cast to real, is the product of the casts. */
  lemma CastProduct(a: int, b: int)
    ensures (a * b) as real == a as real * b as real
  {
  }

  /** A quotient of a non-negative dividend by a positive divisor is not negative. */
  lemma DivNonNegative(a: real, b: real)
    requires a >= 0.0 && b > 0.0
    ensures a / b >= 0.0
  {
  }

  lemma ScaleUp(a: real, b: real, p: real)
    requires a <= b && p > 0.0
    ensures a * p <= b * p
  {
  }

  lemma ScaleUpStrict(a: real, b: real, p: real)
    requires a < b && p > 0.0
    ensures a * p < b * p
  {
  }

  /** `(current - base) / base * 100`: the change from `base`, in percent. */
  function PctChange(current: real, base: real): (r: real)
    requires base != 0.0
    ensures r * base == (current - base) * 100.0
    ensures base > 0.0 ==> (r > 0.0 <==> current > base) && (r == 0.0 <==> current == base)
  {
    (current - base) / base * 100.0
  }

  /** On a positive base, a change of at least `k` percent is a cross-multiplied comparison. */
  lemma PctAtLeast(current: real, base: real, k: real)
    requires base > 0.0
    ensures PctChange(current, base) >= k <==> current * 100.0 >= base * (100.0 + k)
  {
    var r := PctChange(current, base);
    if r >= k {
      ScaleUp(k, r, base);
    } else {
      ScaleUpStrict(r, k, base);
    }
  }

  /** On a positive base, a change of at most `k` percent is a cross-multiplied comparison. */
  lemma PctAtMost(current: real, base: real, k: real)
    requires base > 0.0
    ensures PctChange(current, base) <= k <==> current * 100.0 <= base * (100.0 + k)
  {
    var r := PctChange(current, base);
    if r <= k {
      ScaleUp(r, k, base);
    } else {
      ScaleUpStrict(k, r, base);
    }
  }
  /** For a positive whole bound, truncation reaches it exactly when the real does. */
  lemma TruncAtLeast(x: real, n: int)
    requires n >= 1
    ensures Trunc(x) >= n <==> x >= n as real
  {
  }
  /** Dividing by a positive real: the quotient scales back, and stays at most 0 or at least 1 with the dividend. */
  lemma DivFacts(a: real, b: real)
    requires b > 0.0
    ensures (a / b) * b == a
    ensures a <= 0.0 ==> a / b <= 0.0
    ensures a >= b ==> a / b >= 1.0
  {
    var q := a / b;
    if a <= 0.0 && q > 0.0 {
      ScaleUpStrict(0.0, q, b);
    }
    if a >= b && q < 1.0 {
      ScaleUpStrict(q, 1.0, b);
    }
  }

  /** On a positive divisor, comparing a quotient with `k` is comparing the dividend with `k` times the divisor. */
  lemma RatioAtLeast(a: real, b: real, k: real)
    requires b > 0.0
    ensures a / b >= k <==> a >= k * b
  {
    DivFacts(a, b);
    var q := a / b;
    if q >= k {
      ScaleUp(k, q, b);
    } else {
      ScaleUpStrict(q, k, b);
    }
  }

  lemma RatioAtMost(a: real, b: real, k: real)
    requires b > 0.0
    ensures a / b <= k <==> a <= k * b
  {
    DivFacts(a, b);
    var q := a / b;
    if q <= k {
      ScaleUp(q, k, b);
    } else {
      ScaleUpStrict(k, q, b);
    }
  }

  /** `part / whole * 100` when `whole` is positive, and 0 otherwise: the handlers' percentage with its zero guard. */
  function Percent(part: int, whole: int): (r: real)
    ensures whole <= 0 ==> r == 0.0
    ensures whole > 0 ==> r * whole as real == part as real * 100.0
  {
    if whole > 0 then
      var q := part as real / whole as real;
      DivFacts(part as real, whole as real);
      assert q * 100.0 * whole as real == (q * whole as real) * 100.0;
      q * 100.0
    else 0.0
  }

  /** A percentage of a positive whole compared with a threshold is the cross-multiplied comparison. */
  lemma PercentVersus(part: int, whole: int, k: real)
    requires whole > 0
    ensures Percent(part, whole) < k <==> part as real * 100.0 < k * whole as real
    ensures Percent(part, whole) > k <==> part as real * 100.0 > k * whole as real
  {
    var r := Percent(part, whole);
    var w := whole as real;
    if r < k { ScaleUpStrict(r, k, w); } else { ScaleUp(k, r, w); }
    if r > k { ScaleUpStrict(k, r, w); } else { ScaleUp(r, k, w); }
  }
}
