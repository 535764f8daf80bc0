/** The LegacyDec fixed-point numbers of cosmossdk.io/math that the tallies compute with: integers in units of 10^-18. */
module Dec {
  import opened Arith

  const ONE: int := 1_000_000_000_000_000_000

  function FromInt(n: int): int { n * ONE }

  /** Drop eighteen digits of a non-negative number, rounding half to even. */
  function Chop(d: nat): nat {
    var q, r := d / ONE, d % ONE;
    if r * 2 < ONE then q
    else if r * 2 > ONE then q + 1
    else if q % 2 == 0 then q else q + 1
  }

  function ChopSigned(d: int): int {
    if d < 0 then var c: int := Chop(-d); -c else Chop(d)
  }

  function Mul(a: int, b: int): int { ChopSigned(a * b) }

  /** Quo of non-negative operands: widen by 36 digits, divide truncating, round 18 digits off. */
  function Quo(a: nat, b: nat): nat
    requires b > 0
  {
    Chop(a * (ONE * ONE) / b)
  }

  /** The ratio of two whole numbers. */
  function Ratio(a: nat, b: nat): nat
    requires b > 0
  {
    Quo(FromInt(a), FromInt(b))
  }

  lemma ChopMultiple(n: nat)
    ensures Chop(n * ONE) == n
  {}

  /** A whole number times a decimal is exact. */
  lemma MulByIntIsExact(n: int, x: int)
    ensures Mul(FromInt(n), x) == n * x
  {
    assert FromInt(n) * x == (n * x) * ONE;
    if n * x >= 0 {
      ChopMultiple(n * x);
    } else {
      ChopMultiple(-(n * x));
    }
  }

  lemma ChopError(d: nat)
    ensures 2 * d - ONE <= 2 * (Chop(d) * ONE) <= 2 * d + ONE
  {
    var q, r := d / ONE, d % ONE;
    assert d == q * ONE + r;
  }

  lemma DivBounds(x: nat, b: nat)
    requires b > 0
    ensures x / b * b <= x < x / b * b + b
  {
    assert x == x / b * b + x % b;
  }

  lemma DivUnique(x: nat, d: nat, q: nat)
    requires d > 0 && q * d <= x < q * d + d
    ensures x / d == q
  {
    DivBounds(x, d);
    var p := x / d;
    if p < q {
      MulMono(p + 1, q, d);
    } else if p > q {
      MulMono(q + 1, p, d);
    }
  }

  lemma QuotientCancels(a: nat, b: nat)
    requires b > 0
    ensures FromInt(a) * (ONE * ONE) / FromInt(b) == a * (ONE * ONE) / b
  {
    var x, q := a * (ONE * ONE), a * (ONE * ONE) / b;
    DivBounds(x, b);
    assert FromInt(a) * (ONE * ONE) == x * ONE;
    DivUnique(x * ONE, b * ONE, q);
  }

  lemma RoundingArithmetic(a: nat, b: nat, q: nat, s: nat)
    requires b > 0
    requires q * b <= a * (ONE * ONE) < q * b + b
    requires (2 * q - ONE) * b <= 2 * (s * ONE) * b <= (2 * q + ONE) * b
    ensures 2 * (a * ONE) - 2 * b < 2 * (s * b) <= 2 * (a * ONE) + b
  {
    var sb, qb := s * b, q * b;
    assert 2 * (s * ONE) * b == 2 * ONE * sb;
    assert (2 * q - ONE) * b == 2 * qb - ONE * b;
    assert (2 * q + ONE) * b == 2 * qb + ONE * b;
    assert 2 * ONE * sb <= 2 * (a * (ONE * ONE)) + ONE * b;
    assert 2 * ONE * sb > 2 * (a * (ONE * ONE)) - 2 * b - ONE * b;
    assert a * (ONE * ONE) == (a * ONE) * ONE;
  }

  /** The ratio a/b is never more than half a unit of the 18th decimal too high, nor a whole unit too low. */
  lemma RatioError(a: nat, b: nat)
    requires b > 0
    ensures 2 * FromInt(a) - 2 * b < 2 * (Ratio(a, b) * b) <= 2 * FromInt(a) + b
  {
    var q := a * (ONE * ONE) / b;
    QuotientCancels(a, b);
    DivBounds(a * (ONE * ONE), b);
    ChopError(q);
    var s := Chop(q);
    MulMono(2 * q - ONE, 2 * (s * ONE), b);
    MulMono(2 * (s * ONE), 2 * q + ONE, b);
    RoundingArithmetic(a, b, q, s);
  }

  lemma ChopMonotone(d: nat, e: nat)
    requires d <= e
    ensures Chop(d) <= Chop(e)
  {
    var q, q' := d / ONE, e / ONE;
    assert d == q * ONE + d % ONE && e == q' * ONE + e % ONE;
    if q < q' {
      assert Chop(d) <= q + 1;
    }
  }

  lemma DivMonotone(x: nat, y: nat, b: nat)
    requires x <= y && b > 0
    ensures x / b <= y / b
  {
    DivBounds(x, b);
    DivBounds(y, b);
    if y / b < x / b {
      MulMono(y / b + 1, x / b, b);
    }
  }

  /** More of the same whole never lowers the ratio. */
  lemma RatioMonotone(a: nat, a': nat, b: nat)
    requires a <= a' && b > 0
    ensures Ratio(a, b) <= Ratio(a', b)
  {
    QuotientCancels(a, b);
    QuotientCancels(a', b);
    DivMonotone(a * (ONE * ONE), a' * (ONE * ONE), b);
    ChopMonotone(a * (ONE * ONE) / b, a' * (ONE * ONE) / b);
  }

  /** A ratio above t is truly above t: rounding never lifts one over the line. */
  lemma RatioAboveIsReal(a: nat, b: nat, t: int)
    requires b > 0 && Ratio(a, b) > t
    ensures FromInt(a) > t * b
  {
    RatioError(a, b);
    MulMono(t + 1, Ratio(a, b), b);
    assert (t + 1) * b == t * b + b;
  }
}
