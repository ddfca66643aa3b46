/**
  The divergence comparator: the percentage by which two exchanges' prices
  for the same quantity differ, measured against the smaller price, and the
  decision whether that percentage reaches the fixed threshold.

  Prices are exact reals. The one place where the JavaScript arithmetic
  leaves the reals is a zero divisor; `Number` keeps the two values it can
  then produce (Infinity and NaN) so that the decision follows the code in
  those cases too.
 */
module Comparator {

  /** The threshold, in percent; a difference of exactly this much is flagged. */
  const MinPercentageDifference: real := 2.0

  /** The values the percentage formula can take in JavaScript. */
  datatype Number = Finite(value: real) | Infinity | NaN

  function Abs(x: real): real
  {
    if x < 0.0 then -x else x
  }

  function Min(a: real, b: real): real
  {
    if a <= b then a else b
  }

  /** `n / d` for a numerator that is never negative: a real quotient when
      `d` is not zero, Infinity for a positive numerator over zero, NaN for
      zero over zero. */
  function Divide(n: real, d: real): Number
    requires n >= 0.0
  {
    if d != 0.0 then Finite(n / d)
    else if n == 0.0 then NaN
    else Infinity
  }

  /** Multiplication by a positive constant; Infinity and NaN are kept. */
  function Scale(x: Number, k: real): Number
    requires k > 0.0
  {
    match x
    case Finite(v) => Finite(v * k)
    case _ => x
  }

  /** `x >= t` on JavaScript numbers: Infinity passes every real bound, NaN
      passes none. */
  function AtLeast(x: Number, t: real): bool
  {
    match x
    case Finite(v) => v >= t
    case Infinity => true
    case NaN => false
  }

  /** `|a - b| / min(a, b) * 100`. */
  function PercentageDifference(a: real, b: real): Number
  {
    Scale(Divide(Abs(a - b), Min(a, b)), 100.0)
  }

  /** Whether two prices diverge by at least the threshold. */
  function ComparePrices(a: real, b: real): bool
  {
    AtLeast(PercentageDifference(a, b), MinPercentageDifference)
  }

  /** What the decision amounts to, without division. With both prices
      positive it is `|a - b| * 100 >= 2 * min(a, b)`; with the smaller price
      zero the percentage is Infinity (flagged) when the other is positive
      and NaN (not flagged) when both are zero; a negative smaller price
      gives a percentage that is never positive, so nothing is flagged. */
  lemma ComparePricesCharacterized(a: real, b: real)
    ensures a > 0.0 && b > 0.0 ==>
              (ComparePrices(a, b) <==> Abs(a - b) * 100.0 >= MinPercentageDifference * Min(a, b))
    ensures Min(a, b) == 0.0 ==> (ComparePrices(a, b) <==> a != b)
    ensures Min(a, b) < 0.0 ==> !ComparePrices(a, b)
  {
    var n, m := Abs(a - b), Min(a, b);
    if m > 0.0 {
      PositiveDivisorThreshold(n, m);
    } else if m < 0.0 {
      NegativeDivisorBelowThreshold(n, m);
    }
  }

  /** For a positive divisor, `n / d * 100 >= 2` is `n * 100 >= 2 * d`. */
  lemma PositiveDivisorThreshold(n: real, d: real)
    requires n >= 0.0 && d > 0.0
    ensures (n / d * 100.0 >= MinPercentageDifference) <==> (n * 100.0 >= MinPercentageDifference * d)
  {
    var q := n / d;
    assert n == q * d;
    assert q * 100.0 * d == n * 100.0;
    if q * 100.0 >= MinPercentageDifference {
      assert (q * 100.0 - MinPercentageDifference) * d >= 0.0;
    } else {
      assert (MinPercentageDifference - q * 100.0) * d > 0.0;
    }
  }

  /** For a negative divisor the percentage is never positive. */
  lemma NegativeDivisorBelowThreshold(n: real, d: real)
    requires n >= 0.0 && d < 0.0
    ensures n / d * 100.0 < MinPercentageDifference
  {
    assert n / d == -(n / -d);
  }

  /** The comparison does not depend on which exchange is named first. */
  lemma ComparePricesSymmetric(a: real, b: real)
    ensures ComparePrices(a, b) == ComparePrices(b, a)
  {
    assert Abs(a - b) == Abs(b - a);
    assert Min(a, b) == Min(b, a);
  }

  /** Equal prices are never flagged: 0% for a non-zero price, NaN for zero. */
  lemma EqualPricesNotFlagged(a: real)
    ensures !ComparePrices(a, a)
  {
  }

  /** A zero price against a positive one is always flagged (Infinity), and
      two zero prices never are (NaN). */
  lemma ZeroPriceCases(b: real)
    requires b > 0.0
    ensures ComparePrices(0.0, b) && ComparePrices(b, 0.0)
    ensures !ComparePrices(0.0, 0.0)
  {
  }

  /** The threshold is inclusive: exactly 2% is flagged, 1.99% is not. */
  lemma ThresholdIsInclusive()
    ensures ComparePrices(100.0, 102.0)
    ensures ComparePrices(102.0, 100.0)
    ensures !ComparePrices(100.0, 101.99)
  {
  }

  /** Multiplying both sides of `u >= v` by a positive factor keeps it. */
  lemma ScaleInequality(u: real, v: real, c: real)
    requires c > 0.0
    ensures u * c >= v * c <==> u >= v
  {
    assert u * c - v * c == (u - v) * c;
    if u < v {
      assert (v - u) * c > 0.0;
    }
  }

  /** Two pairs of positive prices whose differences and minima are in the
      same positive proportion get the same decision. */
  lemma ProportionalSameDecision(a: real, b: real, c: real, d: real, s: real)
    requires a > 0.0 && b > 0.0 && c > 0.0 && d > 0.0 && s > 0.0
    requires Abs(c - d) == Abs(a - b) * s && Min(c, d) == Min(a, b) * s
    ensures ComparePrices(c, d) == ComparePrices(a, b)
  {
    var lhs, rhs := Abs(a - b) * 100.0, MinPercentageDifference * Min(a, b);
    ComparePricesCharacterized(a, b);
    ComparePricesCharacterized(c, d);
    assert ComparePrices(a, b) <==> lhs >= rhs;
    assert ComparePrices(c, d) <==> Abs(c - d) * 100.0 >= MinPercentageDifference * Min(c, d);
    assert Abs(c - d) * 100.0 == lhs * s;
    assert MinPercentageDifference * Min(c, d) == rhs * s;
    ScaleInequality(lhs, rhs, s);
    assert ComparePrices(c, d) <==> lhs * s >= rhs * s;
  }

  /** Only the ratio of the prices matters: expressing both prices in another
      unit (scaling both by `k > 0`) does not change the decision, including
      the Infinity and NaN cases of a zero price. */
  lemma ComparePricesScaleInvariant(a: real, b: real, k: real)
    requires k > 0.0
    ensures ComparePrices(k * a, k * b) == ComparePrices(a, b)
  {
    if a > 0.0 && b > 0.0 {
      ScaledPositivePrices(a, b, k);
    } else {
      ScaledNonPositiveMinimum(a, b, k);
    }
  }

  lemma ScaledPositivePrices(a: real, b: real, k: real)
    requires a > 0.0 && b > 0.0 && k > 0.0
    ensures ComparePrices(k * a, k * b) == ComparePrices(a, b)
  {
    assert k * a == a * k && k * b == b * k;
    ScaleInequality(a, 0.0, k);
    ScaleInequality(b, 0.0, k);
    ScaleInequality(a, b, k);
    assert k * a - k * b == (a - b) * k;
    ProportionalSameDecision(a, b, k * a, k * b, k);
  }

  /** With the smaller price zero or negative, scaling keeps it zero or
      negative and keeps the prices equal or different. */
  lemma ScaledNonPositiveMinimum(a: real, b: real, k: real)
    requires !(a > 0.0 && b > 0.0) && k > 0.0
    ensures ComparePrices(k * a, k * b) == ComparePrices(a, b)
  {
    assert k * a == a * k && k * b == b * k;
    ScaleInequality(a, b, k);
    assert Min(k * a, k * b) == Min(a, b) * k;
    ScaleInequality(Min(a, b), 0.0, k);
    ScaleInequality(a, 0.0, k);
    ScaleInequality(b, 0.0, k);
    ComparePricesCharacterized(a, b);
    ComparePricesCharacterized(k * a, k * b);
    assert (k * a == k * b) == (a == b);
  }

  /** Comparing the reciprocals gives the same decision as comparing the
      prices: `|1/a - 1/b| / min(1/a, 1/b) == |a - b| / min(a, b)`. So when
      each exchange quotes token1Price as the reciprocal of token0Price, the
      token0 and token1 comparisons of a pair agree. */
  lemma ComparePricesReciprocal(a: real, b: real)
    requires a > 0.0 && b > 0.0
    ensures ComparePrices(1.0 / a, 1.0 / b) == ComparePrices(a, b)
  {
    if a <= b {
      ReciprocalOrdered(a, b);
    } else {
      ReciprocalOrdered(b, a);
      ComparePricesSymmetric(a, b);
      ComparePricesSymmetric(1.0 / a, 1.0 / b);
    }
  }

  /** 1/a - 1/b is (b - a) / (a * b) and 1/b is a / (a * b): the reciprocal
      comparison is the direct one scaled by 1 / (a * b). */
  lemma ReciprocalOrdered(a: real, b: real)
    requires 0.0 < a <= b
    ensures ComparePrices(1.0 / a, 1.0 / b) == ComparePrices(a, b)
  {
    var x, y := 1.0 / a, 1.0 / b;
    assert x * a == 1.0 && y * b == 1.0;
    var c := x * y;
    assert c > 0.0;
    assert x - y == (b - a) * c by {
      assert (b - a) * c == (b * y) * x - (a * x) * y;
    }
    assert y == a * c by {
      assert a * c == (a * x) * y;
    }
    assert (b - a) * c >= 0.0;
    assert Abs(x - y) == Abs(a - b) * c;
    assert Min(x, y) == Min(a, b) * c;
    ProportionalSameDecision(a, b, x, y, c);
  }
}
