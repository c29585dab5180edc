/**
 * The product-moment correlation of two series (`calculateCorrelation`) and
 * the two ways a coefficient is put into words (`getSignificanceLevel`,
 * `describeCorrelation`).
 *
 * The coefficient `numerator / sqrt(radicand)` is kept exact: the square
 * root is never taken. `Denotes(c, r)` says which real number `r` a
 * coefficient stands for, and the threshold tests are decided on the
 * numerator and the radicand alone (`AtLeast`, `Exceeds`, `IsPositive`).
 */
module Correlation {
  import opened Stats

  /** `numerator / sqrt(radicand)`; a zero radicand stands for the coefficient 0. */
  datatype Coefficient = Coefficient(numerator: real, radicand: real)

  const Zero := Coefficient(0.0, 0.0)

  /** `r` is the number `numerator / sqrt(radicand)`, or 0 when the radicand is 0. */
  predicate Denotes(c: Coefficient, r: real)
  {
    if c.radicand == 0.0 then r == 0.0
    else
      c.radicand > 0.0 && Sq(r) * c.radicand == Sq(c.numerator) &&
      (r > 0.0 <==> c.numerator > 0.0) && (r < 0.0 <==> c.numerator < 0.0)
  }

  /** What every coefficient of two real series satisfies: `numerator² <= radicand`. */
  predicate WellFormed(c: Coefficient)
  {
    c.radicand >= 0.0 && Sq(c.numerator) <= c.radicand && (c.radicand == 0.0 ==> c.numerator == 0.0)
  }

  /**
   * `calculateCorrelation(x, y)`: 0 for series of different lengths or
   * empty series, otherwise `(n Σxy - Σx Σy) / sqrt((n Σx² - (Σx)²)(n Σy² - (Σy)²))`
   * (each bracket is a `Comoment`), and 0 again when that denominator is 0.
   */
  function CalculateCorrelation(x: seq<real>, y: seq<real>): (c: Coefficient)
    ensures |x| != |y| || x == [] ==> c == Zero
    ensures WellFormed(c)
    ensures |x| == |y| && c != Zero ==>
      c.numerator == Comoment(x, y) && c.radicand == Comoment(x, x) * Comoment(y, y)
  {
    if |x| != |y| || |x| == 0 then Zero
    else if Comoment(x, x) * Comoment(y, y) == 0.0 then Zero
    else
      ComomentBound(x, y);
      Coefficient(Comoment(x, y), Comoment(x, x) * Comoment(y, y))
  }

  /** A well-formed coefficient lies in `[-1, 1]`. */
  lemma InUnitRange(c: Coefficient, r: real)
    requires WellFormed(c) && Denotes(c, r)
    ensures -1.0 <= r <= 1.0
  {
    if c.radicand != 0.0 {
      AbsAgainstSquares(r, 1.0);
      ScaleComparison(Sq(r), 1.0, c.radicand);
      assert Sq(1.0) == 1.0;
    }
  }

  /** The correlation of any two series lies in `[-1, 1]`. */
  lemma CorrelationInRange(x: seq<real>, y: seq<real>, r: real)
    requires Denotes(CalculateCorrelation(x, y), r)
    ensures -1.0 <= r <= 1.0
  {
    InUnitRange(CalculateCorrelation(x, y), r);
  }

  lemma ComomentSymmetric(x: seq<real>, y: seq<real>)
    requires |x| == |y|
    ensures Comoment(x, y) == Comoment(y, x)
  {
    DotSymmetric(x, y);
  }

  /** `corr(x, y) = corr(y, x)`. */
  lemma CorrelationSymmetric(x: seq<real>, y: seq<real>)
    ensures CalculateCorrelation(x, y) == CalculateCorrelation(y, x)
  {
    if |x| == |y| && x != [] {
      ComomentSymmetric(x, y);
    }
  }

  lemma ProductWithZero(a: real, b: real)
    requires a == 0.0 || b == 0.0
    ensures a * b == 0.0
  {
  }

  lemma ZeroProduct(a: real, b: real)
    requires a * b == 0.0
    ensures a == 0.0 || b == 0.0
  {
  }

  /**
   * With series of one length `n > 0`, the denominator is zero, and the
   * result the constant 0, exactly when one of the series is constant.
   */
  lemma CorrelationZeroIff(x: seq<real>, y: seq<real>)
    requires |x| == |y| && x != []
    ensures CalculateCorrelation(x, y) == Zero <==> IsConstant(x) || IsConstant(y)
  {
    if IsConstant(x) {
      ConstantHasNoSpread(x);
      ProductWithZero(Comoment(x, x), Comoment(y, y));
    } else if IsConstant(y) {
      ConstantHasNoSpread(y);
      ProductWithZero(Comoment(x, x), Comoment(y, y));
    } else if CalculateCorrelation(x, y) == Zero {
      ZeroProduct(Comoment(x, x), Comoment(y, y));
      if Comoment(x, x) == 0.0 {
        NoSpreadIsConstant(x);
      } else {
        NoSpreadIsConstant(y);
      }
    }
  }

  /** Different lengths, empty series, or a constant series give the correlation 0. */
  lemma CorrelationZeroCases(x: seq<real>, y: seq<real>)
    requires |x| != |y| || x == [] || IsConstant(x) || IsConstant(y)
    ensures CalculateCorrelation(x, y) == Zero && Denotes(CalculateCorrelation(x, y), 0.0)
  {
    if |x| == |y| && x != [] {
      CorrelationZeroIff(x, y);
    }
  }

  /** A series that is not constant correlates with itself at exactly 1. */
  lemma SelfCorrelation(x: seq<real>)
    requires !IsConstant(x)
    ensures Denotes(CalculateCorrelation(x, x), 1.0)
  {
    assert x != [];
    ComomentBound(x, x);
    if Comoment(x, x) == 0.0 {
      NoSpreadIsConstant(x);
    }
    SquarePositive(Comoment(x, x));
    assert Comoment(x, x) * Comoment(x, x) == Sq(Comoment(x, x));
  }

  /** The sign of the correlation is the sign of `n Σxy - Σx Σy`. */
  lemma CorrelationSign(x: seq<real>, y: seq<real>, r: real)
    requires |x| == |y|
    requires Denotes(CalculateCorrelation(x, y), r)
    ensures r > 0.0 <==> Comoment(x, y) > 0.0
    ensures r < 0.0 <==> Comoment(x, y) < 0.0
  {
    var c := CalculateCorrelation(x, y);
    if c == Zero {
      ComomentBound(x, y);
      if x != [] {
        CorrelationZeroIff(x, y);
        if IsConstant(x) {
          ConstantHasNoSpread(x);
        } else {
          ConstantHasNoSpread(y);
        }
        ProductWithZero(Comoment(x, x), Comoment(y, y));
        RootOfZero(Comoment(x, y));
      }
    }
  }

  /** `|r| >= t`, decided on the exact coefficient. */
  predicate AtLeast(c: Coefficient, t: real)
  {
    if c.radicand == 0.0 then 0.0 >= t else Sq(c.numerator) >= Sq(t) * c.radicand
  }

  /** `|r| > t`, decided on the exact coefficient. */
  predicate Exceeds(c: Coefficient, t: real)
  {
    if c.radicand == 0.0 then 0.0 > t else Sq(c.numerator) > Sq(t) * c.radicand
  }

  /** `r > 0`, decided on the exact coefficient. */
  predicate IsPositive(c: Coefficient)
  {
    c.radicand != 0.0 && c.numerator > 0.0
  }

  /** The exact threshold tests agree with the number the coefficient stands for. */
  lemma ThresholdsExact(c: Coefficient, r: real, t: real)
    requires Denotes(c, r) && t >= 0.0
    ensures AtLeast(c, t) <==> Abs(r) >= t
    ensures Exceeds(c, t) <==> Abs(r) > t
    ensures IsPositive(c) <==> r > 0.0
  {
    if c.radicand != 0.0 {
      AbsAgainstSquares(r, t);
      ScaleComparison(Sq(r), Sq(t), c.radicand);
    }
  }

  lemma ScaleComparison(a: real, b: real, k: real)
    requires k > 0.0
    ensures a >= b <==> a * k >= b * k
    ensures a > b <==> a * k > b * k
  {
  }

  /** `getSignificanceLevel(strength)` */
  function SignificanceLevel(strength: real): string
  {
    if strength >= 0.7 then "Strong"
    else if strength >= 0.4 then "Moderate"
    else if strength >= 0.2 then "Weak"
    else "Very Weak"
  }

  /** The word `describeCorrelation` uses for the sign of `r`. */
  function Direction(r: real): string
  {
    if r > 0.0 then "positively" else "negatively"
  }

  /** The sentence `describeCorrelation` builds for a significance level. */
  function Template(factor: string, level: string, direction: string): string
  {
    if level == "Strong" then factor + " is strongly " + direction + " correlated with your mood"
    else if level == "Moderate" then factor + " shows a moderate " + direction + " relationship with your mood"
    else if level == "Weak" then factor + " has a weak " + direction + " impact on your mood"
    else factor + " shows little correlation with your mood"
  }

  /** `describeCorrelation(factor, r)` */
  function DescribeCorrelation(factor: string, r: real): string
  {
    var strength := Abs(r);
    var direction := Direction(r);
    if strength >= 0.7 then factor + " is strongly " + direction + " correlated with your mood"
    else if strength >= 0.4 then factor + " shows a moderate " + direction + " relationship with your mood"
    else if strength >= 0.2 then factor + " has a weak " + direction + " impact on your mood"
    else factor + " shows little correlation with your mood"
  }

  /**
   * The description and the significance level are cut at the same
   * thresholds: the sentence is the one for the level of `|r|`.
   */
  lemma DescriptionMatchesSignificance(factor: string, r: real)
    ensures DescribeCorrelation(factor, r) == Template(factor, SignificanceLevel(Abs(r)), Direction(r))
  {
  }

  /** The significance level of an exact coefficient. */
  function SignificanceOf(c: Coefficient): (level: string)
    ensures level in {"Strong", "Moderate", "Weak", "Very Weak"}
  {
    if AtLeast(c, 0.7) then "Strong"
    else if AtLeast(c, 0.4) then "Moderate"
    else if AtLeast(c, 0.2) then "Weak"
    else "Very Weak"
  }

  /** The description of an exact coefficient. */
  function DescriptionOf(factor: string, c: Coefficient): string
  {
    Template(factor, SignificanceOf(c), if IsPositive(c) then "positively" else "negatively")
  }

  /** Labelling the exact coefficient gives the level of the number it stands for. */
  lemma SignificanceOfExact(c: Coefficient, r: real)
    requires Denotes(c, r)
    ensures SignificanceOf(c) == SignificanceLevel(Abs(r))
  {
    ThresholdsExact(c, r, 0.7);
    ThresholdsExact(c, r, 0.4);
    ThresholdsExact(c, r, 0.2);
  }

  /** Describing the exact coefficient gives the description of the number it stands for. */
  lemma DescriptionOfExact(factor: string, c: Coefficient, r: real)
    requires Denotes(c, r)
    ensures DescriptionOf(factor, c) == DescribeCorrelation(factor, r)
  {
    SignificanceOfExact(c, r);
    ThresholdsExact(c, r, 0.0);
    DescriptionMatchesSignificance(factor, r);
  }
}
