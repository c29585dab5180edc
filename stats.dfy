/**
 * Sums over sequences of reals, the mean, and the facts about sums of
 * products that the correlation coefficient rests on (the Cauchy-Schwarz
 * inequality and its consequence that a comoment is bounded by the two
 * spreads).
 */
module Stats {

  function Sum(xs: seq<real>): real
  {
    if xs == [] then 0.0 else xs[0] + Sum(xs[1..])
  }

  function Mean(xs: seq<real>): real
    requires xs != []
  {
    Sum(xs) / (|xs| as real)
  }

  function Abs(x: real): (a: real)
    ensures a >= 0.0 && (a == x || a == -x)
  {
    if x < 0.0 then -x else x
  }

  /** `x²` */
  function Sq(x: real): real
  {
    x * x
  }

  function Min(xs: seq<real>): (m: real)
    requires xs != []
    ensures m in xs
    ensures forall i :: 0 <= i < |xs| ==> m <= xs[i]
  {
    if |xs| == 1 then xs[0]
    else
      var rest := Min(xs[1..]);
      if xs[0] <= rest then xs[0] else rest
  }

  function Max(xs: seq<real>): (m: real)
    requires xs != []
    ensures m in xs
    ensures forall i :: 0 <= i < |xs| ==> xs[i] <= m
  {
    if |xs| == 1 then xs[0]
    else
      var rest := Max(xs[1..]);
      if rest <= xs[0] then xs[0] else rest
  }

  /** `Σ x[i] * y[i]` */
  function Dot(xs: seq<real>, ys: seq<real>): real
    requires |xs| == |ys|
  {
    if xs == [] then 0.0 else xs[0] * ys[0] + Dot(xs[1..], ys[1..])
  }

  /** `n d - sx sy` */
  function Moment(n: real, d: real, sx: real, sy: real): real
  {
    n * d - sx * sy
  }

  /** `n * Σxy - Σx * Σy`, the numerator of the product-moment correlation. */
  function Comoment(xs: seq<real>, ys: seq<real>): real
    requires |xs| == |ys|
  {
    Moment(|xs| as real, Dot(xs, ys), Sum(xs), Sum(ys))
  }

  predicate IsConstant(xs: seq<real>)
  {
    forall i, j :: 0 <= i < |xs| && 0 <= j < |xs| ==> xs[i] == xs[j]
  }

  lemma {:induction false} SumBounds(xs: seq<real>, lo: real, hi: real)
    requires forall i :: 0 <= i < |xs| ==> lo <= xs[i] <= hi
    ensures (|xs| as real) * lo <= Sum(xs) <= (|xs| as real) * hi
  {
    if xs != [] {
      SumBounds(xs[1..], lo, hi);
    }
  }

  lemma QuotientBounds(s: real, n: real, lo: real, hi: real)
    requires n > 0.0 && n * lo <= s <= n * hi
    ensures lo <= s / n <= hi
  {
    var q := s / n;
    assert q * n == s;
  }

  /** A mean lies within any bounds of its elements. */
  lemma MeanWithin(xs: seq<real>, lo: real, hi: real)
    requires xs != []
    requires forall i :: 0 <= i < |xs| ==> lo <= xs[i] <= hi
    ensures lo <= Mean(xs) <= hi
  {
    SumBounds(xs, lo, hi);
    QuotientBounds(Sum(xs), |xs| as real, lo, hi);
  }

  /** A mean lies between the smallest and the largest element. */
  lemma MeanBetweenMinAndMax(xs: seq<real>)
    requires xs != []
    ensures Min(xs) <= Mean(xs) <= Max(xs)
  {
    MeanWithin(xs, Min(xs), Max(xs));
  }

  lemma {:induction false} DotSymmetric(xs: seq<real>, ys: seq<real>)
    requires |xs| == |ys|
    ensures Dot(xs, ys) == Dot(ys, xs)
  {
    if xs != [] {
      DotSymmetric(xs[1..], ys[1..]);
    }
  }

  lemma SquareOfNonZero(x: real)
    requires x != 0.0
    ensures x * x > 0.0
  {
  }

  /*
   * The Cauchy-Schwarz argument below keeps every polynomial behind a small
   * function (`Term`, `Expansion`, `Quadratic`) so that the lemmas over
   * sequences only match terms, and each algebraic step is a lemma over
   * plain reals.
   */

  /** `a x - b` */
  function Shift(a: real, b: real, x: real): real
  {
    a * x - b
  }

  /** `(a x - b) (a y - c)` */
  function Term(a: real, b: real, c: real, x: real, y: real): real
  {
    Shift(a, b, x) * Shift(a, c, y)
  }

  /**
   * `Σ (a x[i] - b) (a y[i] - c)`: the sum of products of two series, each
   * scaled by `a` and shifted by `b` and `c`.
   */
  function Gram(xs: seq<real>, ys: seq<real>, a: real, b: real, c: real): real
    requires |xs| == |ys|
  {
    if xs == [] then 0.0
    else Term(a, b, c, xs[0], ys[0]) + Gram(xs[1..], ys[1..], a, b, c)
  }

  /** `a² d - a c sx - a b sy + n b c`, the expansion of a `Gram` sum. */
  function Expansion(a: real, b: real, c: real, d: real, sx: real, sy: real, n: real): real
  {
    a * a * d - a * c * sx - a * b * sy + n * b * c
  }

  /** `p - 2 t r + t² q` */
  function Quadratic(p: real, r: real, q: real, t: real): real
  {
    p - 2.0 * t * r + t * t * q
  }

  lemma GramStep(a: real, b: real, c: real, x: real, y: real, rest: real,
                 d: real, sx: real, sy: real, n: real, lhs: real, dd: real, ssx: real, ssy: real, nn: real)
    requires rest == Expansion(a, b, c, d, sx, sy, n)
    requires lhs == Term(a, b, c, x, y) + rest
    requires dd == x * y + d && ssx == x + sx && ssy == y + sy && nn == n + 1.0
    ensures lhs == Expansion(a, b, c, dd, ssx, ssy, nn)
  {
  }

  lemma NothingExpanded(a: real, b: real, c: real)
    ensures Expansion(a, b, c, 0.0, 0.0, 0.0, 0.0) == 0.0
  {
  }

  /** Expanding the products of `Gram` in terms of `Σxy`, `Σx` and `Σy`. */
  lemma {:induction false} GramExpanded(xs: seq<real>, ys: seq<real>, a: real, b: real, c: real)
    requires |xs| == |ys|
    ensures Gram(xs, ys, a, b, c) == Expansion(a, b, c, Dot(xs, ys), Sum(xs), Sum(ys), |xs| as real)
  {
    if xs != [] {
      GramExpanded(xs[1..], ys[1..], a, b, c);
      GramStep(a, b, c, xs[0], ys[0], Gram(xs[1..], ys[1..], a, b, c),
               Dot(xs[1..], ys[1..]), Sum(xs[1..]), Sum(ys[1..]), |xs[1..]| as real,
               Gram(xs, ys, a, b, c), Dot(xs, ys), Sum(xs), Sum(ys), |xs| as real);
    } else {
      NothingExpanded(a, b, c);
    }
  }

  lemma SquaresStep(a: real, b: real, x: real, rest: real, lhs: real)
    requires rest >= 0.0 && lhs == Term(a, b, b, x, x) + rest
    ensures lhs >= 0.0
    ensures Shift(a, b, x) != 0.0 ==> lhs > 0.0
  {
    var u := Shift(a, b, x);
    if u != 0.0 {
      calc {
        lhs;
        u * u + rest;
      >= u * u;
      > { SquareOfNonZero(u); }
        0.0;
      }
    }
  }

  lemma {:induction false} GramSquaresNonNegative(xs: seq<real>, a: real, b: real)
    ensures Gram(xs, xs, a, b, b) >= 0.0
  {
    if xs != [] {
      GramSquaresNonNegative(xs[1..], a, b);
      SquaresStep(a, b, xs[0], Gram(xs[1..], xs[1..], a, b, b), Gram(xs, xs, a, b, b));
    }
  }

  /** A sum of squares is positive as soon as one of its terms is not zero. */
  lemma {:induction false} GramSquaresPositive(xs: seq<real>, a: real, b: real, i: nat)
    requires i < |xs| && Shift(a, b, xs[i]) != 0.0
    ensures Gram(xs, xs, a, b, b) > 0.0
  {
    if i == 0 {
      GramSquaresNonNegative(xs[1..], a, b);
    } else {
      GramSquaresPositive(xs[1..], a, b, i - 1);
    }
    SquaresStep(a, b, xs[0], Gram(xs[1..], xs[1..], a, b, b), Gram(xs, xs, a, b, b));
  }

  lemma QuadraticStep(a: real, b: real, c: real, x: real, y: real, t: real,
                      p: real, r: real, q: real, pp: real, rr: real, qq: real)
    requires Quadratic(p, r, q, t) >= 0.0
    requires pp == Term(a, b, b, x, x) + p
    requires rr == Term(a, b, c, x, y) + r
    requires qq == Term(a, c, c, y, y) + q
    ensures Quadratic(pp, rr, qq, t) >= 0.0
  {
    var u, v := Shift(a, b, x), Shift(a, c, y);
    var w := u - t * v;
    assert Quadratic(pp, rr, qq, t) == w * w + Quadratic(p, r, q, t);
  }

  /** `Σ (u[i] - t v[i])² >= 0`, written out in the three sums of products. */
  lemma {:induction false} GramQuadratic(xs: seq<real>, ys: seq<real>, a: real, b: real, c: real, t: real)
    requires |xs| == |ys|
    ensures Quadratic(Gram(xs, xs, a, b, b), Gram(xs, ys, a, b, c), Gram(ys, ys, a, c, c), t) >= 0.0
  {
    if xs != [] {
      GramQuadratic(xs[1..], ys[1..], a, b, c, t);
      QuadraticStep(a, b, c, xs[0], ys[0], t,
                    Gram(xs[1..], xs[1..], a, b, b), Gram(xs[1..], ys[1..], a, b, c), Gram(ys[1..], ys[1..], a, c, c),
                    Gram(xs, xs, a, b, b), Gram(xs, ys, a, b, c), Gram(ys, ys, a, c, c));
    } else {
      assert Quadratic(0.0, 0.0, 0.0, t) == 0.0;
    }
  }

  /**
   * The point at which the quadratic `p - 2 t r + t² q` is lowest when
   * `q > 0`, and a point at which it is negative when `q == 0` and `r != 0`.
   */
  function Vertex(p: real, r: real, q: real): real
  {
    if q != 0.0 then r / q
    else if r != 0.0 then (p + 1.0) / (2.0 * r)
    else 0.0
  }

  /** A quadratic `p - 2 t r + t² q` that is not negative at `Vertex` has `r² <= p q`. */
  lemma Discriminant(p: real, r: real, q: real)
    requires p >= 0.0 && q >= 0.0
    requires Quadratic(p, r, q, Vertex(p, r, q)) >= 0.0
    ensures r * r <= p * q
  {
    if q == 0.0 {
      if r != 0.0 {
        assert false;
      }
    } else {
      var t := r / q;
      assert t * q == r;
      assert t * t * q == t * r;
      assert p >= t * r;
      assert p * q >= t * r * q;
    }
  }

  /** The Cauchy-Schwarz inequality for the shifted series of `Gram`. */
  lemma CauchySchwarz(xs: seq<real>, ys: seq<real>, a: real, b: real, c: real)
    requires |xs| == |ys|
    ensures Gram(xs, ys, a, b, c) * Gram(xs, ys, a, b, c) <= Gram(xs, xs, a, b, b) * Gram(ys, ys, a, c, c)
  {
    GramSquaresNonNegative(xs, a, b);
    GramSquaresNonNegative(ys, a, c);
    GramQuadratic(xs, ys, a, b, c, Vertex(Gram(xs, xs, a, b, b), Gram(xs, ys, a, b, c), Gram(ys, ys, a, c, c)));
    Discriminant(Gram(xs, xs, a, b, b), Gram(xs, ys, a, b, c), Gram(ys, ys, a, c, c));
  }

  lemma CentredProduct(n: real, d: real, sx: real, sy: real, cm: real, lhs: real)
    requires cm == Moment(n, d, sx, sy)
    requires lhs == Expansion(n, sx, sy, d, sx, sy, n)
    ensures lhs == Scale(n, cm)
  {
  }

  /** Centring at `n * x[i] - Σx` turns the comoment into a plain sum of products. */
  lemma CentredGram(xs: seq<real>, ys: seq<real>)
    requires |xs| == |ys|
    ensures Gram(xs, ys, |xs| as real, Sum(xs), Sum(ys)) == Scale(|xs| as real, Comoment(xs, ys))
  {
    GramExpanded(xs, ys, |xs| as real, Sum(xs), Sum(ys));
    CentredProduct(|xs| as real, Dot(xs, ys), Sum(xs), Sum(ys), Comoment(xs, ys),
                   Gram(xs, ys, |xs| as real, Sum(xs), Sum(ys)));
  }

  /** `n c` */
  function Scale(n: real, c: real): real
  {
    n * c
  }

  lemma ScaleBack(n: real, cxy: real, cxx: real, cyy: real)
    requires n > 0.0
    requires Scale(n, cxy) * Scale(n, cxy) <= Scale(n, cxx) * Scale(n, cyy)
    requires Scale(n, cxx) >= 0.0 && Scale(n, cyy) >= 0.0
    ensures Sq(cxy) <= cxx * cyy && cxx >= 0.0 && cyy >= 0.0
  {
    calc {
      (n * n) * Sq(cxy);
      Scale(n, cxy) * Scale(n, cxy);
    <= Scale(n, cxx) * Scale(n, cyy);
      (n * n) * (cxx * cyy);
    }
    assert n * n > 0.0;
  }

  /**
   * `(n Σxy - Σx Σy)² <= (n Σx² - (Σx)²) (n Σy² - (Σy)²)` and each spread
   * `n Σx² - (Σx)²` is non-negative.
   */
  lemma ComomentBound(xs: seq<real>, ys: seq<real>)
    requires |xs| == |ys|
    ensures Comoment(xs, xs) >= 0.0 && Comoment(ys, ys) >= 0.0
    ensures Sq(Comoment(xs, ys)) <= Comoment(xs, xs) * Comoment(ys, ys)
  {
    if xs != [] {
      CentredGram(xs, ys);
      CentredGram(xs, xs);
      CentredGram(ys, ys);
      GramSquaresNonNegative(xs, |xs| as real, Sum(xs));
      GramSquaresNonNegative(ys, |xs| as real, Sum(ys));
      CauchySchwarz(xs, ys, |xs| as real, Sum(xs), Sum(ys));
      ScaleBack(|xs| as real, Comoment(xs, ys), Comoment(xs, xs), Comoment(ys, ys));
    }
  }

  lemma {:induction false} SumOfConstant(xs: seq<real>, c: real)
    requires forall i :: 0 <= i < |xs| ==> xs[i] == c
    ensures Sum(xs) == (|xs| as real) * c
    ensures Dot(xs, xs) == (|xs| as real) * (c * c)
  {
    if xs != [] {
      SumOfConstant(xs[1..], c);
    }
  }

  lemma NoSpreadArithmetic(n: real, c: real, s: real, d: real, spread: real)
    requires s == n * c && d == n * (c * c) && spread == n * d - s * s
    ensures spread == 0.0
  {
  }

  /** A constant series has zero spread `n Σx² - (Σx)²`. */
  lemma ConstantHasNoSpread(xs: seq<real>)
    requires IsConstant(xs)
    ensures Comoment(xs, xs) == 0.0
  {
    if xs != [] {
      SumOfConstant(xs, xs[0]);
      NoSpreadArithmetic(|xs| as real, xs[0], Sum(xs), Dot(xs, xs), Comoment(xs, xs));
    }
  }

  lemma CancelEqual(n: real, s: real, x: real, y: real)
    requires n > 0.0 && Shift(n, s, x) == 0.0 && Shift(n, s, y) == 0.0
    ensures x == y
  {
  }

  lemma NoSpreadNoGram(xs: seq<real>)
    requires Comoment(xs, xs) == 0.0
    ensures Gram(xs, xs, |xs| as real, Sum(xs), Sum(xs)) == 0.0
  {
    CentredGram(xs, xs);
  }

  /** A series with zero spread is constant. */
  lemma NoSpreadIsConstant(xs: seq<real>)
    requires Comoment(xs, xs) == 0.0
    ensures IsConstant(xs)
  {
    NoSpreadNoGram(xs);
    forall i, j | 0 <= i < |xs| && 0 <= j < |xs| ensures xs[i] == xs[j] {
      if Shift(|xs| as real, Sum(xs), xs[i]) != 0.0 {
        GramSquaresPositive(xs, |xs| as real, Sum(xs), i);
      } else if Shift(|xs| as real, Sum(xs), xs[j]) != 0.0 {
        GramSquaresPositive(xs, |xs| as real, Sum(xs), j);
      } else {
        CancelEqual(|xs| as real, Sum(xs), xs[i], xs[j]);
      }
    }
  }

  lemma SquarePositive(x: real)
    requires x != 0.0
    ensures Sq(x) > 0.0
  {
    if x > 0.0 {
      calc { Sq(x); x * x; > 0.0 * x; }
    } else {
      calc { Sq(x); (-x) * (-x); > 0.0 * (-x); }
    }
  }

  lemma RootOfZero(x: real)
    requires Sq(x) <= 0.0
    ensures x == 0.0
  {
    if x != 0.0 {
      SquarePositive(x);
    }
  }

  lemma SquareMonotone(a: real, b: real)
    requires 0.0 <= a <= b
    ensures Sq(a) <= Sq(b)
  {
    calc {
      Sq(a);
      a * a;
    <= a * b;
    <= b * b;
      Sq(b);
    }
  }

  lemma SquareStrictMonotone(a: real, b: real)
    requires 0.0 <= a < b
    ensures Sq(a) < Sq(b)
  {
    calc {
      Sq(a);
      a * a;
    <= a * b;
    < b * b;
      Sq(b);
    }
  }

  /** For `t >= 0`, `|r| >= t` exactly when `r² >= t²`, and `|r| > t` exactly when `r² > t²`. */
  lemma AbsAgainstSquares(r: real, t: real)
    requires t >= 0.0
    ensures Abs(r) >= t <==> Sq(r) >= Sq(t)
    ensures Abs(r) > t <==> Sq(r) > Sq(t)
  {
    assert Sq(Abs(r)) == Sq(r);
    if Abs(r) > t {
      SquareStrictMonotone(t, Abs(r));
    } else if Abs(r) == t {
    } else {
      SquareStrictMonotone(Abs(r), t);
    }
  }
}
