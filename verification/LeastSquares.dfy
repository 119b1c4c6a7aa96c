/** The hedge ratio of tools/pairs_search.py, a closed formula, against what a least-squares slope is: with
    some intercept, no other line leaves smaller squared errors. */
module LeastSquares {
  import opened Prelude

  function Mean(s: seq<real>): real
    requires s != []
  {
    Sum(s) / |s| as real
  }

  function Centred(s: seq<real>): (r: seq<real>)
    requires s != []
    ensures |r| == |s|
  {
    seq(|s|, k requires 0 <= k < |s| => s[k] - Mean(s))
  }

  function Inner(a: seq<real>, b: seq<real>): real
    requires |a| == |b|
  {
    if a == [] then 0.0 else Inner(a[..|a| - 1], b[..|b| - 1]) + a[|a| - 1] * b[|b| - 1]
  }

  /** The least-squares slope of a on b; None where numpy returns NaN. */
  function HedgeRatio(a: seq<real>, b: seq<real>): Option<real>
    requires |a| == |b| > 0
  {
    var bc := Centred(b);
    var denom := Inner(bc, bc);
    if denom <= 0.0 then None else Some(Inner(Centred(a), bc) / denom)
  }

  function Square(x: real): real {
    x * x
  }

  /** The squared errors of the line alpha + beta * b against a. */
  ghost function Errors(a: seq<real>, b: seq<real>, alpha: real, beta: real): real
    requires |a| == |b|
  {
    if a == [] then 0.0
    else
      var k := |a| - 1;
      Errors(a[..k], b[..k], alpha, beta) + Square(a[k] - alpha - beta * b[k])
  }

  /** No line fits a better than the one with this slope and some intercept. */
  ghost predicate FitsBest(a: seq<real>, b: seq<real>, beta: real)
    requires |a| == |b|
  {
    exists alpha :: NoBetter(a, b, alpha, beta)
  }

  ghost predicate NoBetter(a: seq<real>, b: seq<real>, alpha: real, beta: real)
    requires |a| == |b|
  {
    forall alpha', beta' :: Errors(a, b, alpha, beta) <= Errors(a, b, alpha', beta')
  }

  ghost predicate Flat(b: seq<real>) {
    forall i, j | 0 <= i < j < |b| :: b[i] == b[j]
  }

  /** The slope of the best fit of a by b; none when b never moves. */
  ghost predicate IsSlope(a: seq<real>, b: seq<real>, slope: Option<real>)
    requires |a| == |b|
  {
    if Flat(b) then slope == None else slope.Some? && FitsBest(a, b, slope.value)
  }

  // ------------------------------------------------------------ sums of products

  function Less(x: seq<real>, y: seq<real>, beta: real): (r: seq<real>)
    requires |x| == |y|
    ensures |r| == |x| && forall k | 0 <= k < |r| :: r[k] == x[k] - beta * y[k]
  {
    seq(|x|, k requires 0 <= k < |x| => x[k] - beta * y[k])
  }

  lemma LessFront(x: seq<real>, y: seq<real>, beta: real)
    requires |x| == |y| > 0
    ensures Less(x, y, beta)[..|x| - 1] == Less(x[..|x| - 1], y[..|x| - 1], beta)
  {
    var front := Less(x[..|x| - 1], y[..|x| - 1], beta);
    assert forall k | 0 <= k < |x| - 1 :: Less(x, y, beta)[..|x| - 1][k] == front[k];
  }

  lemma {:induction false} InnerIsPositive(x: seq<real>)
    ensures Inner(x, x) >= 0.0
  {
    if x != [] {
      InnerIsPositive(x[..|x| - 1]);
      SquareIsPositive(x[|x| - 1], x[|x| - 1] * x[|x| - 1]);
    }
  }

  lemma {:induction false} InnerOfZeros(x: seq<real>)
    requires forall k | 0 <= k < |x| :: x[k] == 0.0
    ensures Inner(x, x) == 0.0
  {
    if x != [] {
      InnerOfZeros(x[..|x| - 1]);
    }
  }

  lemma {:induction false} InnerHasASquare(x: seq<real>, k: nat)
    requires k < |x| && x[k] != 0.0
    ensures Inner(x, x) > 0.0
  {
    var n := |x| - 1;
    InnerNext(x, x, n);
    if k < n {
      InnerHasASquare(x[..n], k);
      SquareIsPositive(x[n], x[n] * x[n]);
    } else {
      InnerIsPositive(x[..n]);
      SquareIsPositive(x[n], x[n] * x[n]);
    }
  }

  lemma SquareIsPositive(x: real, square: real)
    requires square == x * x
    ensures square >= 0.0 && (x != 0.0 ==> square > 0.0)
  {
    if x > 0.0 {
      ProductIsPositive(x, x, square);
    } else if x < 0.0 {
      ProductIsPositive(-x, -x, square);
    }
  }

  lemma ProductIsPositive(x: real, y: real, product: real)
    requires x > 0.0 && y > 0.0 && product == x * y
    ensures product > 0.0
  {
  }

  lemma {:induction false} SumOfLess(x: seq<real>, y: seq<real>, beta: real)
    requires |x| == |y|
    ensures Sum(Less(x, y, beta)) == Sum(x) - beta * Sum(y)
  {
    if x != [] {
      var k := |x| - 1;
      SumOfLess(x[..k], y[..k], beta);
      LessFront(x, y, beta);
      Distribute(beta, Sum(y[..k]), y[k]);
    }
  }

  lemma {:induction false} SumShifts(s: seq<real>, x: seq<real>, m: real)
    requires |x| == |s| && forall k | 0 <= k < |s| :: x[k] == s[k] - m
    ensures Sum(x) == Sum(s) - |s| as real * m
  {
    if s != [] {
      var k := |s| - 1;
      SumShifts(s[..k], x[..k], m);
      assert |s| as real * m == k as real * m + m;
    }
  }

  /** What is centred sums to nothing. */
  lemma CentredSumsToZero(s: seq<real>)
    requires s != []
    ensures Sum(Centred(s)) == 0.0
  {
    SumShifts(s, Centred(s), Mean(s));
    assert |s| as real * Mean(s) == Sum(s);
  }

  // ------------------------------------------------------------ the errors of a line

  /** n copies of z. */
  function Copies(n: nat, z: real): real {
    if n == 0 then 0.0 else Copies(n - 1, z) + z
  }

  lemma {:induction false} CopiesArePositive(n: nat, z: real)
    requires z >= 0.0
    ensures Copies(n, z) >= 0.0 && (z == 0.0 ==> Copies(n, z) == 0.0)
  {
    if n > 0 {
      CopiesArePositive(n - 1, z);
    }
  }

  lemma {:induction false} ErrorsAreSquares(a: seq<real>, b: seq<real>, alpha: real, beta: real, e: seq<real>)
    requires |a| == |b| == |e| && forall k | 0 <= k < |e| :: e[k] == a[k] - alpha - beta * b[k]
    ensures Errors(a, b, alpha, beta) == Inner(e, e)
  {
    if e != [] {
      var k := |e| - 1;
      ErrorsAreSquares(a[..k], b[..k], alpha, beta, e[..k]);
      InnerNext(e, e, k);
      assert Square(a[k] - alpha - beta * b[k]) == Square(e[k]);
    }
  }

  lemma OneShift(e: real, x: real, d: real, dd: real, sum: real)
    requires e == x - d && dd == d * d
    ensures e * e - 2.0 * (d * sum) == x * x - 2.0 * (d * (sum + x)) + dd
  {
    assert e * e == x * x - 2.0 * (d * x) + d * d;
    Distribute(d, sum, x);
  }

  /** The squares of a series moved by d. */
  lemma {:induction false} SquaresShift(x: seq<real>, e: seq<real>, d: real, dd: real)
    requires |e| == |x| && dd == d * d && forall k | 0 <= k < |x| :: e[k] == x[k] - d
    ensures Inner(e, e) == Inner(x, x) - 2.0 * (d * Sum(x)) + Copies(|x|, dd)
  {
    if x != [] {
      var k := |x| - 1;
      SquaresShift(x[..k], e[..k], d, dd);
      OneShift(e[k], x[k], d, dd, Sum(x[..k]));
      InnerNext(x, x, k);
      InnerNext(e, e, k);
    }
  }

  lemma ErrorsAreCentred(a: seq<real>, b: seq<real>, alpha: real, beta: real, x: seq<real>, d: real, dd: real)
    requires |a| == |b| == |x| && Sum(x) == 0.0 && dd == d * d
    requires forall k | 0 <= k < |x| :: a[k] - alpha - beta * b[k] == x[k] - d
    ensures Errors(a, b, alpha, beta) == Inner(x, x) + Copies(|x|, dd)
  {
    var e := seq(|x|, k requires 0 <= k < |x| => x[k] - d);
    ErrorsAreSquares(a, b, alpha, beta, e);
    SquaresShift(x, e, d, dd);
    assert d * Sum(x) == 0.0;
  }

  lemma ErrorsShift(a: seq<real>, b: seq<real>, alpha: real, beta: real, d: real)
    requires |a| == |b| > 0 && d == alpha - (Mean(a) - beta * Mean(b))
    ensures forall k | 0 <= k < |a| :: a[k] - alpha - beta * b[k] == Less(Centred(a), Centred(b), beta)[k] - d
  {
    forall k | 0 <= k < |a| ensures a[k] - alpha - beta * b[k] == Less(Centred(a), Centred(b), beta)[k] - d {
      ShiftedError(a[k], b[k], Mean(a), Mean(b), alpha, beta);
    }
  }

  /** A line's errors: those of its slope about the means, and what its intercept is off by. */
  lemma ErrorsOfLine(a: seq<real>, b: seq<real>, alpha: real, beta: real, r: seq<real>, d: real, dd: real)
    requires |a| == |b| > 0 && r == Less(Centred(a), Centred(b), beta)
    requires d == alpha - (Mean(a) - beta * Mean(b)) && dd == d * d
    ensures Errors(a, b, alpha, beta) == Inner(r, r) + Copies(|a|, dd)
  {
    CentredLessSumsToZero(a, b, beta);
    ErrorsShift(a, b, alpha, beta, d);
    ErrorsAreCentred(a, b, alpha, beta, r, d, dd);
  }

  lemma CentredLessSumsToZero(a: seq<real>, b: seq<real>, beta: real)
    requires |a| == |b| > 0
    ensures Sum(Less(Centred(a), Centred(b), beta)) == 0.0
  {
    SumOfLess(Centred(a), Centred(b), beta);
    CentredSumsToZero(a);
    CentredSumsToZero(b);
  }

  lemma ShiftedError(x: real, y: real, ma: real, mb: real, alpha: real, beta: real)
    ensures x - alpha - beta * y == (x - ma) - beta * (y - mb) - (alpha - (ma - beta * mb))
  {
  }

  /** A parabola in the slope. */
  function Parabola(xx: real, xy: real, yy: real, beta: real): real {
    xx - 2.0 * (beta * xy) + beta * (beta * yy)
  }

  lemma OneTerm(xx: real, xy: real, yy: real, beta: real, x: real, y: real, r: real)
    requires r == x - beta * y
    ensures Parabola(xx, xy, yy, beta) + r * r == Parabola(xx + x * x, xy + x * y, yy + y * y, beta)
  {
    var p := beta * y;
    assert r * r == x * x - 2.0 * (p * x) + p * p;
    assert p * x == beta * (x * y) && p * p == beta * (beta * (y * y));
    Distribute(beta, xy, x * y);
    Distribute(beta, yy, y * y);
    Distribute(beta, beta * yy, beta * (y * y));
  }

  lemma InnerNext(x: seq<real>, y: seq<real>, k: nat)
    requires |x| == |y| == k + 1
    ensures Inner(x, y) == Inner(x[..k], y[..k]) + x[k] * y[k]
  {
  }

  /** The errors about the means are one. */
  lemma {:induction false} ErrorsAboutMeans(x: seq<real>, y: seq<real>, beta: real, r: seq<real>, xx: real, xy: real,
                                            yy: real)
    requires |x| == |y| && r == Less(x, y, beta) && xx == Inner(x, x) && xy == Inner(x, y) && yy == Inner(y, y)
    ensures Inner(r, r) == Parabola(xx, xy, yy, beta)
  {
    if x != [] {
      var k := |x| - 1;
      var xx', xy', yy' := Inner(x[..k], x[..k]), Inner(x[..k], y[..k]), Inner(y[..k], y[..k]);
      LessFront(x, y, beta);
      ErrorsAboutMeans(x[..k], y[..k], beta, r[..k], xx', xy', yy');
      OneTerm(xx', xy', yy', beta, x[k], y[k], r[k]);
      InnerNext(r, r, k);
      InnerNext(x, x, k);
      InnerNext(x, y, k);
      InnerNext(y, y, k);
    }
  }

  /** A parabola lies above its vertex. */
  lemma VertexIsLowest(xx: real, xy: real, yy: real, beta: real, beta': real)
    requires yy > 0.0 && beta * yy == xy
    ensures Parabola(xx, xy, yy, beta) <= Parabola(xx, xy, yy, beta')
    ensures beta != beta' ==> Parabola(xx, xy, yy, beta) < Parabola(xx, xy, yy, beta')
  {
    var d := beta' - beta;
    var gap := (d * d) * yy;
    PositiveGap(d, yy, gap);
    assert Parabola(xx, xy, yy, beta') - Parabola(xx, xy, yy, beta) == gap by {
      GapOfParabola(xx, beta, beta', yy);
    }
  }

  lemma PositiveGap(d: real, yy: real, gap: real)
    requires yy > 0.0 && gap == (d * d) * yy
    ensures gap >= 0.0 && (d != 0.0 ==> gap > 0.0)
  {
    SquareIsPositive(d, d * d);
    if d != 0.0 {
      ProductIsPositive(d * d, yy, gap);
    }
  }

  lemma GapOfParabola(xx: real, beta: real, beta': real, yy: real)
    ensures Parabola(xx, beta * yy, yy, beta') - Parabola(xx, beta * yy, yy, beta)
         == ((beta' - beta) * (beta' - beta)) * yy
  {
  }

  // ------------------------------------------------------------ what the ratio is

  /** The ratio is the slope of the best fit, and the only one: missing exactly when the regressor never moves,
      and otherwise fitting better than any other slope can. */
  lemma RatioFitsBest(a: seq<real>, b: seq<real>, slope: Option<real>)
    requires |a| == |b| > 0
    ensures IsSlope(a, b, slope) <==> slope == HedgeRatio(a, b)
  {
    RatioIsMissingIff(a, b);
    if HedgeRatio(a, b).Some? {
      var beta := HedgeRatio(a, b).value;
      var alpha := Mean(a) - beta * Mean(b);
      forall alpha', beta'
        ensures Errors(a, b, alpha, beta) <= Errors(a, b, alpha', beta')
        ensures beta' != beta ==> Errors(a, b, alpha, beta) < Errors(a, b, alpha', beta')
      {
        RatioBeats(a, b, beta, alpha', beta');
      }
      assert NoBetter(a, b, alpha, beta);
    }
  }

  lemma RatioBeats(a: seq<real>, b: seq<real>, beta: real, alpha': real, beta': real)
    requires |a| == |b| > 0 && HedgeRatio(a, b) == Some(beta)
    ensures var alpha := Mean(a) - beta * Mean(b);
      && Errors(a, b, alpha, beta) <= Errors(a, b, alpha', beta')
      && (beta' != beta ==> Errors(a, b, alpha, beta) < Errors(a, b, alpha', beta'))
  {
    var alpha, d := Mean(a) - beta * Mean(b), alpha' - (Mean(a) - beta' * Mean(b));
    var r, r' := Less(Centred(a), Centred(b), beta), Less(Centred(a), Centred(b), beta');
    ErrorsOfLine(a, b, alpha, beta, r, 0.0, 0.0);
    ErrorsOfLine(a, b, alpha', beta', r', d, d * d);
    RatioIsVertex(Centred(a), Centred(b), beta, beta', r, r');
    SquareIsPositive(d, d * d);
    CopiesArePositive(|a|, d * d);
    CopiesArePositive(|a|, 0.0);
  }

  lemma RatioIsVertex(x: seq<real>, y: seq<real>, beta: real, beta': real, r: seq<real>, r': seq<real>)
    requires |x| == |y| && Inner(y, y) > 0.0 && beta == Inner(x, y) / Inner(y, y)
    requires r == Less(x, y, beta) && r' == Less(x, y, beta')
    ensures Inner(r, r) <= Inner(r', r') && (beta' != beta ==> Inner(r, r) < Inner(r', r'))
  {
    var xx, xy, yy := Inner(x, x), Inner(x, y), Inner(y, y);
    ErrorsAboutMeans(x, y, beta, r, xx, xy, yy);
    ErrorsAboutMeans(x, y, beta', r', xx, xy, yy);
    QuotientOf(xy, yy, beta);
    VertexIsLowest(xx, xy, yy, beta, beta');
  }

  lemma QuotientOf(x: real, y: real, q: real)
    requires y > 0.0 && q == x / y
    ensures q * y == x
  {
  }

  lemma RatioIsMissingIff(a: seq<real>, b: seq<real>)
    requires |a| == |b| > 0
    ensures HedgeRatio(a, b).None? <==> Flat(b)
  {
    if Flat(b) {
      MeanOfFlat(b);
      InnerOfZeros(Centred(b));
    } else {
      var i, j :| 0 <= i < j < |b| && b[i] != b[j];
      InnerHasASquare(Centred(b), if Centred(b)[i] != 0.0 then i else j);
    }
  }

  lemma MeanOfFlat(b: seq<real>)
    requires b != [] && Flat(b)
    ensures forall k | 0 <= k < |b| :: b[k] == Mean(b)
  {
    SumByConstant((x: real) => x, b[0], b, |b|);
    QuotientIs(|b| as real * b[0], |b| as real, b[0]);
  }
}
