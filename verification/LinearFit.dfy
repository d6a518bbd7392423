/** Ordinary least squares, over the reals. */
module LinearFit {

  datatype Fit = Rejected | Line(intercept: real, slope: real, r2: real)

  function Sum(v: seq<real>): real {
    if v == [] then 0.0 else v[0] + Sum(v[1..])
  }

  /** The sum of products, position by position. */
  function Dot(a: seq<real>, b: seq<real>): real
    requires |a| == |b|
  {
    if a == [] then 0.0 else a[0] * b[0] + Dot(a[1..], b[1..])
  }

  function Mean(v: seq<real>): real
    requires v != []
  {
    Sum(v) / |v| as real
  }

  function Deviations(v: seq<real>, m: real): (d: seq<real>)
    ensures |d| == |v|
  {
    seq(|v|, i requires 0 <= i < |v| => v[i] - m)
  }

  /** What a line leaves unexplained at each point. */
  function Gaps(xs: seq<real>, ys: seq<real>, intercept: real, slope: real): (g: seq<real>)
    requires |xs| == |ys|
    ensures |g| == |xs|
  {
    seq(|xs|, i requires 0 <= i < |xs| => ys[i] - (intercept + slope * xs[i]))
  }

  /** The residual sum of squares of a line. */
  function Residual(xs: seq<real>, ys: seq<real>, intercept: real, slope: real): real
    requires |xs| == |ys|
  {
    var g := Gaps(xs, ys, intercept, slope);
    Dot(g, g)
  }

  function SlopeOf(dx: seq<real>, dy: seq<real>): real
    requires |dx| == |dy|
  {
    var denominator := Dot(dx, dx);
    if denominator != 0.0 then Dot(dx, dy) / denominator else 0.0
  }

  /** The intercept that takes a line of this slope through both means. */
  function InterceptOf(xs: seq<real>, ys: seq<real>, slope: real): real
    requires xs != [] && ys != []
  {
    Mean(ys) - slope * Mean(xs)
  }

  function FitLine(xs: seq<real>, ys: seq<real>): Fit {
    if xs == [] || |xs| != |ys| then Rejected
    else
      var dy := Deviations(ys, Mean(ys));
      var slope := SlopeOf(Deviations(xs, Mean(xs)), dy);
      var intercept := InterceptOf(xs, ys, slope);
      var residual := Residual(xs, ys, intercept, slope);
      var total := Dot(dy, dy);
      Line(intercept, slope, if total != 0.0 then 1.0 - residual / total else 1.0)
  }

  // ------------------------------------------------------------ relations between samples

  /** Marks the positions at which a relation between samples is looked up. */
  ghost predicate At(i: int) {
    true
  }

  /** `w` is `u + v * x` at every point. */
  ghost predicate IsAffine(w: seq<real>, xs: seq<real>, u: real, v: real) {
    |w| == |xs| && forall i {:trigger At(i)} :: At(i) && 0 <= i < |w| ==> w[i] == u + v * xs[i]
  }

  /** `c` is `a - m * b` at every point. */
  ghost predicate IsCombination(c: seq<real>, a: seq<real>, b: seq<real>, m: real) {
    |a| == |b| == |c| && forall i {:trigger At(i)} :: At(i) && 0 <= i < |c| ==> c[i] == a[i] - m * b[i]
  }

  ghost predicate IsZero(a: seq<real>) {
    forall i {:trigger At(i)} :: At(i) && 0 <= i < |a| ==> a[i] == 0.0
  }

  lemma AffineTail(w: seq<real>, xs: seq<real>, u: real, v: real)
    requires IsAffine(w, xs, u, v) && w != []
    ensures w[0] == u + v * xs[0] && IsAffine(w[1..], xs[1..], u, v)
  {
    assert At(0);
    forall i | At(i) && 0 <= i < |w[1..]| ensures w[1..][i] == u + v * xs[1..][i] {
      assert At(i + 1);
    }
  }

  lemma CombinationTail(c: seq<real>, a: seq<real>, b: seq<real>, m: real)
    requires IsCombination(c, a, b, m) && c != []
    ensures c[0] == a[0] - m * b[0] && IsCombination(c[1..], a[1..], b[1..], m)
  {
    assert At(0);
    forall i | At(i) && 0 <= i < |c[1..]| ensures c[1..][i] == a[1..][i] - m * b[1..][i] {
      assert At(i + 1);
    }
  }

  // ------------------------------------------------------------ sums and products

  function Product(a: real, b: real): (p: real)
    requires a >= 0.0 && b >= 0.0
    ensures p >= 0.0
    ensures a > 0.0 && b > 0.0 ==> p > 0.0
  {
    a * b
  }

  function Squared(a: real): (square: real)
    ensures square >= 0.0
    ensures a != 0.0 ==> square > 0.0
  {
    if a < 0.0 then Product(-a, -a) else Product(a, a)
  }

  lemma {:induction false} DotSelf(a: seq<real>)
    ensures Dot(a, a) >= 0.0
    ensures Dot(a, a) == 0.0 ==> IsZero(a)
  {
    if a != [] {
      DotSelf(a[1..]);
      assert Dot(a, a) == Squared(a[0]) + Dot(a[1..], a[1..]);
      if Dot(a, a) == 0.0 {
        forall i | At(i) && 0 <= i < |a| ensures a[i] == 0.0 {
          if i > 0 {
            assert At(i - 1);
            assert a[i] == a[1..][i - 1];
          }
        }
      }
    }
  }

  lemma {:induction false} DotZero(a: seq<real>, b: seq<real>)
    requires |a| == |b| && IsZero(a)
    ensures Dot(a, b) == 0.0
  {
    if a != [] {
      assert At(0);
      forall i | At(i) && 0 <= i < |a[1..]| ensures a[1..][i] == 0.0 {
        assert At(i + 1);
      }
      DotZero(a[1..], b[1..]);
    }
  }

  lemma {:induction false} DotCommutes(a: seq<real>, b: seq<real>)
    requires |a| == |b|
    ensures Dot(a, b) == Dot(b, a)
  {
    if a != [] {
      DotCommutes(a[1..], b[1..]);
    }
  }

  lemma CombinationStep(a: real, b: real, z: real, m: real, dotA: real, dotB: real)
    ensures (a - m * b) * z + (dotA - m * dotB) == (a * z + dotA) - m * (b * z + dotB)
  {
  }

  /** The product is linear in its first factor. */
  lemma {:induction false} DotLinear(c: seq<real>, a: seq<real>, b: seq<real>, m: real, z: seq<real>)
    requires IsCombination(c, a, b, m) && |z| == |c|
    ensures Dot(c, z) == Dot(a, z) - m * Dot(b, z)
  {
    if c != [] {
      CombinationTail(c, a, b, m);
      DotLinear(c[1..], a[1..], b[1..], m, z[1..]);
      CombinationStep(a[0], b[0], z[0], m, Dot(a[1..], z[1..]), Dot(b[1..], z[1..]));
    }
  }

  lemma AffineStep(g: real, x: real, u: real, v: real, sum: real, dot: real)
    ensures g * (u + v * x) + (u * sum + v * dot) == u * (g + sum) + v * (g * x + dot)
  {
  }

  /** The product with an affine image of `xs`. */
  lemma {:induction false} DotAffine(g: seq<real>, w: seq<real>, xs: seq<real>, u: real, v: real)
    requires |g| == |w| && IsAffine(w, xs, u, v)
    ensures Dot(g, w) == u * Sum(g) + v * Dot(g, xs)
  {
    if g != [] {
      AffineTail(w, xs, u, v);
      DotAffine(g[1..], w[1..], xs[1..], u, v);
      AffineStep(g[0], xs[0], u, v, Sum(g[1..]), Dot(g[1..], xs[1..]));
    }
  }

  lemma SumStep(y: real, x: real, u: real, v: real, sumY: real, sumX: real, n: real)
    ensures (y - (u + v * x)) + (sumY - n * u - v * sumX) == (y + sumY) - (1.0 + n) * u - v * (x + sumX)
  {
  }

  /** The sum of `y - (u + v * x)`. */
  lemma {:induction false} SumOfGaps(g: seq<real>, w: seq<real>, xs: seq<real>, ys: seq<real>, u: real, v: real)
    requires IsCombination(g, ys, w, 1.0) && IsAffine(w, xs, u, v)
    ensures Sum(g) == Sum(ys) - |xs| as real * u - v * Sum(xs)
  {
    if g != [] {
      AffineTail(w, xs, u, v);
      CombinationTail(g, ys, w, 1.0);
      SumOfGaps(g[1..], w[1..], xs[1..], ys[1..], u, v);
      SumStep(ys[0], xs[0], u, v, Sum(ys[1..]), Sum(xs[1..]), |xs[1..]| as real);
    }
  }

  /** What meets both normal equations is orthogonal to every affine image of x. */
  lemma Orthogonal(g: seq<real>, w: seq<real>, xs: seq<real>, u: real, v: real)
    requires |g| == |xs| && IsAffine(w, xs, u, v) && Sum(g) == 0.0 && Dot(g, xs) == 0.0
    ensures Dot(g, w) == 0.0
  {
    DotAffine(g, w, xs, u, v);
  }

  /** Gaps that meet the normal equations are the shortest: any other line adds a square. */
  lemma AddingASquare(g: seq<real>, other: seq<real>, w: seq<real>, xs: seq<real>, u: real, v: real)
    requires IsCombination(other, g, w, 1.0) && IsAffine(w, xs, u, v)
    requires Sum(g) == 0.0 && Dot(g, xs) == 0.0
    ensures Dot(other, other) == Dot(g, g) + Dot(w, w)
  {
    Orthogonal(g, w, xs, u, v);
    DotLinear(other, g, w, 1.0, other);
    DotCommutes(g, other);
    DotLinear(other, g, w, 1.0, g);
    DotCommutes(w, other);
    DotLinear(other, g, w, 1.0, w);
    DotCommutes(w, g);
  }

  // ------------------------------------------------------------ the gaps of a line

  /** The values of a line at the points. */
  function Heights(xs: seq<real>, c: real, m: real): (h: seq<real>)
    ensures |h| == |xs|
  {
    seq(|xs|, i requires 0 <= i < |xs| => c + m * xs[i])
  }

  lemma GapsAre(xs: seq<real>, ys: seq<real>, c: real, m: real)
    requires |xs| == |ys|
    ensures IsAffine(Heights(xs, c, m), xs, c, m)
    ensures IsCombination(Gaps(xs, ys, c, m), ys, Heights(xs, c, m), 1.0)
  {
  }

  lemma GapDifference(x: real, y: real, c: real, m: real, c': real, m': real)
    ensures y - (c' + m' * x) == (y - (c + m * x)) - ((c' - c) + (m' - m) * x)
  {
  }

  /** The gaps of two lines differ by an affine image of x. */
  lemma OtherGaps(xs: seq<real>, ys: seq<real>, c: real, m: real, c': real, m': real)
    requires |xs| == |ys|
    ensures IsCombination(Gaps(xs, ys, c', m'), Gaps(xs, ys, c, m), Heights(xs, c' - c, m' - m), 1.0)
  {
    forall i | At(i) && 0 <= i < |xs|
      ensures Gaps(xs, ys, c', m')[i] == Gaps(xs, ys, c, m)[i] - 1.0 * Heights(xs, c' - c, m' - m)[i]
    {
      GapDifference(xs[i], ys[i], c, m, c', m');
    }
  }

  lemma GapFromMeans(x: real, y: real, meanX: real, meanY: real, c: real, m: real)
    requires c == meanY - m * meanX
    ensures y - (c + m * x) == (y - meanY) - m * (x - meanX)
  {
  }

  /** The gaps of a line through the means, in terms of the deviations. */
  lemma GapsFromMeans(xs: seq<real>, ys: seq<real>, meanX: real, meanY: real, c: real, m: real)
    requires |xs| == |ys| && c == meanY - m * meanX
    ensures IsCombination(Gaps(xs, ys, c, m), Deviations(ys, meanY), Deviations(xs, meanX), m)
  {
    forall i | At(i) && 0 <= i < |xs|
      ensures Gaps(xs, ys, c, m)[i] == Deviations(ys, meanY)[i] - m * Deviations(xs, meanX)[i]
    {
      GapFromMeans(xs[i], ys[i], meanX, meanY, c, m);
    }
  }

  lemma DeviationsAre(xs: seq<real>, meanX: real)
    ensures IsAffine(Deviations(xs, meanX), xs, -meanX, 1.0)
  {
  }

  // ------------------------------------------------------------ the normal equations

  lemma InterceptFits(n: real, meanX: real, meanY: real, sumX: real, sumY: real, c: real, m: real)
    requires c == meanY - m * meanX && n * meanX == sumX && n * meanY == sumY
    ensures n * c == sumY - m * sumX
  {
    assert n * c == n * meanY - n * (m * meanX);
    assert n * (m * meanX) == m * (n * meanX);
  }

  lemma MeanTimesCount(v: seq<real>)
    requires v != []
    ensures |v| as real * Mean(v) == Sum(v)
  {
  }

  /** The slope explains all of the covariation; without spread in x there is none. */
  lemma SlopeFits(dx: seq<real>, dy: seq<real>)
    requires |dx| == |dy|
    ensures Dot(dy, dx) == SlopeOf(dx, dy) * Dot(dx, dx)
  {
    DotCommutes(dx, dy);
    if Dot(dx, dx) == 0.0 {
      DotSelf(dx);
      DotZero(dx, dy);
    } else {
      Quotient(Dot(dx, dy), Dot(dx, dx));
    }
  }

  lemma Quotient(a: real, b: real)
    requires b != 0.0
    ensures (a / b) * b == a
  {
  }

  lemma GapsCancel(xs: seq<real>, ys: seq<real>, c: real, m: real)
    requires |xs| == |ys| && |xs| as real * c == Sum(ys) - m * Sum(xs)
    ensures Sum(Gaps(xs, ys, c, m)) == 0.0
  {
    GapsAre(xs, ys, c, m);
    SumOfGaps(Gaps(xs, ys, c, m), Heights(xs, c, m), xs, ys, c, m);
  }

  /** Gaps whose slope explains all covariation with dx, and which cancel out, are orthogonal to x. */
  lemma OrthogonalToX(g: seq<real>, dy: seq<real>, dx: seq<real>, xs: seq<real>, meanX: real, m: real)
    requires IsCombination(g, dy, dx, m) && IsAffine(dx, xs, -meanX, 1.0)
    requires Sum(g) == 0.0 && m == SlopeOf(dx, dy)
    ensures Dot(g, xs) == 0.0
  {
    SlopeFits(dx, dy);
    DotLinear(g, dy, dx, m, dx);
    assert Dot(g, dx) == 0.0;
    DotAffine(g, dx, xs, -meanX, 1.0);
  }

  /** The gaps of a line through both means cancel out. */
  lemma CenteredCancels(xs: seq<real>, ys: seq<real>, m: real)
    requires |xs| == |ys| && xs != []
    ensures Sum(Gaps(xs, ys, InterceptOf(xs, ys, m), m)) == 0.0
  {
    MeanTimesCount(xs);
    MeanTimesCount(ys);
    InterceptFits(|xs| as real, Mean(xs), Mean(ys), Sum(xs), Sum(ys), InterceptOf(xs, ys, m), m);
    GapsCancel(xs, ys, InterceptOf(xs, ys, m), m);
  }

  lemma FitFromMeans(xs: seq<real>, ys: seq<real>)
    requires FitLine(xs, ys).Line?
    ensures FitLine(xs, ys).slope == SlopeOf(Deviations(xs, Mean(xs)), Deviations(ys, Mean(ys)))
    ensures IsCombination(FitGaps(xs, ys), Deviations(ys, Mean(ys)), Deviations(xs, Mean(xs)), FitLine(xs, ys).slope)
  {
    GapsFromMeans(xs, ys, Mean(xs), Mean(ys), FitLine(xs, ys).intercept, FitLine(xs, ys).slope);
  }

  /** The fitted line meets both normal equations: its gaps cancel, and cancel against x. */
  lemma {:induction false} NormalEquations(xs: seq<real>, ys: seq<real>)
    requires FitLine(xs, ys).Line?
    ensures Sum(FitGaps(xs, ys)) == 0.0 && Dot(FitGaps(xs, ys), xs) == 0.0
  {
    CenteredCancels(xs, ys, FitLine(xs, ys).slope);
    FitFromMeans(xs, ys);
    DeviationsAre(xs, Mean(xs));
    OrthogonalToX(FitGaps(xs, ys), Deviations(ys, Mean(ys)), Deviations(xs, Mean(xs)), xs, Mean(xs), FitLine(xs, ys).slope);
  }

  /** The gaps of the fitted line. */
  function FitGaps(xs: seq<real>, ys: seq<real>): (g: seq<real>)
    requires FitLine(xs, ys).Line?
    ensures |g| == |xs|
  {
    Gaps(xs, ys, FitLine(xs, ys).intercept, FitLine(xs, ys).slope)
  }

  // ------------------------------------------------------------ main results

  /** Any other line misses by the square of the distance between the two lines. */
  lemma OtherResidual(xs: seq<real>, ys: seq<real>, c: real, m: real, c': real, m': real)
    requires |xs| == |ys|
    requires Sum(Gaps(xs, ys, c, m)) == 0.0 && Dot(Gaps(xs, ys, c, m), xs) == 0.0
    ensures
      var w := Heights(xs, c' - c, m' - m);
      Residual(xs, ys, c', m') == Residual(xs, ys, c, m) + Dot(w, w)
  {
    var w := Heights(xs, c' - c, m' - m);
    OtherGaps(xs, ys, c, m, c', m');
    GapsAre(xs, ys, c' - c, m' - m);
    AddingASquare(Gaps(xs, ys, c, m), Gaps(xs, ys, c', m'), w, xs, c' - c, m' - m);
  }

  /** No line whatever has a smaller residual sum of squares. */
  lemma FitIsLeast(xs: seq<real>, ys: seq<real>, intercept: real, slope: real)
    requires FitLine(xs, ys).Line?
    ensures Residual(xs, ys, FitLine(xs, ys).intercept, FitLine(xs, ys).slope) <= Residual(xs, ys, intercept, slope)
  {
    var fit := FitLine(xs, ys);
    NormalEquations(xs, ys);
    OtherResidual(xs, ys, fit.intercept, fit.slope, intercept, slope);
    DotSelf(Heights(xs, intercept - fit.intercept, slope - fit.slope));
  }

  lemma TwoZeros(u: real, v: real, x: real, x': real)
    requires u + v * x == 0.0 && u + v * x' == 0.0 && x != x'
    ensures u == 0.0 && v == 0.0
  {
    assert v * (x - x') == 0.0;
  }

  /** A line that is zero at two places is zero. */
  lemma ZeroLine(xs: seq<real>, u: real, v: real, i: nat, j: nat)
    requires i < |xs| && j < |xs| && xs[i] != xs[j] && IsZero(Heights(xs, u, v))
    ensures u == 0.0 && v == 0.0
  {
    assert At(i) && At(j);
    assert Heights(xs, u, v)[i] == 0.0 && Heights(xs, u, v)[j] == 0.0;
    TwoZeros(u, v, xs[i], xs[j]);
  }

  /** When x takes two values, the fitted line is the only best one. */
  lemma FitIsUnique(xs: seq<real>, ys: seq<real>, i: nat, j: nat, intercept: real, slope: real)
    requires FitLine(xs, ys).Line? && i < |xs| && j < |xs| && xs[i] != xs[j]
    requires Residual(xs, ys, intercept, slope) == Residual(xs, ys, FitLine(xs, ys).intercept, FitLine(xs, ys).slope)
    ensures intercept == FitLine(xs, ys).intercept && slope == FitLine(xs, ys).slope
  {
    var c, m := FitLine(xs, ys).intercept, FitLine(xs, ys).slope;
    NormalEquations(xs, ys);
    OtherResidual(xs, ys, c, m, intercept, slope);
    DotSelf(Heights(xs, intercept - c, slope - m));
    ZeroLine(xs, intercept - c, slope - m, i, j);
  }

  lemma {:induction false} SumOfConstant(v: seq<real>, c: real)
    requires forall i :: 0 <= i < |v| ==> v[i] == c
    ensures Sum(v) == |v| as real * c
  {
    if v != [] {
      SumOfConstant(v[1..], c);
    }
  }

  /** When x is constant, the fitted line is level and runs through the mean of y. */
  lemma ConstantXIsLevel(xs: seq<real>, ys: seq<real>)
    requires FitLine(xs, ys).Line? && forall i :: 0 <= i < |xs| ==> xs[i] == xs[0]
    ensures FitLine(xs, ys).slope == 0.0 && FitLine(xs, ys).intercept == Mean(ys)
  {
    SumOfConstant(xs, xs[0]);
    MeanTimesCount(xs);
    MeanIs(|xs| as real, Mean(xs), xs[0]);
    var dx := Deviations(xs, Mean(xs));
    DotZero(dx, dx);
  }

  lemma MeanIs(n: real, mean: real, c: real)
    requires n > 0.0 && n * mean == n * c
    ensures mean == c
  {
    assert n * (mean - c) == 0.0;
  }

  lemma Fraction(part: real, whole: real)
    requires 0.0 <= part <= whole && whole != 0.0
    ensures 0.0 <= part / whole <= 1.0
    ensures part / whole == 0.0 <==> part == 0.0
  {
    Quotient(part, whole);
  }

  /** The total is the residual of the level line through the mean, so it bounds the fit's own. */
  lemma TotalBounds(xs: seq<real>, ys: seq<real>)
    requires FitLine(xs, ys).Line?
    ensures
      var g, dy := FitGaps(xs, ys), Deviations(ys, Mean(ys));
      0.0 <= Dot(g, g) <= Dot(dy, dy)
  {
    assert Gaps(xs, ys, Mean(ys), 0.0) == Deviations(ys, Mean(ys));
    FitIsLeast(xs, ys, Mean(ys), 0.0);
    DotSelf(FitGaps(xs, ys));
  }

  lemma DeterminationOf(residual: real, total: real, r2: real)
    requires 0.0 <= residual <= total
    requires r2 == if total != 0.0 then 1.0 - residual / total else 1.0
    ensures 0.0 <= r2 <= 1.0 && (r2 == 1.0 <==> residual == 0.0)
  {
    if total != 0.0 {
      Fraction(residual, total);
    }
  }

  /** The coefficient of determination lies between 0 and 1, and is 1 exactly when the fitted line
      runs through every point. */
  lemma DeterminationInRange(xs: seq<real>, ys: seq<real>)
    requires FitLine(xs, ys).Line?
    ensures 0.0 <= FitLine(xs, ys).r2 <= 1.0
    ensures FitLine(xs, ys).r2 == 1.0 <==> IsZero(FitGaps(xs, ys))
  {
    var g, dy := FitGaps(xs, ys), Deviations(ys, Mean(ys));
    TotalBounds(xs, ys);
    DeterminationOf(Dot(g, g), Dot(dy, dy), FitLine(xs, ys).r2);
    DotSelf(g);
    if IsZero(g) {
      DotZero(g, g);
    }
  }

  lemma Unexplained(residual: real, total: real)
    requires total != 0.0
    ensures (1.0 - residual / total) * total == total - residual
  {
    Quotient(residual, total);
    assert (1.0 - residual / total) * total == total - (residual / total) * total;
  }

  /** `r2` is the part of the total that is not residual; of nothing it is all. */
  ghost predicate Explains(residual: real, total: real, r2: real) {
    r2 * total == total - residual && (total == 0.0 ==> r2 == 1.0)
  }

  lemma Explained(residual: real, total: real, r2: real)
    requires r2 == if total != 0.0 then 1.0 - residual / total else 1.0
    requires total == 0.0 ==> residual == 0.0
    ensures Explains(residual, total, r2)
  {
    if total != 0.0 {
      Unexplained(residual, total);
    }
  }

  lemma LevelGap(x: real, y: real, m: real)
    ensures y - (m + 0.0 * x) == y - m
  {
  }

  /** The residual of a level line. */
  lemma LevelResidual(xs: seq<real>, ys: seq<real>, m: real)
    requires |xs| == |ys|
    ensures Residual(xs, ys, m, 0.0) == Dot(Deviations(ys, m), Deviations(ys, m))
  {
    var gaps, dy := Gaps(xs, ys, m, 0.0), Deviations(ys, m);
    forall i | 0 <= i < |xs| ensures gaps[i] == dy[i] {
      LevelGap(xs[i], ys[i], m);
    }
    assert gaps == dy;
  }

  lemma FitExplains(xs: seq<real>, ys: seq<real>) returns (residual: real, total: real)
    requires FitLine(xs, ys).Line?
    ensures residual == Residual(xs, ys, FitLine(xs, ys).intercept, FitLine(xs, ys).slope)
    ensures total == Residual(xs, ys, Sum(ys) / |ys| as real, 0.0)
    ensures Explains(residual, total, FitLine(xs, ys).r2)
  {
    TotalBounds(xs, ys);
    LevelResidual(xs, ys, Mean(ys));
    residual := Residual(xs, ys, FitLine(xs, ys).intercept, FitLine(xs, ys).slope);
    total := Dot(Deviations(ys, Mean(ys)), Deviations(ys, Mean(ys)));
    Explained(residual, total, FitLine(xs, ys).r2);
  }

  /** Samples are rejected exactly when there are none or their numbers differ; r2 is the part of the
      residual of the level line through the mean that the fitted line takes away, and is 1 when
      there is nothing to take away. */
  lemma DeterminationExactly(xs: seq<real>, ys: seq<real>)
    ensures FitLine(xs, ys) == Rejected <==> |xs| == 0 || |xs| != |ys|
    ensures FitLine(xs, ys).Line? ==>
      var fit := FitLine(xs, ys);
      Explains(Residual(xs, ys, fit.intercept, fit.slope), Residual(xs, ys, Sum(ys) / |ys| as real, 0.0), fit.r2)
  {
    if FitLine(xs, ys).Line? {
      var residual, total := FitExplains(xs, ys);
    }
  }
}
