/** Regressing a share's single-session returns on an index's returns over the
    same sessions, and what the slope and the correlation are worth.

    Exact reals; the square root of the correlation is left to its square. */
module Regression {
  import opened Reals

  // ---------------------------------------------------------------- sums

  function Mean(xs: seq<real>): real
    requires xs != []
  {
    Sum(xs) / |xs| as real
  }

  function Products(xs: seq<real>, ys: seq<real>, p: real, q: real): (r: seq<real>)
    requires |xs| == |ys|
    ensures |r| == |xs|
  {
    seq(|xs|, i requires 0 <= i < |xs| => (xs[i] - p) * (ys[i] - q))
  }

  /** The sum of products of the deviations from `p` and `q`. */
  function CoSum(xs: seq<real>, ys: seq<real>, p: real, q: real): real
    requires |xs| == |ys|
  {
    Sum(Products(xs, ys, p, q))
  }

  /** How far a point lies above the line y = a + b x. */
  function Off(x: real, y: real, a: real, b: real): real { y - a - b * x }

  function Errors(xs: seq<real>, ys: seq<real>, a: real, b: real): (r: seq<real>)
    requires |xs| == |ys|
    ensures |r| == |xs|
  {
    seq(|xs|, i requires 0 <= i < |xs| => Square(Off(xs[i], ys[i], a, b)))
  }

  /** The squared error of the line y = a + b x. */
  function SquaredError(xs: seq<real>, ys: seq<real>, a: real, b: real): real
    requires |xs| == |ys|
  {
    Sum(Errors(xs, ys, a, b))
  }

  function Square(x: real): real { x * x }

  lemma SignOfSquare(x: real)
    ensures Square(x) >= 0.0 && (Square(x) == 0.0 <==> x == 0.0)
  {
    if x < 0.0 {
      assert Square(x) == (-x) * (-x);
      PositiveProduct(-x, -x, Square(x));
    } else if x > 0.0 {
      PositiveProduct(x, x, Square(x));
    } else {
      assert Square(0.0) == 0.0;
    }
  }

  lemma {:induction false} DeviationsFromMean(xs: seq<real>, p: real)
    ensures Sum(Deviations(xs, p)) == Sum(xs) - |xs| as real * p
  {
    if xs != [] {
      var front := xs[..|xs|-1];
      DeviationsFromMean(front, p);
      assert Deviations(xs, p)[..|xs|-1] == Deviations(front, p);
      assert |xs| as real * p == |front| as real * p + p;
    }
  }

  function Deviations(xs: seq<real>, p: real): (d: seq<real>)
    ensures |d| == |xs|
  {
    seq(|xs|, i requires 0 <= i < |xs| => xs[i] - p)
  }

  // ---------------------------------------------------------------- the error of every line

  /** A combination of five quantities and a constant. */
  function Combine(j: real, k: real, l: real, m: real, o: real, n: real, vv: real, uv: real, uu: real, v: real,
                   u: real): real
  {
    vv + j * uv + k * uu + l * v + m * u + n * o
  }

  lemma CombineAdds(j: real, k: real, l: real, m: real, o: real, n: real, n': real,
                    vv: real, uv: real, uu: real, v: real, u: real, vv': real, uv': real, uu': real, v': real, u': real)
    ensures Combine(j, k, l, m, o, n, vv, uv, uu, v, u) + Combine(j, k, l, m, o, n', vv', uv', uu', v', u')
         == Combine(j, k, l, m, o, n + n', vv + vv', uv + uv', uu + uu', v + v', u + u')
  {
    Distribute(j, uv, uv');
    Distribute(k, uu, uu');
    Distribute(l, v, v');
    Distribute(m, u, u');
    Distribute(o, n, n');
  }

  /** A sum of combinations is the combination of the sums. */
  lemma {:induction false} SumOfCombinations(e: seq<real>, vv: seq<real>, uv: seq<real>, uu: seq<real>, v: seq<real>,
                                             u: seq<real>,
                                             j: real, k: real, l: real, m: real, o: real)
    requires |e| == |vv| == |uv| == |uu| == |v| == |u|
    requires forall i :: 0 <= i < |e| ==> e[i] == Combine(j, k, l, m, o, 1.0, vv[i], uv[i], uu[i], v[i], u[i])
    ensures Sum(e) == Combine(j, k, l, m, o, |e| as real, Sum(vv), Sum(uv), Sum(uu), Sum(v), Sum(u))
  {
    if e != [] {
      var n := |e| - 1;
      SumOfCombinations(e[..n], vv[..n], uv[..n], uu[..n], v[..n], u[..n], j, k, l, m, o);
      CombineAdds(j, k, l, m, o, n as real, 1.0, Sum(vv[..n]), Sum(uv[..n]), Sum(uu[..n]), Sum(v[..n]), Sum(u[..n]),
                  vv[n], uv[n], uu[n], v[n], u[n]);
    }
  }

  /** The coefficients of a line's error: slope `b`, offset `c` at the centre. */
  predicate Coefficients(b: real, c: real, j: real, k: real, l: real, m: real, o: real) {
    j == -2.0 * b && k == b * b && l == 2.0 * c && m == -2.0 * (b * c) && o == c * c
  }

  /** Around any centre (p, q), the error of a line is a quadratic in its slope and
      its offset there. */
  lemma ErrorAround(xs: seq<real>, ys: seq<real>, a: real, b: real, p: real, q: real, j: real, k: real, l: real,
                    m: real, o: real)
    requires |xs| == |ys| && Coefficients(b, Off(p, q, a, b), j, k, l, m, o)
    ensures SquaredError(xs, ys, a, b)
         == Combine(j, k, l, m, o, |xs| as real, CoSum(ys, ys, q, q), CoSum(xs, ys, p, q), CoSum(xs, xs, p, p),
                    Sum(Deviations(ys, q)), Sum(Deviations(xs, p)))
  {
    hide Coefficients, Combine;
    var e, vv, uv, uu := Errors(xs, ys, a, b), Products(ys, ys, q, q), Products(xs, ys, p, q), Products(xs, xs, p, p);
    var v, u := Deviations(ys, q), Deviations(xs, p);
    forall i | 0 <= i < |e| ensures e[i] == Combine(j, k, l, m, o, 1.0, vv[i], uv[i], uu[i], v[i], u[i]) {
      ErrorAt(xs, ys, a, b, p, q, j, k, l, m, o, i);
    }
    SumOfCombinations(e, vv, uv, uu, v, u, j, k, l, m, o);
  }

  lemma ErrorAt(xs: seq<real>, ys: seq<real>, a: real, b: real, p: real, q: real, j: real, k: real, l: real,
                m: real, o: real, i: nat)
    requires |xs| == |ys| && i < |xs| && Coefficients(b, Off(p, q, a, b), j, k, l, m, o)
    ensures Errors(xs, ys, a, b)[i]
         == Combine(j, k, l, m, o, 1.0, Products(ys, ys, q, q)[i], Products(xs, ys, p, q)[i],
                    Products(xs, xs, p, p)[i], Deviations(ys, q)[i], Deviations(xs, p)[i])
  {
    hide Coefficients, Square, Off;
    PointError(xs[i], ys[i], a, b, p, q, j, k, l, m, o);
  }

  lemma PointError(x: real, y: real, a: real, b: real, p: real, q: real, j: real, k: real, l: real, m: real, o: real)
    requires Coefficients(b, Off(p, q, a, b), j, k, l, m, o)
    ensures Square(Off(x, y, a, b))
         == Combine(j, k, l, m, o, 1.0, (y - q) * (y - q), (x - p) * (y - q), (x - p) * (x - p), y - q, x - p)
  {
    Distribute(b, x - p, p);
    assert Off(x, y, a, b) == (y - q) - b * (x - p) + Off(p, q, a, b);
    OneResidual(b, Off(p, q, a, b), y - q, x - p, j, k, l, m, o);
  }

  lemma OneResidual(b: real, c: real, v: real, u: real, j: real, k: real, l: real, m: real, o: real)
    requires Coefficients(b, c, j, k, l, m, o)
    ensures Square(v - b * u + c) == Combine(j, k, l, m, o, 1.0, v * v, u * v, u * u, v, u)
  {
    var w := b * u;
    Expand(v, w, c);
    assert w * w == (b * b) * (u * u) && v * w == b * (u * v) && c * w == (b * c) * u;
  }

  lemma Expand(v: real, w: real, c: real)
    ensures Square(v - w + c) == v * v - 2.0 * (v * w) + w * w + 2.0 * (c * v) - 2.0 * (c * w) + c * c
  {}

  /** `p` is where the deviations cancel. */
  predicate Centred(xs: seq<real>, p: real) { Sum(Deviations(xs, p)) == 0.0 }

  /** The mean is the only such centre. */
  lemma CentredAtMean(xs: seq<real>, p: real)
    requires xs != []
    ensures Centred(xs, p) <==> p == Mean(xs)
  {
    DeviationsFromMean(xs, p);
    Division(Sum(xs), |xs| as real, p);
  }

  lemma Division(x: real, n: real, p: real)
    requires n > 0.0
    ensures x - n * p == 0.0 <==> p == x / n
  {
    assert n * (x / n) == x;
    if x == n * p { assert x / n == p; }
  }

  function SlopeError(off: real, uu: real): real { Square(off) * uu }

  function OffsetError(n: nat, offset: real): real { n as real * Square(offset) }

  /** Through the means, the error of every line: the spread it cannot explain, plus
      what its slope and its offset are wrong by. */
  lemma ErrorOfLine(xs: seq<real>, ys: seq<real>, p: real, q: real, a: real, b: real)
    requires |xs| == |ys| && Centred(xs, p) && Centred(ys, q)
    ensures SquaredError(xs, ys, a, b)
         == LineError(b, CoSum(ys, ys, q, q), CoSum(xs, ys, p, q), CoSum(xs, xs, p, p))
           + OffsetError(|xs|, Off(p, q, a, b))
  {
    var j, k, l, m, o := CoefficientsOf(b, Off(p, q, a, b));
    ErrorAround(xs, ys, a, b, p, q, j, k, l, m, o);
    AtCentre(SquaredError(xs, ys, a, b), b, Off(p, q, a, b), j, k, l, m, o, |xs|,
             CoSum(ys, ys, q, q), CoSum(xs, ys, p, q), CoSum(xs, xs, p, p), Sum(Deviations(ys, q)),
               Sum(Deviations(xs, p)));
  }

  /** The error of a line with slope `b` through both means. */
  function LineError(b: real, vv: real, uv: real, uu: real): real { vv - 2.0 * (b * uv) + (b * b) * uu }

  lemma CoefficientsOf(b: real, c: real) returns (j: real, k: real, l: real, m: real, o: real)
    ensures Coefficients(b, c, j, k, l, m, o)
  {
    j, k, l, m, o := -2.0 * b, b * b, 2.0 * c, -2.0 * (b * c), c * c;
  }

  lemma AtCentre(e: real, b: real, c: real, j: real, k: real, l: real, m: real, o: real, n: nat, vv: real, uv: real,
                 uu: real,
                 v: real, u: real)
    requires Coefficients(b, c, j, k, l, m, o) && e == Combine(j, k, l, m, o, n as real, vv, uv, uu, v, u)
        && v == u == 0.0
    ensures e == LineError(b, vv, uv, uu) + OffsetError(n, c)
  {
    assert j * uv == -2.0 * (b * uv);
  }

  lemma {:induction false} SumIsNonNegative(xs: seq<real>)
    requires forall i :: 0 <= i < |xs| ==> xs[i] >= 0.0
    ensures Sum(xs) >= 0.0
    ensures Sum(xs) == 0.0 ==> forall i :: 0 <= i < |xs| ==> xs[i] == 0.0
  {
    if xs != [] { SumIsNonNegative(xs[..|xs|-1]); }
  }

  lemma ErrorIsNonNegative(xs: seq<real>, ys: seq<real>, a: real, b: real)
    requires |xs| == |ys|
    ensures SquaredError(xs, ys, a, b) >= 0.0
  {
    forall i | 0 <= i < |xs| ensures Errors(xs, ys, a, b)[i] >= 0.0 {
      SignOfSquare(Off(xs[i], ys[i], a, b));
    }
    SumIsNonNegative(Errors(xs, ys, a, b));
  }

  lemma SpreadIsNonNegative(xs: seq<real>, p: real)
    ensures CoSum(xs, xs, p, p) >= 0.0
    ensures CoSum(xs, xs, p, p) == 0.0 ==> forall i :: 0 <= i < |xs| ==> xs[i] == p
  {
    forall i | 0 <= i < |xs|
      ensures Products(xs, xs, p, p)[i] >= 0.0 && (Products(xs, xs, p, p)[i] == 0.0 ==> xs[i] == p)
    {
      SignOfSquare(xs[i] - p);
    }
    SumIsNonNegative(Products(xs, xs, p, p));
  }

  /** The error left when the slope is off by `b - slope`. */
  lemma CompleteSquare(uu: real, uv: real, b: real, slope: real)
    requires slope * uu == uv
    ensures (b * b) * uu - 2.0 * (b * uv) == Square(b - slope) * uu - slope * uv
  {
    assert Square(b - slope) == b * b - 2.0 * (b * slope) + slope * slope;
    var bs, ss := b * slope, slope * slope;
    assert bs * uu == b * uv && ss * uu == slope * uv;
  }

  /** The slope is the covariance over the variance. */
  predicate IsLeastSquares(xs: seq<real>, ys: seq<real>, p: real, q: real, slope: real)
    requires |xs| == |ys|
  {
    slope * CoSum(xs, xs, p, p) == CoSum(xs, ys, p, q)
  }

  /** The spread the best line leaves unexplained. */
  function LeastError(xs: seq<real>, ys: seq<real>, p: real, q: real, slope: real): real
    requires |xs| == |ys|
  {
    CoSum(ys, ys, q, q) - slope * CoSum(xs, ys, p, q)
  }

  lemma ErrorAgainstBest(xs: seq<real>, ys: seq<real>, p: real, q: real, slope: real, a: real, b: real)
    requires |xs| == |ys| && Centred(xs, p) && Centred(ys, q) && IsLeastSquares(xs, ys, p, q, slope)
    ensures SquaredError(xs, ys, a, b)
         == LeastError(xs, ys, p, q, slope) + SlopeError(b - slope, CoSum(xs, xs, p, p))
           + OffsetError(|xs|, Off(p, q, a, b))
  {
    hide CoSum;
    ErrorOfLine(xs, ys, p, q, a, b);
    CompleteError(SquaredError(xs, ys, a, b), CoSum(ys, ys, q, q), CoSum(xs, ys, p, q), CoSum(xs, xs, p, p),
                  OffsetError(|xs|, Off(p, q, a, b)), b, slope);
  }

  lemma CompleteError(e: real, vv: real, uv: real, uu: real, rest: real, b: real, slope: real)
    requires slope * uu == uv && e == LineError(b, vv, uv, uu) + rest
    ensures e == vv - slope * uv + SlopeError(b - slope, uu) + rest
  {
    CompleteSquare(uu, uv, b, slope);
  }

  lemma ErrorOfBest(xs: seq<real>, ys: seq<real>, p: real, q: real, slope: real, intercept: real)
    requires |xs| == |ys| && Centred(xs, p) && Centred(ys, q) && IsLeastSquares(xs, ys, p, q, slope)
    requires Off(p, q, intercept, slope) == 0.0
    ensures SquaredError(xs, ys, intercept, slope) == LeastError(xs, ys, p, q, slope)
  {
    ErrorAgainstBest(xs, ys, p, q, slope, intercept, slope);
    assert SlopeError(0.0, CoSum(xs, xs, p, p)) == 0.0 && OffsetError(|xs|, 0.0) == 0.0;
  }

  lemma NonNegativeParts(x: real, k: real, n: nat, y: real)
    requires k > 0.0 && n > 0
    ensures SlopeError(x, k) + OffsetError(n, y) >= 0.0
    ensures SlopeError(x, k) + OffsetError(n, y) == 0.0 <==> x == 0.0 && y == 0.0
  {
    SignOfSquare(x);
    SignOfSquare(y);
    ScaledSign(k, Square(x), SlopeError(x, k));
    ScaledSign(n as real, Square(y), OffsetError(n, y));
  }

  lemma ScaledSign(k: real, s: real, product: real)
    requires k > 0.0 && s >= 0.0 && product == s * k
    ensures product >= 0.0 && (product == 0.0 <==> s == 0.0)
  {
    if s > 0.0 { PositiveProduct(s, k, product); }
  }

  /** No line has a smaller squared error than the one through the means with this
      slope, and no other line has the same one. */
  lemma SlopeMinimisesError(xs: seq<real>, ys: seq<real>, p: real, q: real, slope: real, intercept: real, a: real,
                            b: real)
    requires |xs| == |ys| > 0 && Centred(xs, p) && Centred(ys, q)
    requires CoSum(xs, xs, p, p) > 0.0 && IsLeastSquares(xs, ys, p, q, slope) && Off(p, q, intercept, slope) == 0.0
    ensures SquaredError(xs, ys, intercept, slope) <= SquaredError(xs, ys, a, b)
    ensures SquaredError(xs, ys, intercept, slope) == SquaredError(xs, ys, a, b) <==> a == intercept && b == slope
  {
    hide CoSum;
    ErrorOfBest(xs, ys, p, q, slope, intercept);
    ErrorAgainstBest(xs, ys, p, q, slope, a, b);
    NonNegativeParts(b - slope, CoSum(xs, xs, p, p), |xs|, Off(p, q, a, b));
    assert b == slope ==> Off(p, q, a, b) == intercept - a;
  }

  datatype Moments = Moments(xy: real, xx: real, yy: real)

  predicate Bounded(m: Moments) { m.xy * m.xy <= m.xx * m.yy }

  /** The square of the correlation is at most one. */
  lemma CorrelationIsBounded(xs: seq<real>, ys: seq<real>, p: real, q: real)
    requires |xs| == |ys| && Centred(xs, p) && Centred(ys, q)
    ensures Bounded(Moments(CoSum(xs, ys, p, q), CoSum(xs, xs, p, p), CoSum(ys, ys, q, q)))
  {
    hide CoSum;
    var uu, vv, uv := CoSum(xs, xs, p, p), CoSum(ys, ys, q, q), CoSum(xs, ys, p, q);
    SpreadIsNonNegative(xs, p);
    if uu == 0.0 {
      NoSpreadNoCovariance(xs, ys, p, q);
      assert uv * uv == 0.0 && uu * vv == 0.0;
    } else {
      var slope := uv / uu;
      TimesDivisor(uv, uu);
      var intercept := q - slope * p;
      ErrorOfBest(xs, ys, p, q, slope, intercept);
      ErrorIsNonNegative(xs, ys, intercept, slope);
      BoundFromError(uu, vv, uv, slope);
    }
  }

  lemma BoundFromError(uu: real, vv: real, uv: real, slope: real)
    requires uu > 0.0 && slope * uu == uv && vv - slope * uv >= 0.0
    ensures uv * uv <= uu * vv
  {
    assert uu * (vv - slope * uv) >= 0.0;
    assert uu * (slope * uv) == uv * uv;
  }

  lemma NoSpreadNoCovariance(xs: seq<real>, ys: seq<real>, p: real, q: real)
    requires |xs| == |ys| && CoSum(xs, xs, p, p) == 0.0
    ensures CoSum(xs, ys, p, q) == 0.0
  {
    SpreadIsNonNegative(xs, p);
    SumOfZeros(Products(xs, ys, p, q));
  }

  lemma {:induction false} SumOfZeros(xs: seq<real>)
    requires forall i :: 0 <= i < |xs| ==> xs[i] == 0.0
    ensures Sum(xs) == 0.0
  {
    if xs != [] { SumOfZeros(xs[..|xs|-1]); }
  }

  // ---------------------------------------------------------------- the loops

  method Average(xs: seq<real>) returns (mean: real)
    requires xs != []
    ensures Centred(xs, mean)
  {
    var sum := 0.0;
    for i := 0 to |xs|
      invariant sum == Sum(xs[..i])
    {
      SumGrows(xs, i);
      sum := sum + xs[i];
    }
    assert xs[..|xs|] == xs;
    mean := sum / |xs| as real;
    CentredAtMean(xs, mean);
  }

  lemma SumGrows(xs: seq<real>, i: nat)
    requires i < |xs|
    ensures Sum(xs[..i+1]) == Sum(xs[..i]) + xs[i]
  {
    assert xs[..i+1][..i] == xs[..i];
  }

  lemma ProductAt(xs: seq<real>, ys: seq<real>, p: real, q: real, i: nat, d: real, e: real)
    requires i < |xs| == |ys| && d == xs[i] - p && e == ys[i] - q
    ensures Products(xs, ys, p, q)[i] == d * e
  {}

  /** The three sums of one pass. */
  method Accumulate(a: seq<real>, b: seq<real>, ma: real, mb: real) returns (m: Moments)
    requires |a| == |b|
    ensures m == Moments(CoSum(a, b, ma, mb), CoSum(a, a, ma, ma), CoSum(b, b, mb, mb))
  {
    ghost var pab, paa, pbb := Products(a, b, ma, mb), Products(a, a, ma, ma), Products(b, b, mb, mb);
    var ab, aa, bb := 0.0, 0.0, 0.0;
    for i := 0 to |a|
      invariant ab == Sum(pab[..i]) && aa == Sum(paa[..i]) && bb == Sum(pbb[..i])
    {
      SumGrows(pab, i);
      SumGrows(paa, i);
      SumGrows(pbb, i);
      var da, db := a[i] - ma, b[i] - mb;
      ProductAt(a, b, ma, mb, i, da, db);
      ProductAt(a, a, ma, ma, i, da, da);
      ProductAt(b, b, mb, mb, i, db, db);
      ab := ab + da * db;
      aa := aa + da * da;
      bb := bb + db * db;
    }
    assert pab[..|a|] == pab && paa[..|a|] == paa && pbb[..|a|] == pbb;
    m := Moments(ab, aa, bb);
  }

  /** The values are not all the same. */
  predicate Spread(xs: seq<real>) { exists i, j :: 0 <= i < j < |xs| && xs[i] != xs[j] }

  lemma SpreadExactly(xs: seq<real>, p: real)
    requires xs != [] && Centred(xs, p)
    ensures CoSum(xs, xs, p, p) >= 0.0
    ensures CoSum(xs, xs, p, p) == 0.0 <==> !Spread(xs)
  {
    SpreadIsNonNegative(xs, p);
    if !Spread(xs) {
      forall i | 0 <= i < |xs| ensures xs[i] == xs[0] {}
      AllSame(xs, xs[0]);
      CentredAtMean(xs, xs[0]);
      CentredAtMean(xs, p);
      NoProducts(xs, p);
    }
  }

  lemma NoProducts(xs: seq<real>, x: real)
    requires forall i :: 0 <= i < |xs| ==> xs[i] == x
    ensures CoSum(xs, xs, x, x) == 0.0
  {
    forall i | 0 <= i < |xs| ensures Products(xs, xs, x, x)[i] == 0.0 {
      ProductAt(xs, xs, x, x, i, 0.0, 0.0);
    }
    SumOfZeros(Products(xs, xs, x, x));
  }

  lemma AllSame(xs: seq<real>, x: real)
    requires forall i :: 0 <= i < |xs| ==> xs[i] == x
    ensures Centred(xs, x)
  {
    SumOfZeros(Deviations(xs, x));
  }

  /** The three sums the correlation is made of: nothing below three samples or
      without spread on either side, and never a correlation beyond one. */
  method Pearson(a: seq<real>, b: seq<real>) returns (m: Moments, defined: bool)
    ensures defined <==> (|a| == |b| >= 3 && Spread(a) && Spread(b))
    ensures defined ==> AreMoments(a, b, m)
    ensures defined ==> m.xx > 0.0 && m.yy > 0.0 && Bounded(m)
  {
    m, defined := Moments(0.0, 0.0, 0.0), false;
    if |a| != |b| || |a| < 3 { return; }
    var ma := Average(a);
    var mb := Average(b);
    m := Accumulate(a, b, ma, mb);
    SpreadExactly(a, ma);
    SpreadExactly(b, mb);
    if m.xx == 0.0 || m.yy == 0.0 { return; }
    MomentsAreBounded(a, b, m, ma, mb);
    defined := true;
  }

  lemma MomentsAreBounded(a: seq<real>, b: seq<real>, m: Moments, p: real, q: real)
    requires |a| == |b| && AreMomentsAt(a, b, m, p, q)
    ensures AreMoments(a, b, m) && Bounded(m)
  {
    CorrelationIsBounded(a, b, p, q);
  }

  predicate AreMomentsAt(a: seq<real>, b: seq<real>, m: Moments, p: real, q: real)
    requires |a| == |b|
  {
    Centred(a, p) && Centred(b, q) && m == Moments(CoSum(a, b, p, q), CoSum(a, a, p, p), CoSum(b, b, q, q))
  }

  /** The sums are taken around the two means. */
  ghost predicate AreMoments(a: seq<real>, b: seq<real>, m: Moments)
    requires |a| == |b|
  {
    exists p, q :: AreMomentsAt(a, b, m, p, q)
  }

  /** No line y = intercept + slope x does better, and no other does as well. */
  ghost predicate IsBestSlope(xs: seq<real>, ys: seq<real>, slope: real)
    requires |xs| == |ys| > 0
  {
    exists intercept :: IsBestLine(xs, ys, intercept, slope)
  }

  ghost predicate IsBestLine(xs: seq<real>, ys: seq<real>, intercept: real, slope: real)
    requires |xs| == |ys|
  {
    forall a, b :: a != intercept || b != slope ==> SquaredError(xs, ys, intercept, slope) < SquaredError(xs, ys, a, b)
  }

  lemma LeastSquaresIsBest(xs: seq<real>, ys: seq<real>, p: real, q: real, slope: real)
    requires |xs| == |ys| > 0 && Centred(xs, p) && Centred(ys, q)
    requires CoSum(xs, xs, p, p) > 0.0 && IsLeastSquares(xs, ys, p, q, slope)
    ensures IsBestSlope(xs, ys, slope)
  {
    var intercept := q - slope * p;
    assert Off(p, q, intercept, slope) == 0.0;
    forall a, b | a != intercept || b != slope
      ensures SquaredError(xs, ys, intercept, slope) < SquaredError(xs, ys, a, b)
    {
      SlopeMinimisesError(xs, ys, p, q, slope, intercept, a, b);
    }
    assert IsBestLine(xs, ys, intercept, slope);
  }

  /** Every value of the second sample is k times the first sample's. */
  ghost predicate Proportional(rm: seq<real>, rs: seq<real>, k: real) {
    |rm| == |rs| && forall j :: 0 <= j < |rs| ==> rs[j] == k * rm[j]
  }

  /** A share that moves by k times the index's move has beta k. */
  lemma ProportionalSlope(rm: seq<real>, rs: seq<real>, slope: real, k: real)
    requires |rm| == |rs| > 0 && IsBestSlope(rm, rs, slope) && Proportional(rm, rs, k)
    ensures slope == k
  {
    var c :| IsBestLine(rm, rs, c, slope);
    assert slope != k ==> SquaredError(rm, rs, c, slope) < SquaredError(rm, rs, 0.0, k);
    NoErrorAtAll(rm, rs, k);
    ErrorIsNonNegative(rm, rs, c, slope);
  }

  lemma NoErrorAtAll(rm: seq<real>, rs: seq<real>, k: real)
    requires Proportional(rm, rs, k)
    ensures SquaredError(rm, rs, 0.0, k) == 0.0
  {
    var e := Errors(rm, rs, 0.0, k);
    forall j | 0 <= j < |e| ensures e[j] == 0.0 { assert Off(rm[j], rs[j], 0.0, k) == 0.0; }
    SumOfZeros(e);
  }

  /** The slope of the second sample on the first, when the first has any spread. */
  method Slope(rm: seq<real>, rs: seq<real>) returns (slope: real, defined: bool)
    requires |rm| == |rs| > 0
    ensures defined <==> Spread(rm)
    ensures defined ==> IsBestSlope(rm, rs, slope)
  {
    var mm := Average(rm);
    var ms := Average(rs);
    var cov, vm := CrossSums(rm, rs, mm, ms);
    SpreadExactly(rm, mm);
    if vm == 0.0 { return 0.0, false; }
    slope, defined := cov / vm, true;
    TimesDivisor(cov, vm);
    LeastSquaresIsBest(rm, rs, mm, ms, slope);
  }

  method CrossSums(rm: seq<real>, rs: seq<real>, mm: real, ms: real) returns (cov: real, vm: real)
    requires |rm| == |rs|
    ensures cov == CoSum(rm, rs, mm, ms) && vm == CoSum(rm, rm, mm, mm)
  {
    ghost var co, own := Products(rm, rs, mm, ms), Products(rm, rm, mm, mm);
    cov, vm := 0.0, 0.0;
    for i := 0 to |rs|
      invariant cov == Sum(co[..i]) && vm == Sum(own[..i])
    {
      SumGrows(co, i);
      SumGrows(own, i);
      var d, e := rs[i] - ms, rm[i] - mm;
      Commute(d, e);
      ProductAt(rm, rs, mm, ms, i, e, d);
      ProductAt(rm, rm, mm, mm, i, e, e);
      cov := cov + d * e;
      vm := vm + e * e;
    }
    assert co[..|rm|] == co && own[..|rm|] == own;
  }

  lemma Commute(x: real, y: real)
    ensures x * y == y * x
  {}

  lemma TimesDivisor(x: real, y: real)
    requires y != 0.0
    ensures x / y * y == x
  {}
}
