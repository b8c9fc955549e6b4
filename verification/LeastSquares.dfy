/** Least-squares line fitting over the reals, as the governor calibrates with it. */
module LeastSquares {
  import opened Arith
  import opened Wrappers

  datatype Point = Point(x: real, y: real)

  datatype Line = Line(intercept: real, slope: real)

  function SumOf(ps: seq<Point>, f: Point -> real): real {
    if ps == [] then 0.0 else SumOf(ps[1..], f) + f(ps[0])
  }

  function One(p: Point): real { 1.0 }

  function X(p: Point): real { p.x }

  function Y(p: Point): real { p.y }

  function XX(p: Point): real { p.x * p.x }

  function XY(p: Point): real { p.x * p.y }

  // The five totals the fit is computed from.
  datatype Sums = Sums(n: real, x: real, y: real, xx: real, xy: real)

  function SumsOf(ps: seq<Point>): Sums {
    Sums(|ps| as real, SumOf(ps, X), SumOf(ps, Y), SumOf(ps, XX), SumOf(ps, XY))
  }

  function Denominator(s: Sums): real {
    s.n * s.xx - s.x * s.x
  }

  function Abs(r: real): real { if r < 0.0 then -r else r }

  function FitOf(s: Sums): Option<Line> {
    if s.n < 2.0 || Abs(Denominator(s)) < EPSILON then None
    else
      var slope := (s.n * s.xy - s.x * s.y) / Denominator(s);
      Some(Line((s.y - slope * s.x) / s.n, slope))
  }

  function LinearFit(ps: seq<Point>): Option<Line> {
    FitOf(SumsOf(ps))
  }

  // ---------- sums ----------

  ghost predicate Combines(
    h: Point -> real, f: Point -> real,
    g1: Point -> real, c1: real, g2: Point -> real, c2: real, g3: Point -> real, c3: real)
  {
    forall p :: h(p) == f(p) + c1 * g1(p) + c2 * g2(p) + c3 * g3(p)
  }

  ghost predicate CombinesTwo(
    h: Point -> real, f: Point -> real, g1: Point -> real, c1: real, g2: Point -> real, c2: real)
  {
    forall p :: h(p) == f(p) + c1 * g1(p) + c2 * g2(p)
  }

  // A pointwise combination of summands is the same combination of the sums.
  lemma {:induction false} SumCombines(
    ps: seq<Point>, h: Point -> real, f: Point -> real,
    g1: Point -> real, c1: real, g2: Point -> real, c2: real, g3: Point -> real, c3: real)
    requires Combines(h, f, g1, c1, g2, c2, g3, c3)
    ensures SumOf(ps, h) == SumOf(ps, f) + c1 * SumOf(ps, g1) + c2 * SumOf(ps, g2) + c3 * SumOf(ps, g3)
  {
    if ps == [] {
    } else {
      var t, p := ps[1..], ps[0];
      SumCombines(t, h, f, g1, c1, g2, c2, g3, c3);
      ScaleSum(c1, SumOf(t, g1), g1(p), SumOf(ps, g1));
      ScaleSum(c2, SumOf(t, g2), g2(p), SumOf(ps, g2));
      ScaleSum(c3, SumOf(t, g3), g3(p), SumOf(ps, g3));
    }
  }

  lemma {:induction false} TwoCombine(
    ps: seq<Point>, h: Point -> real, f: Point -> real, g1: Point -> real, c1: real, g2: Point -> real, c2: real)
    requires CombinesTwo(h, f, g1, c1, g2, c2)
    ensures SumOf(ps, h) == SumOf(ps, f) + c1 * SumOf(ps, g1) + c2 * SumOf(ps, g2)
  {
    if ps == [] {
    } else {
      var t, p := ps[1..], ps[0];
      TwoCombine(t, h, f, g1, c1, g2, c2);
      ScaleSum(c1, SumOf(t, g1), g1(p), SumOf(ps, g1));
      ScaleSum(c2, SumOf(t, g2), g2(p), SumOf(ps, g2));
    }
  }

  lemma {:induction false} ScaleSum(c: real, a: real, b: real, s: real)
    requires s == a + b
    ensures c * s == c * a + c * b
  {
  }

  lemma {:induction false} SumOfOnes(ps: seq<Point>)
    ensures SumOf(ps, One) == |ps| as real
  {
    if ps == [] {
    } else {
      SumOfOnes(ps[1..]);
    }
  }

  lemma {:induction false} SumBounds(ps: seq<Point>, f: Point -> real)
    requires forall p :: f(p) >= 0.0
    ensures SumOf(ps, f) >= 0.0
    ensures forall p | p in ps :: SumOf(ps, f) >= f(p)
  {
    if ps == [] {
    } else {
      SumBounds(ps[1..], f);
      assert ps == [ps[0]] + ps[1..];
    }
  }

  lemma {:induction false} SumOfZeros(ps: seq<Point>, f: Point -> real)
    requires forall p | p in ps :: f(p) == 0.0
    ensures SumOf(ps, f) == 0.0
  {
    if ps == [] {
    } else {
      SumOfZeros(ps[1..], f);
      assert ps[0] in ps;
    }
  }

  lemma {:induction false} PositiveProduct(r: real, t: real, s: real)
    requires r > 0.0 && t > 0.0 && s == r * t
    ensures s > 0.0
  {
  }

  lemma {:induction false} SquareNonNegative(r: real, s: real)
    requires s == r * r
    ensures s >= 0.0
    ensures s <= 0.0 ==> r == 0.0
  {
    if r > 0.0 {
      PositiveProduct(r, r, s);
    } else if r < 0.0 {
      PositiveProduct(-r, -r, s);
    }
  }

  // ---------- the denominator ----------

  function DistanceSquared(x: real): Point -> real {
    (p: Point) => (p.x - x) * (p.x - x)
  }

  // Squared differences summed over all pairs of points.
  function PairSpread(ps: seq<Point>): real {
    if ps == [] then 0.0 else PairSpread(ps[1..]) + SumOf(ps[1..], DistanceSquared(ps[0].x))
  }

  lemma {:induction false} DistanceExpanded(u: real, x: real)
    ensures (u - x) * (u - x) == u * u + (-2.0 * x) * u + (x * x) * 1.0
  {
  }

  lemma {:induction false} DistancesPointwise(x: real)
    ensures CombinesTwo(DistanceSquared(x), XX, X, -2.0 * x, One, x * x)
  {
    forall p ensures DistanceSquared(x)(p) == XX(p) + (-2.0 * x) * X(p) + (x * x) * One(p) {
      DistanceExpanded(p.x, x);
    }
  }

  lemma {:induction false} DistancesCombined(ps: seq<Point>, x: real)
    ensures SumOf(ps, DistanceSquared(x)) == SumOf(ps, XX) + (-2.0 * x) * SumOf(ps, X) + (x * x) * SumOf(ps, One)
  {
    DistancesPointwise(x);
    TwoCombine(ps, DistanceSquared(x), XX, X, -2.0 * x, One, x * x);
  }

  lemma {:induction false} DistancesExpanded(ps: seq<Point>, s: Sums, x: real)
    requires s == SumsOf(ps)
    ensures SumOf(ps, DistanceSquared(x)) == s.xx + (-2.0 * x) * s.x + (x * x) * s.n
  {
    DistancesCombined(ps, x);
    SumOfOnes(ps);
  }

  lemma {:induction false} DenominatorStep(s: Sums, t: Sums, x: real)
    requires s.n == t.n + 1.0 && s.x == t.x + x && s.xx == t.xx + x * x
    ensures Denominator(s) == Denominator(t) + (t.xx + (-2.0 * x) * t.x + (x * x) * t.n)
  {
    assert s.n * s.xx == t.n * t.xx + (x * x) * t.n + t.xx + x * x;
    assert s.x * s.x == t.x * t.x + 2.0 * (x * t.x) + x * x;
  }

  lemma {:induction false} SumsStep(ps: seq<Point>, s: Sums, t: Sums, x: real)
    requires ps != [] && s == SumsOf(ps) && t == SumsOf(ps[1..]) && x == ps[0].x
    ensures s.n == t.n + 1.0 && s.x == t.x + x && s.xx == t.xx + x * x
  {
  }

  /** The denominator is the sum of squared pairwise differences. */
  lemma {:induction false} DenominatorIsPairSpread(ps: seq<Point>, s: Sums)
    requires s == SumsOf(ps)
    ensures Denominator(s) == PairSpread(ps)
  {
    if ps == [] {
    } else {
      var t, x := SumsOf(ps[1..]), ps[0].x;
      DenominatorIsPairSpread(ps[1..], t);
      DistancesExpanded(ps[1..], t, x);
      SumsStep(ps, s, t, x);
      DenominatorStep(s, t, x);
    }
  }

  lemma {:induction false} DistancesNonNegative(x: real)
    ensures forall p :: DistanceSquared(x)(p) >= 0.0
  {
    forall p ensures DistanceSquared(x)(p) >= 0.0 {
      SquareNonNegative(p.x - x, DistanceSquared(x)(p));
    }
  }

  lemma {:induction false} PairSpreadLower(ps: seq<Point>)
    ensures PairSpread(ps) >= 0.0
    ensures forall i, j | 0 <= i < j < |ps| :: PairSpread(ps) >= DistanceSquared(ps[i].x)(ps[j])
  {
    if ps == [] {
    } else {
      var t := ps[1..];
      PairSpreadLower(t);
      DistancesNonNegative(ps[0].x);
      SumBounds(t, DistanceSquared(ps[0].x));
      forall i, j | 0 <= i < j < |ps| ensures PairSpread(ps) >= DistanceSquared(ps[i].x)(ps[j]) {
        assert ps[j] == t[j - 1];
        if i > 0 {
          assert ps[i] == t[i - 1];
        } else {
          assert t[j - 1] in t;
        }
      }
    }
  }

  lemma {:induction false} PairSpreadSame(ps: seq<Point>)
    requires forall p, q | p in ps && q in ps :: p.x == q.x
    ensures PairSpread(ps) == 0.0
  {
    if ps == [] {
    } else {
      PairSpreadSame(ps[1..]);
      assert ps[0] in ps;
      SumOfZeros(ps[1..], DistanceSquared(ps[0].x));
    }
  }

  ghost predicate WholeContexts(ps: seq<Point>) {
    forall p | p in ps :: p.x == p.x.Floor as real
  }

  ghost predicate TwoContexts(ps: seq<Point>) {
    exists i, j :: 0 <= i < j < |ps| && ps[i].x != ps[j].x
  }

  lemma {:induction false} WholeSquare(d: int, r: real)
    requires d != 0 && r == d as real
    ensures r * r >= 1.0
  {
    if d > 0 {
      assert r >= 1.0;
    } else {
      assert -r >= 1.0;
      assert r * r == (-r) * (-r);
    }
  }

  /** For whole-number contexts the fit exists exactly when two contexts differ. */
  lemma {:induction false} FitExistsExactly(ps: seq<Point>)
    requires WholeContexts(ps)
    ensures LinearFit(ps).Some? <==> TwoContexts(ps)
  {
    DenominatorIsPairSpread(ps, SumsOf(ps));
    if TwoContexts(ps) {
      WholeSpread(ps);
    } else {
      PairSpreadSame(ps);
    }
  }

  lemma {:induction false} WholeDistance(p: Point, q: Point)
    requires p.x == p.x.Floor as real && q.x == q.x.Floor as real && p.x != q.x
    ensures DistanceSquared(p.x)(q) >= 1.0
  {
    WholeSquare(q.x.Floor - p.x.Floor, q.x - p.x);
  }

  lemma {:induction false} WholeSpread(ps: seq<Point>)
    requires WholeContexts(ps) && TwoContexts(ps)
    ensures PairSpread(ps) >= 1.0
  {
    var i, j :| 0 <= i < j < |ps| && ps[i].x != ps[j].x;
    var p, q := ps[i], ps[j];
    assert p in ps && q in ps;
    PairSpreadLower(ps);
    WholeDistance(p, q);
  }

  // ---------- optimality ----------

  function Residual(l: Line): Point -> real {
    (p: Point) => p.y - (l.intercept + l.slope * p.x)
  }

  function ResidualSquared(l: Line): Point -> real {
    (p: Point) => Residual(l)(p) * Residual(l)(p)
  }

  // The squared error the fit is meant to minimise.
  function SquaredError(ps: seq<Point>, l: Line): real {
    SumOf(ps, ResidualSquared(l))
  }

  function Moment(l: Line): Point -> real {
    (p: Point) => Residual(l)(p) * p.x
  }

  // Squared vertical distance between two lines that differ by a + b * x.
  function Gap(a: real, b: real): Point -> real {
    (p: Point) => (a + b * p.x) * (a + b * p.x)
  }

  lemma {:induction false} ResidualsPointwise(l: Line)
    ensures CombinesTwo(Residual(l), Y, One, -l.intercept, X, -l.slope)
  {
  }

  lemma {:induction false} MomentExpanded(x: real, y: real, a: real, b: real, r: real)
    requires r == y - (a + b * x)
    ensures r * x == x * y + (-a) * x + (-b) * (x * x)
  {
  }

  lemma {:induction false} MomentsPointwise(l: Line)
    ensures CombinesTwo(Moment(l), XY, X, -l.intercept, XX, -l.slope)
  {
    forall p ensures Moment(l)(p) == XY(p) + (-l.intercept) * X(p) + (-l.slope) * XX(p) {
      MomentExpanded(p.x, p.y, l.intercept, l.slope, Residual(l)(p));
    }
  }

  // The two normal equations, as the totals say them.
  function MeanResidual(s: Sums, l: Line): real {
    s.y + (-l.intercept) * s.n + (-l.slope) * s.x
  }

  function MeanMoment(s: Sums, l: Line): real {
    s.xy + (-l.intercept) * s.x + (-l.slope) * s.xx
  }

  lemma {:induction false} ResidualSum(ps: seq<Point>, l: Line)
    ensures SumOf(ps, Residual(l)) == MeanResidual(SumsOf(ps), l)
  {
    ResidualsPointwise(l);
    TwoCombine(ps, Residual(l), Y, One, -l.intercept, X, -l.slope);
    SumOfOnes(ps);
  }

  lemma {:induction false} MomentsCombined(ps: seq<Point>, l: Line)
    ensures SumOf(ps, Moment(l)) == SumOf(ps, XY) + (-l.intercept) * SumOf(ps, X) + (-l.slope) * SumOf(ps, XX)
  {
    MomentsPointwise(l);
    TwoCombine(ps, Moment(l), XY, X, -l.intercept, XX, -l.slope);
  }

  lemma {:induction false} MomentSum(ps: seq<Point>, l: Line)
    ensures SumOf(ps, Moment(l)) == MeanMoment(SumsOf(ps), l)
  {
    MomentsCombined(ps, l);
  }

  lemma {:induction false} ErrorExpanded(r: real, a: real, b: real, x: real, s: real)
    requires s == r - (a + b * x)
    ensures s * s == r * r + 1.0 * ((a + b * x) * (a + b * x)) + (-2.0 * a) * r + (-2.0 * b) * (r * x)
  {
    var d := a + b * x;
    assert (r - d) * (r - d) == r * r + d * d - 2.0 * (r * d);
    assert r * d == a * r + b * (r * x);
  }

  lemma {:induction false} ErrorAt(l: Line, m: Line, a: real, b: real, p: Point)
    requires a == m.intercept - l.intercept && b == m.slope - l.slope
    ensures ResidualSquared(m)(p)
            == ResidualSquared(l)(p) + 1.0 * Gap(a, b)(p) + (-2.0 * a) * Residual(l)(p) + (-2.0 * b) * Moment(l)(p)
  {
    SlopeSplit(m.slope, l.slope, b, p.x);
    ErrorExpanded(Residual(l)(p), a, b, p.x, Residual(m)(p));
  }

  lemma {:induction false} ErrorsPointwise(l: Line, m: Line, a: real, b: real)
    requires a == m.intercept - l.intercept && b == m.slope - l.slope
    ensures Combines(ResidualSquared(m), ResidualSquared(l), Gap(a, b), 1.0, Residual(l), -2.0 * a, Moment(l), -2.0 * b)
  {
    forall p
      ensures ResidualSquared(m)(p)
              == ResidualSquared(l)(p) + 1.0 * Gap(a, b)(p) + (-2.0 * a) * Residual(l)(p) + (-2.0 * b) * Moment(l)(p)
    {
      ErrorAt(l, m, a, b, p);
    }
  }

  lemma {:induction false} ErrorOfAnotherLine(ps: seq<Point>, l: Line, m: Line, a: real, b: real)
    requires a == m.intercept - l.intercept && b == m.slope - l.slope
    ensures SquaredError(ps, m) == SquaredError(ps, l) + 1.0 * SumOf(ps, Gap(a, b))
                                   + (-2.0 * a) * SumOf(ps, Residual(l)) + (-2.0 * b) * SumOf(ps, Moment(l))
  {
    ErrorsPointwise(l, m, a, b);
    SumCombines(ps, ResidualSquared(m), ResidualSquared(l), Gap(a, b), 1.0, Residual(l), -2.0 * a, Moment(l), -2.0 * b);
  }

  lemma {:induction false} SlopeSplit(m: real, l: real, b: real, x: real)
    requires b == m - l
    ensures m * x == l * x + b * x
  {
  }

  lemma {:induction false} QuotientTimes(a: real, b: real)
    requires b != 0.0
    ensures a / b * b == a
    ensures b * (a / b) == a
  {
  }

  lemma {:induction false} MomentVanishes(s: Sums, a: real, b: real, m: real)
    requires s.n > 0.0 && s.n * a == s.y - b * s.x
    requires b * (s.n * s.xx - s.x * s.x) == s.n * s.xy - s.x * s.y
    requires m == s.xy + (-a) * s.x + (-b) * s.xx
    ensures m == 0.0
  {
    assert s.n * m == s.n * s.xy - (s.n * a) * s.x - b * (s.n * s.xx);
    assert (s.n * a) * s.x == s.y * s.x - b * (s.x * s.x);
    assert b * (s.n * s.xx - s.x * s.x) == b * (s.n * s.xx) - b * (s.x * s.x);
    assert s.n * m == 0.0;
  }

  lemma {:induction false} FitSolvesNormalEquations(s: Sums, l: Line)
    requires FitOf(s) == Some(l)
    ensures MeanResidual(s, l) == 0.0 && MeanMoment(s, l) == 0.0
  {
    QuotientTimes(s.n * s.xy - s.x * s.y, Denominator(s));
    QuotientTimes(s.y - l.slope * s.x, s.n);
    MomentVanishes(s, l.intercept, l.slope, MeanMoment(s, l));
  }

  // The fitted line meets both normal equations.
  lemma {:induction false} FitBalancesResiduals(ps: seq<Point>, l: Line)
    requires LinearFit(ps) == Some(l)
    ensures SumOf(ps, Residual(l)) == 0.0
    ensures SumOf(ps, Moment(l)) == 0.0
  {
    FitSolvesNormalEquations(SumsOf(ps), l);
    ResidualSum(ps, l);
    MomentSum(ps, l);
  }

  lemma {:induction false} GapsNonNegative(a: real, b: real)
    ensures forall p :: Gap(a, b)(p) >= 0.0
    ensures forall p :: Gap(a, b)(p) <= 0.0 ==> a + b * p.x == 0.0
  {
    forall p ensures Gap(a, b)(p) >= 0.0 && (Gap(a, b)(p) <= 0.0 ==> a + b * p.x == 0.0) {
      SquareNonNegative(a + b * p.x, Gap(a, b)(p));
    }
  }

  lemma {:induction false} TwoRoots(a: real, b: real, x: real, y: real)
    requires a + b * x == 0.0 && a + b * y == 0.0 && x != y
    ensures a == 0.0 && b == 0.0
  {
    assert b * (x - y) == 0.0;
    QuotientTimes(b, x - y);
    assert b == 0.0;
  }

  lemma {:induction false} NoGapNoDifference(ps: seq<Point>, a: real, b: real)
    requires TwoContexts(ps) && SumOf(ps, Gap(a, b)) <= 0.0
    ensures a == 0.0 && b == 0.0
  {
    var i, j :| 0 <= i < j < |ps| && ps[i].x != ps[j].x;
    NoGapAtPoint(ps, a, b, ps[i]);
    NoGapAtPoint(ps, a, b, ps[j]);
    TwoRoots(a, b, ps[i].x, ps[j].x);
  }

  lemma {:induction false} NoGapAtPoint(ps: seq<Point>, a: real, b: real, p: Point)
    requires p in ps && SumOf(ps, Gap(a, b)) <= 0.0
    ensures a + b * p.x == 0.0
  {
    GapsNonNegative(a, b);
    SumBounds(ps, Gap(a, b));
    assert Gap(a, b)(p) <= 0.0;
  }

  lemma {:induction false} FitHasTwoContexts(ps: seq<Point>)
    requires LinearFit(ps).Some?
    ensures TwoContexts(ps)
  {
    DenominatorIsPairSpread(ps, SumsOf(ps));
    if !TwoContexts(ps) {
      PairSpreadSame(ps);
    }
  }

  lemma {:induction false} GapAboveFit(ps: seq<Point>, best: Line, l: Line, a: real, b: real)
    requires a == l.intercept - best.intercept && b == l.slope - best.slope
    requires SumOf(ps, Residual(best)) == 0.0 && SumOf(ps, Moment(best)) == 0.0
    ensures SquaredError(ps, l) == SquaredError(ps, best) + SumOf(ps, Gap(a, b))
    ensures SumOf(ps, Gap(a, b)) >= 0.0
  {
    ErrorOfAnotherLine(ps, best, l, a, b);
    GapsNonNegative(a, b);
    SumBounds(ps, Gap(a, b));
  }

  /** The fit is the least-squares optimum over all real lines, and the only one. */
  lemma {:induction false} FitIsTheOptimum(ps: seq<Point>, best: Line, l: Line)
    requires LinearFit(ps) == Some(best)
    ensures SquaredError(ps, best) <= SquaredError(ps, l)
    ensures SquaredError(ps, best) == SquaredError(ps, l) ==> l == best
  {
    var a, b := l.intercept - best.intercept, l.slope - best.slope;
    FitBalancesResiduals(ps, best);
    GapAboveFit(ps, best, l, a, b);
    FitHasTwoContexts(ps);
    if SumOf(ps, Gap(a, b)) <= 0.0 {
      NoGapNoDifference(ps, a, b);
    }
  }

  ghost predicate OnLine(ps: seq<Point>, l: Line) {
    forall p | p in ps :: p.y == l.intercept + l.slope * p.x
  }

  lemma {:induction false} NoErrorOnLine(ps: seq<Point>, l: Line)
    requires OnLine(ps, l)
    ensures SquaredError(ps, l) == 0.0
  {
    forall p | p in ps ensures ResidualSquared(l)(p) == 0.0 {
      assert Residual(l)(p) == 0.0;
    }
    SumOfZeros(ps, ResidualSquared(l));
  }

  lemma {:induction false} ErrorNonNegative(ps: seq<Point>, l: Line)
    ensures SquaredError(ps, l) >= 0.0
  {
    forall p ensures ResidualSquared(l)(p) >= 0.0 {
      SquareNonNegative(Residual(l)(p), ResidualSquared(l)(p));
    }
    SumBounds(ps, ResidualSquared(l));
  }

  /** Collinear points give back their own line. */
  lemma {:induction false} FitRecoversLine(ps: seq<Point>, best: Line, l: Line)
    requires LinearFit(ps) == Some(best) && OnLine(ps, l)
    ensures best == l
  {
    NoErrorOnLine(ps, l);
    ErrorNonNegative(ps, best);
    FitIsTheOptimum(ps, best, l);
  }
}
