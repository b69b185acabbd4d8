/** The least-squares slope of the memory trend, over exact reals. */
module LinReg {
  import opened Wrappers

  /** A sample: time in seconds, memory. */
  datatype Point = Point(x: real, y: real)

  function SumX(points: seq<Point>): real {
    if points == [] then 0.0 else points[0].x + SumX(points[1..])
  }

  function SumY(points: seq<Point>): real {
    if points == [] then 0.0 else points[0].y + SumY(points[1..])
  }

  function SumXX(points: seq<Point>): real {
    if points == [] then 0.0 else points[0].x * points[0].x + SumXX(points[1..])
  }

  function SumXY(points: seq<Point>): real {
    if points == [] then 0.0 else points[0].x * points[0].y + SumXY(points[1..])
  }

  /** `n * v - s * t`, for sums `s`, `t` and `v` of `n` values. */
  function Centred(n: real, s: real, t: real, v: real): real {
    n * v - s * t
  }

  function Denominator(points: seq<Point>): real {
    Centred(|points| as real, SumX(points), SumX(points), SumXX(points))
  }

  function Numerator(points: seq<Point>): real {
    Centred(|points| as real, SumX(points), SumY(points), SumXY(points))
  }

  function Linreg(points: seq<Point>): Option<real> {
    if |points| < 2 then None
    else
      var denom := Denominator(points);
      if denom == 0.0 then None else Some(Numerator(points) / denom)
  }

  // ---- When there is a slope ---------------------------------------------------------

  ghost predicate AllSameX(points: seq<Point>) {
    forall i, j :: 0 <= i < j < |points| ==> points[i].x == points[j].x
  }

  function Square(a: real): real {
    a * a
  }

  /** The sum of the squared distances from `x`. */
  function Spread(x: real, points: seq<Point>): real {
    if points == [] then 0.0 else Square(points[0].x - x) + Spread(x, points[1..])
  }

  lemma SquareNonNegative(a: real)
    ensures Square(a) >= 0.0
    ensures a != 0.0 ==> Square(a) > 0.0
    ensures a == 0.0 ==> Square(a) == 0.0
  {
    SquareOfPositive(a);
    SquareOfPositive(-a);
    SquareOfOpposite(a);
  }

  lemma SquareOfPositive(a: real)
    ensures a > 0.0 ==> Square(a) > 0.0
  {
    if a > 0.0 {
      PositiveProductIs(a, a, Square(a));
    }
  }

  lemma PositiveProductIs(u: real, v: real, product: real)
    requires u > 0.0 && v > 0.0 && product == u * v
    ensures product > 0.0
  {
  }

  lemma SquareOfOpposite(a: real)
    ensures Square(-a) == Square(a)
  {
  }

  lemma {:induction false} SpreadZeroIff(x: real, points: seq<Point>)
    ensures Spread(x, points) >= 0.0
    ensures Spread(x, points) == 0.0 <==> forall i :: 0 <= i < |points| ==> points[i].x == x
  {
    hide Square;
    if points != [] {
      SquareNonNegative(points[0].x - x);
      SpreadZeroIff(x, points[1..]);
      assert forall i :: 0 < i < |points| ==> points[i] == points[1..][i - 1];
    }
  }

  lemma DenominatorStep(p: real, sxx: real, sx: real, n: real)
    ensures Centred(n + 1.0, p + sx, p + sx, p * p + sxx) == Centred(n, sx, sx, sxx) + SpreadOfSums(n, sx, sxx, p)
  {
  }

  lemma SumsOfCons(p: Point, rest: seq<Point>)
    ensures var points := [p] + rest;
            && |points| as real == |rest| as real + 1.0
            && SumX(points) == p.x + SumX(rest) && SumY(points) == p.y + SumY(rest)
            && SumXX(points) == p.x * p.x + SumXX(rest)
            && SumXY(points) == p.x * p.y + SumXY(rest)
            && SumYY(points) == p.y * p.y + SumYY(rest)
  {
    assert ([p] + rest)[1..] == rest;
  }

  lemma SpreadOfCons(x: real, p: Point, rest: seq<Point>)
    ensures Spread(x, [p] + rest) == Square(p.x - x) + Spread(x, rest)
  {
    assert ([p] + rest)[1..] == rest;
  }

  function SpreadOfSums(n: real, sx: real, sxx: real, x: real): real {
    sxx - 2.0 * x * sx + n * (x * x)
  }

  lemma SpreadStep(x: real, p: real, n: real, k: real, sx: real, sxx: real, tx: real, txx: real)
    requires k == n + 1.0 && tx == p + sx && txx == p * p + sxx
    ensures Square(p - x) + SpreadOfSums(n, sx, sxx, x) == SpreadOfSums(k, tx, txx, x)
  {
    assert Square(p - x) == p * p - 2.0 * (x * p) + x * x;
    assert 2.0 * x * tx == 2.0 * (x * p) + 2.0 * x * sx;
    assert k * (x * x) == n * (x * x) + x * x;
  }

  lemma {:induction false} SpreadExpanded(x: real, points: seq<Point>)
    ensures Spread(x, points) == SpreadOfSums(|points| as real, SumX(points), SumXX(points), x)
  {
    hide SumX, SumXX, Spread, Square, SpreadOfSums;
    if points == [] {
      NoSpread(x, points);
    } else {
      var p, rest := points[0], points[1..];
      SpreadExpanded(x, rest);
      assert points == [p] + rest;
      SpreadOfCons(x, p, rest);
      SumsOfCons(p, rest);
      SpreadStep(x, p.x, |rest| as real, |points| as real, SumX(rest), SumXX(rest), SumX(points), SumXX(points));
    }
  }

  lemma NoSpread(x: real, points: seq<Point>)
    requires points == []
    ensures Spread(x, points) == SpreadOfSums(|points| as real, SumX(points), SumXX(points), x)
  {
  }

  lemma DenominatorSplits(p: Point, rest: seq<Point>)
    ensures Denominator([p] + rest) == Denominator(rest) + Spread(p.x, rest)
  {
    hide SumX, SumXX, Spread, Centred, SpreadOfSums;
    SpreadExpanded(p.x, rest);
    SumsOfCons(p, rest);
    DenominatorStep(p.x, SumXX(rest), SumX(rest), |rest| as real);
  }

  /** The denominator sums the squared distances of all pairs, so it is zero exactly when all times coincide. */
  lemma {:induction false} DenominatorZeroIff(points: seq<Point>)
    ensures Denominator(points) >= 0.0
    ensures Denominator(points) == 0.0 <==> AllSameX(points)
  {
    if points != [] {
      hide Denominator, Spread;
      var p, rest := points[0], points[1..];
      DenominatorZeroIff(rest);
      SpreadZeroIff(p.x, rest);
      DenominatorSplits(p, rest);
      assert points == [p] + rest;
      assert forall i :: 0 < i < |points| ==> points[i] == rest[i - 1];
      assert AllSameX(points) <==> AllSameX(rest) && forall i :: 0 <= i < |rest| ==> rest[i].x == p.x;
    }
  }

  /** There is no slope exactly when there are fewer than two samples or all were taken at the same time. */
  lemma NoSlopeIff(points: seq<Point>)
    ensures Linreg(points) == None <==> |points| < 2 || AllSameX(points)
  {
    DenominatorZeroIff(points);
  }

  // ---- What the slope is ------------------------------------------------------------------

  function SumYY(points: seq<Point>): real {
    if points == [] then 0.0 else points[0].y * points[0].y + SumYY(points[1..])
  }

  /** The squared error of the line `y = m * x + b`. */
  function SquaredError(points: seq<Point>, m: real, b: real): real {
    if points == [] then 0.0
    else
      var r := points[0].y - (m * points[0].x + b);
      Square(r) + SquaredError(points[1..], m, b)
  }

  function ErrorOfSums(n: real, sx: real, sy: real, sxx: real, sxy: real, syy: real, m: real, b: real): real {
    syy - 2.0 * m * sxy - 2.0 * b * sy + m * m * sxx + 2.0 * m * b * sx + n * (b * b)
  }

  lemma ErrorOfCons(p: Point, rest: seq<Point>, m: real, b: real)
    ensures SquaredError([p] + rest, m, b)
         == Square(p.y - (m * p.x + b)) + SquaredError(rest, m, b)
  {
    assert ([p] + rest)[1..] == rest;
  }

  lemma {:induction false} ErrorExpanded(points: seq<Point>, m: real, b: real)
    ensures SquaredError(points, m, b)
         == ErrorOfSums(|points| as real, SumX(points), SumY(points), SumXX(points), SumXY(points), SumYY(points), m, b)
  {
    hide Square, ErrorOfSums, SquaredError, SumX, SumY, SumXX, SumXY, SumYY;
    if points == [] {
      NoError(points, m, b);
    } else {
      var p, rest := points[0], points[1..];
      ErrorExpanded(rest, m, b);
      ErrorOfCons(p, rest, m, b);
      SumsOfCons(p, rest);
      assert points == [p] + rest;
      ErrorSums(p, |rest| as real, |points| as real,
                SumX(rest), SumY(rest), SumXX(rest), SumXY(rest), SumYY(rest),
                SumX(points), SumY(points), SumXX(points), SumXY(points), SumYY(points), m, b);
    }
  }

  lemma NoError(points: seq<Point>, m: real, b: real)
    requires points == []
    ensures SquaredError(points, m, b)
         == ErrorOfSums(|points| as real, SumX(points), SumY(points), SumXX(points), SumXY(points), SumYY(points), m, b)
  {
  }

  lemma ErrorStep(x: real, y: real, n: real, sx: real, sy: real, sxx: real, sxy: real, syy: real, m: real, b: real)
    ensures Square(y - (m * x + b)) + ErrorOfSums(n, sx, sy, sxx, sxy, syy, m, b)
         == ErrorOfSums(n + 1.0, x + sx, y + sy, x * x + sxx, x * y + sxy, y * y + syy, m, b)
  {
    var r := y - (m * x + b);
    assert r * r == y * y - 2.0 * (m * (x * y)) - 2.0 * (b * y) + m * m * (x * x) + 2.0 * (m * b * x) + b * b;
    assert m * m * (x * x + sxx) == m * m * (x * x) + m * m * sxx;
    assert 2.0 * m * b * (x + sx) == 2.0 * (m * b * x) + 2.0 * m * b * sx;
    assert 2.0 * m * (x * y + sxy) == 2.0 * (m * (x * y)) + 2.0 * m * sxy;
    assert 2.0 * b * (y + sy) == 2.0 * (b * y) + 2.0 * b * sy;
  }

  /** `ErrorOfSums` at equal sums. */
  lemma ErrorSums(p: Point, n: real, k: real, sx: real, sy: real, sxx: real, sxy: real, syy: real,
                  tx: real, ty: real, txx: real, txy: real, tyy: real, m: real, b: real)
    requires k == n + 1.0 && tx == p.x + sx && ty == p.y + sy
    requires txx == p.x * p.x + sxx && txy == p.x * p.y + sxy && tyy == p.y * p.y + syy
    ensures Square(p.y - (m * p.x + b)) + ErrorOfSums(n, sx, sy, sxx, sxy, syy, m, b)
         == ErrorOfSums(k, tx, ty, txx, txy, tyy, m, b)
  {
    hide Square, ErrorOfSums;
    ErrorStep(p.x, p.y, n, sx, sy, sxx, sxy, syy, m, b);
  }

  function Intercept(points: seq<Point>, slope: real): real
    requires points != []
  {
    (SumY(points) - slope * SumX(points)) / |points| as real
  }

  /** The two normal equations hold at the computed slope. */
  lemma NormalEquations(n: real, sx: real, sy: real, sxx: real, sxy: real, slope: real, b: real)
    requires n > 0.0 && Centred(n, sx, sx, sxx) != 0.0
    requires slope == Centred(n, sx, sy, sxy) / Centred(n, sx, sx, sxx) && b == (sy - slope * sx) / n
    ensures slope * sx + n * b == sy
    ensures slope * sxx + b * sx == sxy
  {
    var denom := n * sxx - sx * sx;
    assert slope * denom == n * sxy - sx * sy;
    assert n * b == sy - slope * sx;
    assert n * (slope * sxx + b * sx) == n * sxy by {
      assert n * (slope * sxx + b * sx) == slope * (n * sxx) + (n * b) * sx;
      assert (n * b) * sx == sy * sx - slope * (sx * sx);
      assert slope * (n * sxx) - slope * (sx * sx) == slope * denom;
    }
    CancelFactor(n, slope * sxx + b * sx, sxy);
  }

  lemma CancelFactor(n: real, u: real, v: real)
    requires n > 0.0 && n * u == n * v
    ensures u == v
  {
    assert n * (u - v) == 0.0;
  }

  /** How much worse a line is that differs from the solution by `d` in slope and `e` in intercept. */
  lemma ErrorGap(n: real, sx: real, sy: real, sxx: real, sxy: real, syy: real, m: real, b: real, d: real, e: real)
    requires m * sx + n * b == sy && m * sxx + b * sx == sxy
    ensures ErrorOfSums(n, sx, sy, sxx, sxy, syy, m + d, b + e)
         == ErrorOfSums(n, sx, sy, sxx, sxy, syy, m, b) + (d * d * sxx + 2.0 * d * e * sx + n * (e * e))
  {
    assert (m + d) * (m + d) * sxx == m * m * sxx + 2.0 * (d * (m * sxx)) + d * d * sxx;
    assert 2.0 * (m + d) * (b + e) * sx
        == 2.0 * m * b * sx + 2.0 * (e * (m * sx)) + 2.0 * (d * (b * sx)) + 2.0 * d * e * sx;
    assert n * ((b + e) * (b + e)) == n * (b * b) + 2.0 * (e * (n * b)) + n * (e * e);
    assert d * sxy == d * (m * sxx) + d * (b * sx);
    assert e * sy == e * (m * sx) + e * (n * b);
    assert 2.0 * (m + d) * sxy == 2.0 * m * sxy + 2.0 * (d * sxy);
    assert 2.0 * (b + e) * sy == 2.0 * b * sy + 2.0 * (e * sy);
  }

  /** The gap is positive unless the line is the same. */
  lemma GapPositive(n: real, sx: real, sxx: real, d: real, e: real)
    requires n > 0.0 && Centred(n, sx, sx, sxx) > 0.0 && (d != 0.0 || e != 0.0)
    ensures d * d * sxx + 2.0 * d * e * sx + n * (e * e) > 0.0
  {
    var gap, cross, denom := d * d * sxx + 2.0 * d * e * sx + n * (e * e), d * sx + n * e, n * sxx - sx * sx;
    assert n * gap == Square(d) * denom + Square(cross) by {
      assert cross * cross == d * d * (sx * sx) + 2.0 * (d * e * sx) * n + n * (n * (e * e));
      assert n * gap == n * (d * d * sxx) + n * (2.0 * d * e * sx) + n * (n * (e * e));
      assert d * d * denom == n * (d * d * sxx) - d * d * (sx * sx);
    }
    SquareNonNegative(d);
    SquareNonNegative(cross);
    PositiveProduct(Square(d), denom);
    if d == 0.0 {
      SquareNonNegative(e);
      PositiveProduct(n * n, Square(e));
      assert Square(cross) == n * n * Square(e);
    }
    PositiveFactor(n, gap, Square(d) * denom + Square(cross));
  }

  lemma PositiveProduct(u: real, v: real)
    ensures u > 0.0 && v > 0.0 ==> u * v > 0.0
    ensures u >= 0.0 && v >= 0.0 ==> u * v >= 0.0
  {
  }

  lemma PositiveFactor(n: real, u: real, total: real)
    requires n > 0.0 && n * u == total && total > 0.0
    ensures u > 0.0
  {
    assert u <= 0.0 ==> n * u <= 0.0;
  }

  /** The slope, with its intercept, is the one line of least squared error. */
  lemma SlopeIsUniqueMinimiser(points: seq<Point>, m: real, b: real)
    requires Linreg(points).Some?
    ensures var slope := Linreg(points).value;
            var intercept := Intercept(points, slope);
            (m == slope && b == intercept) || SquaredError(points, m, b) > SquaredError(points, slope, intercept)
  {
    hide Square, Centred, ErrorOfSums, SquaredError, SumX, SumY, SumXX, SumXY, SumYY;
    var slope := Linreg(points).value;
    var intercept := Intercept(points, slope);
    var n, sx, sy := |points| as real, SumX(points), SumY(points);
    var sxx, sxy, syy := SumXX(points), SumXY(points), SumYY(points);
    var d, e := m - slope, b - intercept;
    DenominatorZeroIff(points);
    NormalEquations(n, sx, sy, sxx, sxy, slope, intercept);
    ErrorGap(n, sx, sy, sxx, sxy, syy, slope, intercept, d, e);
    ErrorExpanded(points, m, b);
    ErrorExpanded(points, slope, intercept);
    assert slope + d == m && intercept + e == b;
    if d != 0.0 || e != 0.0 {
      GapPositive(n, sx, sxx, d, e);
    }
  }

  /** Without a slope to report, every line has an equally good line of any other slope. */
  lemma {:induction false} TiltedLineAsGood(points: seq<Point>, x: real, m: real, b: real, otherSlope: real)
    requires forall i :: 0 <= i < |points| ==> points[i].x == x
    ensures SquaredError(points, m, b) == SquaredError(points, otherSlope, b + (m - otherSlope) * x)
  {
    if points != [] {
      hide SquaredError;
      var p, rest, c := points[0], points[1..], b + (m - otherSlope) * x;
      TiltedLineAsGood(rest, x, m, b, otherSlope);
      assert points == [p] + rest;
      ErrorOfCons(p, rest, m, b);
      ErrorOfCons(p, rest, otherSlope, c);
      assert m * x + b == otherSlope * x + c;
    }
  }

  // ---- The time origin -----------------------------------------------------------------------

  function Shift(points: seq<Point>, t: real): (r: seq<Point>)
    ensures |r| == |points|
  {
    if points == [] then [] else [Point(points[0].x + t, points[0].y)] + Shift(points[1..], t)
  }

  /** How the sums `r...` of `n` points shifted by `t` relate to the sums `s...` of the points. */
  ghost predicate ShiftedBy(n: real, t: real, sx: real, sy: real, sxx: real, sxy: real,
                            rx: real, ry: real, rxx: real, rxy: real) {
    rx == sx + n * t && ry == sy && rxx == sxx + 2.0 * t * sx + n * (t * t) && rxy == sxy + t * sy
  }

  lemma ShiftOne(p: Point, q: Point, t: real, n: real, sx: real, sy: real, sxx: real, sxy: real,
                 rx: real, ry: real, rxx: real, rxy: real)
    requires ShiftedBy(n, t, sx, sy, sxx, sxy, rx, ry, rxx, rxy) && q.x == p.x + t && q.y == p.y
    ensures ShiftedBy(n + 1.0, t, p.x + sx, p.y + sy, p.x * p.x + sxx, p.x * p.y + sxy,
                      q.x + rx, q.y + ry, q.x * q.x + rxx, q.x * q.y + rxy)
  {
    assert q.x * q.x == p.x * p.x + 2.0 * t * p.x + t * t;
    assert q.x * q.y == p.x * p.y + t * p.y;
    assert 2.0 * t * (p.x + sx) == 2.0 * t * p.x + 2.0 * t * sx;
    assert (n + 1.0) * (t * t) == n * (t * t) + t * t && (n + 1.0) * t == n * t + t;
    assert t * (p.y + sy) == t * p.y + t * sy;
  }

  /** `ShiftOne` at equal sums. */
  lemma ShiftSums(p: Point, q: Point, t: real, n: real, k: real,
                  sx: real, sy: real, sxx: real, sxy: real, rx: real, ry: real, rxx: real, rxy: real,
                  tx: real, ty: real, txx: real, txy: real, ux: real, uy: real, uxx: real, uxy: real)
    requires ShiftedBy(n, t, sx, sy, sxx, sxy, rx, ry, rxx, rxy) && k == n + 1.0 && q.x == p.x + t && q.y == p.y
    requires tx == p.x + sx && ty == p.y + sy && txx == p.x * p.x + sxx && txy == p.x * p.y + sxy
    requires ux == q.x + rx && uy == q.y + ry && uxx == q.x * q.x + rxx && uxy == q.x * q.y + rxy
    ensures ShiftedBy(k, t, tx, ty, txx, txy, ux, uy, uxx, uxy)
  {
    hide ShiftedBy;
    ShiftOne(p, q, t, n, sx, sy, sxx, sxy, rx, ry, rxx, rxy);
  }

  lemma {:induction false} ShiftedSums(points: seq<Point>, t: real)
    ensures var r := Shift(points, t);
            ShiftedBy(|points| as real, t, SumX(points), SumY(points), SumXX(points), SumXY(points),
                      SumX(r), SumY(r), SumXX(r), SumXY(r))
  {
    hide SumX, SumY, SumXX, SumXY, ShiftedBy;
    if points == [] {
      NothingShifted(t);
    } else {
      var p, rest := points[0], points[1..];
      var q, shifted := Point(p.x + t, p.y), Shift(rest, t);
      ShiftedSums(rest, t);
      assert points == [p] + rest;
      SumsOfCons(p, rest);
      SumsOfCons(q, shifted);
      ShiftSums(p, q, t, |rest| as real, |points| as real,
                SumX(rest), SumY(rest), SumXX(rest), SumXY(rest),
                SumX(shifted), SumY(shifted), SumXX(shifted), SumXY(shifted),
                SumX(points), SumY(points), SumXX(points), SumXY(points),
                SumX([q] + shifted), SumY([q] + shifted), SumXX([q] + shifted), SumXY([q] + shifted));
    }
  }

  lemma NothingShifted(t: real)
    ensures ShiftedBy(0.0, t, SumX([]), SumY([]), SumXX([]), SumXY([]), SumX([]), SumY([]), SumXX([]), SumXY([]))
  {
  }

  lemma ShiftCancels(n: real, t: real, sx: real, sy: real, sxx: real, sxy: real, rx: real, rxx: real, rxy: real)
    requires rx == sx + n * t && rxx == sxx + 2.0 * t * sx + n * (t * t) && rxy == sxy + t * sy
    ensures Centred(n, rx, rx, rxx) == Centred(n, sx, sx, sxx)
    ensures Centred(n, rx, sy, rxy) == Centred(n, sx, sy, sxy)
  {
    assert rx * rx == sx * sx + 2.0 * (n * (t * sx)) + n * (n * (t * t));
    assert n * rxx == n * sxx + 2.0 * (n * (t * sx)) + n * (n * (t * t));
    assert rx * sy == sx * sy + n * (t * sy);
    assert n * rxy == n * sxy + n * (t * sy);
  }

  /** The slope does not depend on where time starts. */
  lemma SlopeIgnoresOrigin(points: seq<Point>, t: real)
    ensures Linreg(Shift(points, t)) == Linreg(points)
  {
    hide Centred, SumX, SumY, SumXX, SumXY;
    ShiftedSums(points, t);
    var r := Shift(points, t);
    ShiftCancels(|points| as real, t, SumX(points), SumY(points), SumXX(points), SumXY(points),
                 SumX(r), SumXX(r), SumXY(r));
    SameQuotient(points, Shift(points, t));
  }

  lemma SameQuotient(p: seq<Point>, q: seq<Point>)
    requires |p| == |q| && Denominator(p) == Denominator(q) && Numerator(p) == Numerator(q)
    ensures Linreg(p) == Linreg(q)
  {
    hide Denominator, Numerator;
  }
}
