/**
 The gas demand model: heating and industrial demand split off Eurostat's monthly totals by least squares, and
 written out by day.
 */
module Demand {
  import opened Options
  import opened FiniteSums
  import opened Rounding
  import Calendar

  const MIN_CALIBRATION_MONTHS := 6

  /** A number for some days, or for some months. */
  type Table = map<int, real>

  function At(t: Table): int -> real {
    k => if k in t then t[k] else 0.0
  }

  function MonthOf(day: int): int {
    if day >= 0 then Calendar.MonthOf(day) else -1
  }

  // ----- least squares

  /** The line y = a + b * x. */
  datatype Fit = TooFew(n: nat) | Fit(a: real, b: real, n: nat)

  function FitOf(n: real, sx: real, sy: real, sxx: real, sxy: real): (real, real)
    requires n > 0.0
  {
    var d := Times(n, sxx) - Times(sx, sx);
    if d != 0.0 then
      var b := (Times(n, sxy) - Times(sx, sy)) / d;
      ((sy - Times(b, sx)) / n, b)
    else
      // all x are equal: of the lines through the mean, the one of least norm
      var c, mean := sx / n, sy / n;
      (mean / (1.0 + Times(c, c)), Times(c, mean) / (1.0 + Times(c, c)))
  }

  ghost function Line(s: set<int>, x: int -> real, y: int -> real): (real, real)
    requires s != {}
  {
    FitOf(|s| as real, Sum(s, x), Sum(s, y), Sum(s, Product(x, x)), Sum(s, Product(x, y)))
  }

  /** The four sums over the months seen so far. */
  ghost predicate Summed(seen: set<int>, x: int -> real, y: int -> real, sx: real, sy: real, sxx: real, sxy: real) {
    && sx == Sum(seen, x) && sy == Sum(seen, y)
    && sxx == Sum(seen, Product(x, x)) && sxy == Sum(seen, Product(x, y))
  }

  lemma SummedNone(x: int -> real, y: int -> real)
    ensures Summed({}, x, y, 0.0, 0.0, 0.0, 0.0)
  {
    SumEmpty(x);
    SumEmpty(y);
    SumEmpty(Product(x, x));
    SumEmpty(Product(x, y));
  }

  lemma SummedOneMore(seen: set<int>, x: int -> real, y: int -> real, sx: real, sy: real, sxx: real, sxy: real, m: int)
    requires Summed(seen, x, y, sx, sy, sxx, sxy) && m !in seen
    ensures Summed(seen + {m}, x, y, sx + x(m), sy + y(m), sxx + Times(x(m), x(m)), sxy + Times(x(m), y(m)))
  {
    hide Sum, Times;
    SumAdd(seen, x, m);
    SumAdd(seen, y, m);
    SumAdd(seen, Product(x, x), m);
    SumAdd(seen, Product(x, y), m);
  }

  /** What `calibrate` returns: the line over the months present in both tables. */
  ghost function CalibrationOf(net: Table, hdd: Table): Fit {
    var months := net.Keys * hdd.Keys;
    if |months| < MIN_CALIBRATION_MONTHS then TooFew(|months|)
    else
      var (a, b) := Line(months, At(hdd), At(net));
      Fit(a, b, |months|)
  }

  method Calibrate(net: Table, hdd: Table) returns (fit: Fit)
    ensures fit == CalibrationOf(net, hdd)
  {
    hide Sum, FitOf, Times, Product;
    var months := net.Keys * hdd.Keys;
    if |months| < MIN_CALIBRATION_MONTHS {
      return TooFew(|months|);
    }
    var sx, sy, sxx, sxy := CalibrationSums(net, hdd, months);
    var (a, b) := FitOf(|months| as real, sx, sy, sxx, sxy);
    return Fit(a, b, |months|);
  }

  method CalibrationSums(net: Table, hdd: Table, months: set<int>) returns (sx: real, sy: real, sxx: real, sxy: real)
    requires months <= net.Keys * hdd.Keys
    ensures Summed(months, At(hdd), At(net), sx, sy, sxx, sxy)
  {
    hide Summed, Times;
    sx, sy, sxx, sxy := 0.0, 0.0, 0.0, 0.0;
    var todo := months;
    ghost var seen: set<int> := {};
    SummedNone(At(hdd), At(net));
    while todo != {}
      invariant todo <= months && seen == months - todo
      invariant Summed(seen, At(hdd), At(net), sx, sy, sxx, sxy)
      decreases todo
    {
      ghost var some := Pick(todo);
      var m :| m in todo;
      SummedOneMore(seen, At(hdd), At(net), sx, sy, sxx, sxy, m);
      sx, sy := sx + hdd[m], sy + net[m];
      sxx, sxy := sxx + Times(hdd[m], hdd[m]), sxy + Times(hdd[m], net[m]);
      todo := todo - {m};
      seen := seen + {m};
    }
    assert seen == months;
  }

  // ----- the normal equations, and why the line is the best one

  lemma RegularFit(n: real, sx: real, sy: real, sxx: real, sxy: real)
    requires n > 0.0 && Times(n, sxx) - Times(sx, sx) != 0.0
    ensures var (a, b) := FitOf(n, sx, sy, sxx, sxy);
            sy == Times(n, a) + Times(b, sx) && sxy == Times(a, sx) + Times(b, sxx)
  {
    hide Times;
    var d := Times(n, sxx) - Times(sx, sx);
    var b := (Times(n, sxy) - Times(sx, sy)) / d;
    var a := (sy - Times(b, sx)) / n;
    assert FitOf(n, sx, sy, sxx, sxy) == (a, b);
    hide *;
    RegularScalars(n, sx, sy, sxx, sxy, d, a, b);
  }

  lemma RegularScalars(n: real, sx: real, sy: real, sxx: real, sxy: real, d: real, a: real, b: real)
    requires n > 0.0 && d == Times(n, sxx) - Times(sx, sx) && d != 0.0
    requires b == (Times(n, sxy) - Times(sx, sy)) / d && a == (sy - Times(b, sx)) / n
    ensures sy == Times(n, a) + Times(b, sx) && sxy == Times(a, sx) + Times(b, sxx)
  {
    assert b * d == n * sxy - sx * sy;
    assert n * a == sy - b * sx;
    RegularCross(n, sx, sy, sxx, sxy, d, a, b);
  }

  lemma RegularCross(n: real, sx: real, sy: real, sxx: real, sxy: real, d: real, a: real, b: real)
    requires n > 0.0 && d == n * sxx - sx * sx && b * d == n * sxy - sx * sy && n * a == sy - b * sx
    ensures sxy == a * sx + b * sxx
  {
    assert n * (a * sx + b * sxx) == (n * a) * sx + b * (n * sxx);
    assert (n * a) * sx == sy * sx - b * (sx * sx);
    assert b * d == b * (n * sxx) - b * (sx * sx);
    CancelLeft(n, a * sx + b * sxx, sxy);
  }

  lemma CancelLeft(n: real, u: real, v: real)
    requires n != 0.0 && n * u == n * v
    ensures u == v
  {
  }

  lemma DegenerateFit(n: real, c: real, sx: real, sy: real, sxx: real, sxy: real)
    requires n > 0.0 && sx == Times(n, c) && sxx == Times(c, sx) && sxy == Times(c, sy)
    requires Times(n, sxx) - Times(sx, sx) == 0.0
    ensures var (a, b) := FitOf(n, sx, sy, sxx, sxy);
            sy == Times(n, a) + Times(b, sx) && sxy == Times(a, sx) + Times(b, sxx)
  {
    var k := 1.0 + Times(c, c);
    SquareSign(c);
    assert sx / n == c by { DivideBack(n, c, sx); }
    var a, b := (sy / n) / k, Times(c, sy / n) / k;
    hide Times;
    assert FitOf(n, sx, sy, sxx, sxy) == (a, b);
    hide *;
    DegenerateTimes(n, c, sx, sy, sxx, a, b, sy / n, k);
  }

  lemma DivideBack(n: real, c: real, sx: real)
    requires n > 0.0 && sx == Times(n, c)
    ensures sx / n == c
  {
    assert sx == c * n;
  }

  lemma DegenerateTimes(n: real, c: real, sx: real, sy: real, sxx: real, a: real, b: real, mean: real, k: real)
    requires n > 0.0 && k > 0.0 && k == 1.0 + Times(c, c) && mean == sy / n && a == mean / k && b == Times(c, mean) / k
    requires sx == Times(n, c) && sxx == Times(c, sx)
    ensures sy == Times(n, a) + Times(b, sx) && Times(c, sy) == Times(a, sx) + Times(b, sxx)
  {
    assert n * mean == sy && a * k == mean;
    DegenerateScalars(n, c, sx, sy, sxx, a, b, mean, k);
  }

  lemma DegenerateScalars(n: real, c: real, sx: real, sy: real, sxx: real, a: real, b: real, mean: real, k: real)
    requires k == 1.0 + c * c && k > 0.0 && n * mean == sy && a * k == mean && b == c * mean / k
    requires sx == n * c && sxx == c * sx
    ensures sy == n * a + b * sx && c * sy == a * sx + b * sxx
  {
    assert b == c * a by { assert b * k == c * mean == c * (a * k) == (c * a) * k; CancelLeft(k, b, c * a); }
    var ca := c * a;
    assert b * sx == ca * (n * c) == n * (ca * c);
    assert a * k == a + a * (c * c) == a + ca * c;
    assert n * (a * k) == n * a + n * (ca * c);
    assert b * sxx == b * (c * sx) == c * (b * sx);
    assert a * sx == a * (n * c) == c * (n * a);
    assert c * sy == c * (n * a + b * sx) == c * (n * a) + c * (b * sx);
  }

  /** Both normal equations hold, with or without spread in x. */
  lemma NormalEquations(s: set<int>, x: int -> real, y: int -> real)
    requires s != {}
    ensures var (a, b) := Line(s, x, y);
            && Sum(s, y) == Times(|s| as real, a) + Times(b, Sum(s, x))
            && Sum(s, Product(x, y)) == Times(a, Sum(s, x)) + Times(b, Sum(s, Product(x, x)))
  {
    hide Sum, Times, FitOf;
    var n := |s| as real;
    if Covariance(s, x, x) != 0.0 {
      RegularFit(n, Sum(s, x), Sum(s, y), Sum(s, Product(x, x)), Sum(s, Product(x, y)));
    } else {
      VarianceSign(s, x);
      ghost var some := Pick(s);
      ConstantSums(s, x, y, x(some));
      DegenerateFit(n, x(some), Sum(s, x), Sum(s, y), Sum(s, Product(x, x)), Sum(s, Product(x, y)));
    }
  }

  lemma {:induction false} ConstantSums(s: set<int>, x: int -> real, y: int -> real, c: real)
    requires forall k | k in s :: x(k) == c
    ensures Sum(s, x) == Times(|s| as real, c)
    ensures Sum(s, Product(x, x)) == Times(c, Sum(s, x))
    ensures Sum(s, Product(x, y)) == Times(c, Sum(s, y))
  {
    hide Sum;
    forall k: int | k in s ensures x(k) == c {
    }
    SumConst(s, c, x);
    forall k: int | k in s ensures Product(x, x)(k) == Times(c, x(k)) {
    }
    forall k: int | k in s ensures Product(x, y)(k) == Times(c, y(k)) {
    }
    hide Times;
    SumTimes(s, c, x, Product(x, x));
    SumTimes(s, c, y, Product(x, y));
  }

  /** How far each point lies above a line. */
  ghost function Miss(x: int -> real, y: int -> real, a: real, b: real): int -> real {
    k => y(k) - a - Times(b, x(k))
  }

  ghost function Squares(f: int -> real): int -> real {
    Product(f, f)
  }

  ghost function Scaled(c: real, f: int -> real): int -> real {
    k => Times(c, f(k))
  }

  ghost function Plus(f: int -> real, g: int -> real): int -> real {
    k => f(k) + g(k)
  }

  ghost function Const(c: real): int -> real {
    k => c
  }

  /** The residuals of the fitted line sum to nothing. */
  lemma ResidualsVanish(s: set<int>, x: int -> real, y: int -> real)
    requires s != {}
    ensures var (a, b) := Line(s, x, y); Sum(s, Miss(x, y, a, b)) == 0.0
  {
    hide Sum, Times, Line;
    var (a, b) := Line(s, x, y);
    NormalEquations(s, x, y);
    SumConst(s, -a, Const(-a));
    SumTimes(s, -b, x, Scaled(-b, x));
    SumPlus(s, y, Const(-a), Plus(y, Const(-a)));
    forall k: int | k in s ensures Miss(x, y, a, b)(k) == Plus(y, Const(-a))(k) + Scaled(-b, x)(k) {
      TimesNeg(b, x(k));
    }
    SumPlus(s, Plus(y, Const(-a)), Scaled(-b, x), Miss(x, y, a, b));
    TimesNeg(b, Sum(s, x));
    TimesNegConst(|s| as real, a);
  }

  /** Nor do they lean with x. */
  lemma WeightedResidualsVanish(s: set<int>, x: int -> real, y: int -> real)
    requires s != {}
    ensures var (a, b) := Line(s, x, y); Sum(s, Product(x, Miss(x, y, a, b))) == 0.0
  {
    hide Sum, Times, Line;
    var (a, b) := Line(s, x, y);
    NormalEquations(s, x, y);
    var xx, xy := Product(x, x), Product(x, y);
    SumTimes(s, -a, x, Scaled(-a, x));
    SumTimes(s, -b, xx, Scaled(-b, xx));
    SumPlus(s, xy, Scaled(-a, x), Plus(xy, Scaled(-a, x)));
    var r := Product(x, Miss(x, y, a, b));
    forall k: int | k in s ensures r(k) == Plus(xy, Scaled(-a, x))(k) + Scaled(-b, xx)(k) {
      TimesMiss(x(k), y(k), a, b);
    }
    SumPlus(s, Plus(xy, Scaled(-a, x)), Scaled(-b, xx), r);
    TimesNeg(a, Sum(s, x));
    TimesNeg(b, Sum(s, xx));
  }

  /** What another line adds to the squared distance of one point. */
  lemma OtherLine(x: real, y: real, a: real, b: real, p: real, q: real)
    ensures var r := y - a - Times(b, x);
            var t := y - p - Times(q, x);
            Times(t, t) >= Times(r, r) + (Times(2.0 * (a - p), r) + Times(2.0 * (b - q), Times(x, r)))
  {
    var r, e := y - a - b * x, (a - p) + (b - q) * x;
    assert y - p - q * x == r + e by { assert (b - q) * x == b * x - q * x; }
    SquareSign(e);
    OtherLineSquare(r, e, a - p, b - q, x);
  }

  lemma OtherLineSquare(r: real, e: real, f: real, g: real, x: real)
    requires e == f + g * x && e * e >= 0.0
    ensures (r + e) * (r + e) >= r * r + ((2.0 * f) * r + (2.0 * g) * (x * r))
  {
    assert (r + e) * (r + e) == r * r + 2.0 * (r * e) + e * e;
    assert r * e == f * r + g * (x * r) by { assert r * e == r * f + r * (g * x); }
  }

  /** Least squares: no other line leaves a smaller sum of squared residuals. */
  lemma NoLineFitsBetter(s: set<int>, x: int -> real, y: int -> real, p: real, q: real)
    requires s != {}
    ensures var (a, b) := Line(s, x, y);
            Sum(s, Squares(Miss(x, y, a, b))) <= Sum(s, Squares(Miss(x, y, p, q)))
  {
    hide Sum, Times, Line;
    var (a, b) := Line(s, x, y);
    var r := Miss(x, y, a, b);
    var f, g := Scaled(2.0 * (a - p), r), Scaled(2.0 * (b - q), Product(x, r));
    ResidualsVanish(s, x, y);
    WeightedResidualsVanish(s, x, y);
    SumTimes(s, 2.0 * (a - p), r, f);
    SumTimes(s, 2.0 * (b - q), Product(x, r), g);
    TimesZero(2.0 * (a - p));
    TimesZero(2.0 * (b - q));
    SumPlus(s, f, g, Plus(f, g));
    SumPlus(s, Squares(r), Plus(f, g), Plus(Squares(r), Plus(f, g)));
    var other := Miss(x, y, p, q);
    forall k: int | k in s ensures Plus(Squares(r), Plus(f, g))(k) <= Squares(other)(k) {
      OtherLine(x(k), y(k), a, b, p, q);
    }
    SumMonotone(s, Plus(Squares(r), Plus(f, g)), Squares(other));
  }

  /** Where all x are alike, every line through the mean fits as well; the one returned is the one of least norm. */
  lemma {:induction false} LeastNorm(s: set<int>, x: int -> real, y: int -> real, c: real, p: real, q: real)
    requires s != {} && forall m | m in s :: x(m) == c
    requires (p + q * c) * |s| as real == Sum(s, y)
    ensures var (a, b) := Line(s, x, y);
            a * a + b * b <= p * p + q * q
  {
    hide Sum, FitOf, Times;
    ConstantSums(s, x, y, c);
    var n, sx, sy := |s| as real, Sum(s, x), Sum(s, y);
    LeastNormScalars(n, c, sx, sy, Sum(s, Product(x, x)), Sum(s, Product(x, y)), p, q);
  }

  lemma LeastNormScalars(n: real, c: real, sx: real, sy: real, sxx: real, sxy: real, p: real, q: real)
    requires n > 0.0 && sx == Times(n, c) && sxx == Times(c, sx) && (p + q * c) * n == sy
    ensures var (a, b) := FitOf(n, sx, sy, sxx, sxy);
            a * a + b * b <= p * p + q * q
  {
    var mean := sy / n;
    assert mean == p + q * c by { DivideBack(n, p + q * c, sy); }
    DivideBack(n, c, sx);
    SameSquares(n, c, sx, sxx);
    assert Times(c, c) >= 0.0 by { SquareSign(c); }
    hide Times;
    var (a, b) := FitOf(n, sx, sy, sxx, sxy);
    LeastSquareNorm(c, mean, 1.0 + Times(c, c), p, q, a, b);
  }

  lemma SameSquares(n: real, c: real, sx: real, sxx: real)
    requires sx == Times(n, c) && sxx == Times(c, sx)
    ensures Times(n, sxx) == Times(sx, sx)
  {
    assert n * (c * sx) == (n * c) * sx;
  }

  lemma LeastSquareNorm(c: real, mean: real, k: real, p: real, q: real, a: real, b: real)
    requires k == 1.0 + Times(c, c) && k > 0.0 && mean == p + q * c && a == mean / k && b == Times(c, mean) / k
    ensures a * a + b * b <= p * p + q * q
  {
    assert a * k == mean && b == c * a by { OverK(c, mean, k, a, b); }
    var u := q - c * p;
    assert k * (p * p + q * q) == mean * mean + u * u by { BothSquares(c, p, q, mean, u, k); }
    assert k * (a * a + b * b) == mean * mean by { NormOf(c, a, b, k, mean); }
    SquareSign(u);
    CancelScaled(k, a * a + b * b, p * p + q * q);
  }

  lemma OverK(c: real, mean: real, k: real, a: real, b: real)
    requires k > 0.0 && a == mean / k && b == Times(c, mean) / k
    ensures a * k == mean && b == c * a
  {
    assert b * k == c * mean == (c * a) * k;
  }

  lemma BothSquares(c: real, p: real, q: real, mean: real, u: real, k: real)
    requires k == 1.0 + c * c && mean == p + q * c && u == q - c * p
    ensures k * (p * p + q * q) == mean * mean + u * u
  {
  }

  lemma NormOf(c: real, a: real, b: real, k: real, mean: real)
    requires k == 1.0 + c * c && a * k == mean && b == c * a
    ensures k * (a * a + b * b) == mean * mean
  {
    assert a * a + b * b == (a * a) * k;
    assert k * ((a * a) * k) == (a * k) * (a * k);
  }

  lemma CancelScaled(k: real, x: real, y: real)
    requires k > 0.0 && k * x <= k * y
    ensures x <= y
  {
  }

  lemma TimesNeg(c: real, t: real)
    ensures Times(-c, t) == -Times(c, t)
  {
  }

  lemma TimesNegConst(n: real, c: real)
    ensures n * -c == -Times(n, c)
  {
  }

  lemma TimesMiss(x: real, y: real, a: real, b: real)
    ensures Times(x, y - a - Times(b, x)) == Times(x, y) + Times(-a, x) + Times(-b, Times(x, x))
  {
    assert x * (y - a - b * x) == x * y - a * x - b * (x * x);
  }

  // ----- monthly totals

  function MonthsOf(days: set<int>): set<int> {
    set d | d in days :: MonthOf(d)
  }

  ghost function DaysIn(days: set<int>, month: int): set<int> {
    Fibre(days, MonthOf, month)
  }

  ghost predicate Totalled(monthly: Table, seen: set<int>, daily: Table) {
    forall m :: (m in monthly <==> DaysIn(seen, m) != {}) &&
                (m in monthly ==> monthly[m] == Sum(DaysIn(seen, m), At(daily)))
  }

  lemma TotalledNone(daily: Table)
    ensures Totalled(map[], {}, daily)
  {
  }

  lemma TotalledOneMore(monthly: Table, seen: set<int>, daily: Table, d: int)
    requires Totalled(monthly, seen, daily) && d !in seen && d in daily
    ensures var m := MonthOf(d);
            Totalled(monthly[m := At(monthly)(m) + daily[d]], seen + {d}, daily)
  {
    hide MonthOf, Sum;
    var month := MonthOf(d);
    forall m ensures DaysIn(seen + {d}, m) == if m == month then DaysIn(seen, m) + {d} else DaysIn(seen, m) {
    }
    SumEmpty(At(daily));
    SumAdd(DaysIn(seen, month), At(daily), d);
  }

  /** Daily numbers added up by calendar month, as for the degree days and for the power burn. */
  method MonthlyTotals(daily: Table) returns (monthly: Table)
    ensures Totalled(monthly, daily.Keys, daily)
  {
    hide Totalled;
    monthly := map[];
    var todo := daily.Keys;
    ghost var seen: set<int> := {};
    TotalledNone(daily);
    while todo != {}
      invariant todo <= daily.Keys && seen == daily.Keys - todo
      invariant Totalled(monthly, seen, daily)
      decreases todo
    {
      ghost var some := Pick(todo);
      var d :| d in todo;
      TotalledOneMore(monthly, seen, daily, d);
      var m := MonthOf(d);
      monthly := monthly[m := (if m in monthly then monthly[m] else 0.0) + daily[d]];
      todo := todo - {d};
      seen := seen + {d};
    }
    assert seen == daily.Keys;
  }

  ghost function Monthly(daily: Table): Table {
    map m | m in MonthsOf(daily.Keys) :: Sum(DaysIn(daily.Keys, m), At(daily))
  }

  lemma TotalledIsMonthly(monthly: Table, daily: Table)
    requires Totalled(monthly, daily.Keys, daily)
    ensures monthly == Monthly(daily)
  {
    hide Sum, MonthOf;
    forall m ensures m in MonthsOf(daily.Keys) <==> DaysIn(daily.Keys, m) != {} {
      MonthHasDays(daily.Keys, m);
    }
    MonthlyKeys(daily);
    hide MonthsOf, DaysIn;
    forall m ensures m in monthly.Keys <==> m in Monthly(daily).Keys {
      assert m in MonthsOf(daily.Keys) <==> DaysIn(daily.Keys, m) != {};
    }
    assert monthly.Keys == Monthly(daily).Keys;
    forall m | m in monthly ensures monthly[m] == Monthly(daily)[m] {
    }
  }

  lemma MonthHasDays(days: set<int>, m: int)
    ensures m in MonthsOf(days) <==> DaysIn(days, m) != {}
  {
    hide MonthOf;
    if d :| d in days && MonthOf(d) == m {
      assert d in DaysIn(days, m);
    }
  }

  // ----- the daily model

  /** One row of gas_demand_model, in GWh. */
  datatype DemandRow = DemandRow(heat: real, industrial: real)

  function Industrial(a: real, day: int): real {
    a / Calendar.MonthLength(MonthOf(day)) as real
  }

  function RowOf(a: real, b: real, day: int, hdd: real): DemandRow {
    DemandRow(Round1(Max0(Times(b, hdd))), Round1(Max0(Industrial(a, day))))
  }

  /** What the burn of power stations leaves of each month's total. */
  function Net(total: Table, powerMonthly: Table): Table {
    map m | m in total :: total[m] - At(powerMonthly)(m)
  }

  ghost function FitFor(hdd: Table, power: Table, total: Table): Fit {
    CalibrationOf(Net(total, Monthly(power)), Monthly(hdd))
  }

  lemma FitForIs(hdd: Table, power: Table, total: Table)
    ensures FitFor(hdd, power, total) == CalibrationOf(Net(total, Monthly(power)), Monthly(hdd))
  {
    hide CalibrationOf, Net, Monthly;
  }

  class DemandModel {
    var rows: map<int, DemandRow>

    constructor ()
      ensures rows == map[]
    {
      rows := map[];
    }

    /**
     `compute_demand` from the daily degree days on: `power` has the days whose measured burn is not null,
     `total` the monthly totals of Eurostat.
     */
    method ComputeDemand(hdd: Table, power: Table, total: Table) returns (fit: Fit)
      modifies this
      ensures fit == FitFor(hdd, power, total)
      ensures fit.TooFew? ==> rows == old(rows)
      ensures fit.Fit? ==>
        forall d :: (d in rows <==> d in old(rows) || d in hdd) &&
                    (d in rows ==> rows[d] == if d in hdd then RowOf(fit.a, fit.b, d, hdd[d]) else old(rows)[d])
    {
      hide *;
      var hddMonthly := MonthlyTotals(hdd);
      TotalledIsMonthly(hddMonthly, hdd);
      var powerMonthly := MonthlyTotals(power);
      TotalledIsMonthly(powerMonthly, power);
      fit := Calibrate(Net(total, powerMonthly), hddMonthly);
      FitForIs(hdd, power, total);
      if fit.TooFew? {
        return;
      }
      var todo := hdd.Keys;
      while todo != {}
        invariant todo <= hdd.Keys
        invariant forall d :: d in rows <==> d in old(rows) || d in hdd.Keys - todo
        invariant forall d | d in rows ::
          rows[d] == if d in hdd.Keys - todo then RowOf(fit.a, fit.b, d, hdd[d]) else old(rows)[d]
        decreases todo
      {
        ghost var some := Pick(todo);
        var d :| d in todo;
        rows := rows[d := RowOf(fit.a, fit.b, d, hdd[d])];
        todo := todo - {d};
      }
    }
  }

  predicate Near(x: real, y: real) {
    y - 0.05 <= x <= y + 0.05
  }

  /**
   A day's row, to one decimal: heating is the slope's share of the degree days and none without them; industry is the
   intercept spread over the month's days, whatever the weather; and neither is ever negative.
   */
  lemma RowMeans(a: real, b: real, day: int, hdd: real)
    ensures var row, n := RowOf(a, b, day, hdd), Calendar.MonthLength(MonthOf(day)) as real;
            && Near(row.heat, if b * hdd > 0.0 then b * hdd else 0.0) && (hdd == 0.0 ==> row.heat == 0.0)
            && (a > 0.0 ==> a - 0.05 * n <= row.industrial * n <= a + 0.05 * n) && (a <= 0.0 ==> row.industrial == 0.0)
            && (forall other :: RowOf(a, b, day, other).industrial == row.industrial)
  {
    hide MonthOf, Calendar.MonthLength;
    var n := Calendar.MonthLength(MonthOf(day)) as real;
    assert Round1(0.0) == 0.0;
    hide Round1;
    IndustrialScalars(a, Industrial(a, day), RowOf(a, b, day, hdd).industrial, n);
  }

  lemma IndustrialScalars(a: real, flat: real, r: real, n: real)
    requires n > 0.0 && flat == a / n && Near(r, if flat > 0.0 then flat else 0.0)
    ensures flat * n == a && (flat > 0.0 <==> a > 0.0)
    ensures a > 0.0 ==> a - 0.05 * n <= r * n <= a + 0.05 * n
  {
    assert flat * n == a;
    if flat > 0.0 {
      ProductPositive(flat, n);
      ScaledBetween(r, flat, 0.05, n);
    } else if flat < 0.0 {
      ProductPositive(-flat, n);
    }
  }

  // ----- summing back to Eurostat

  /** The model before clamping and rounding, with the measured power added back: what the balance calls demand. */
  ghost function Unclamped(a: real, b: real, hdd: Table, power: Table): int -> real {
    d => Times(b, At(hdd)(d)) + Industrial(a, d) + At(power)(d)
  }

  ghost function Clamped(a: real, b: real, hdd: Table, power: Table): int -> real {
    d => Max0(Times(b, At(hdd)(d))) + Max0(Industrial(a, d)) + At(power)(d)
  }

  ghost function Stored(a: real, b: real, hdd: Table, power: Table): int -> real {
    d => RowOf(a, b, d, At(hdd)(d)).heat + RowOf(a, b, d, At(hdd)(d)).industrial + At(power)(d)
  }

  /** The months the line was fitted on. */
  ghost function Calibration(hdd: Table, total: Table): set<int> {
    total.Keys * MonthsOf(hdd.Keys)
  }

  /** Every calendar day of the month has degree days. */
  ghost predicate Covered(hdd: Table, month: int) {
    month >= 12 && forall d | Calendar.MonthStart(month) <= d < Calendar.MonthStart(month + 1) :: d in hdd
  }

  /** The modelled days of a set of months. */
  ghost function DaysOf(days: set<int>, months: set<int>): set<int> {
    set d | d in days && MonthOf(d) in months
  }

  function Interval(lo: int, hi: int): (s: set<int>)
    requires lo <= hi
    ensures |s| == hi - lo
    ensures forall d :: d in s <==> lo <= d < hi
    decreases hi - lo
  {
    if lo == hi then {} else Interval(lo, hi - 1) + {hi - 1}
  }

  lemma NoMonthBeforeYearOne(month: int)
    requires month >= 12
    ensures Calendar.MonthStart(month) >= 0
  {
    Calendar.JanuaryFirst(1);
    hide Calendar.MonthStart;
    Calendar.MonthsAscend(12, month);
  }

  lemma CoveredDays(hdd: Table, month: int)
    requires Covered(hdd, month)
    ensures |DaysIn(hdd.Keys, month)| == Calendar.MonthLength(month)
    ensures forall d | MonthOf(d) == month :: d in hdd
  {
    hide Calendar.MonthStart, Calendar.MonthLength, Calendar.MonthOf, Interval;
    var lo, hi := Calendar.MonthStart(month), Calendar.MonthStart(month + 1);
    Calendar.MonthStep(month);
    NoMonthBeforeYearOne(month);
    forall d ensures d in DaysIn(hdd.Keys, month) <==> lo <= d < hi {
      if lo <= d < hi {
        Calendar.MonthOfIs(d, month);
      }
    }
    assert DaysIn(hdd.Keys, month) == Interval(lo, hi);
    forall d | MonthOf(d) == month ensures d in hdd {
      assert lo <= d < hi;
    }
  }

  /** Grouping the days of the calibration months by month. */
  lemma {:induction false} DaysByMonth(days: set<int>, months: set<int>, f: int -> real, total: int -> real)
    requires forall m | m in months :: total(m) == Sum(DaysIn(days, m), f)
    ensures Sum(DaysOf(days, months), f) == Sum(months, total)
  {
    hide MonthOf, Sum;
    forall m: int | m in months ensures total(m) == Sum(Fibre(DaysOf(days, months), MonthOf, m), f) {
      assert Fibre(DaysOf(days, months), MonthOf, m) == DaysIn(days, m);
    }
    SumByGroup(DaysOf(days, months), MonthOf, f, months, total);
  }

  ghost function Flat(a: real): int -> real {
    d => Industrial(a, d)
  }

  /** The flat part of a fully covered month is the whole intercept. */
  lemma IndustrialMonth(hdd: Table, a: real, month: int)
    requires Covered(hdd, month)
    ensures Sum(DaysIn(hdd.Keys, month), Flat(a)) == a
  {
    hide Sum, MonthOf, Covered, Calendar.MonthLength;
    CoveredDays(hdd, month);
    var n := Calendar.MonthLength(month) as real;
    forall d: int | d in DaysIn(hdd.Keys, month) ensures Flat(a)(d) == a / n {
      assert Flat(a)(d) == Industrial(a, d);
    }
    hide *;
    SumConst(DaysIn(hdd.Keys, month), a / n, Flat(a));
  }

  lemma HeatAdds(hdd: Table, months: set<int>, b: real)
    requires months <= MonthsOf(hdd.Keys)
    ensures Sum(DaysOf(hdd.Keys, months), Scaled(b, At(hdd))) == Times(b, Sum(months, At(Monthly(hdd))))
  {
    hide Sum, Times, MonthOf;
    forall m: int | m in months ensures At(Monthly(hdd))(m) == Sum(DaysIn(hdd.Keys, m), At(hdd)) {
    }
    DaysByMonth(hdd.Keys, months, At(hdd), At(Monthly(hdd)));
    SumTimes(DaysOf(hdd.Keys, months), b, At(hdd), Scaled(b, At(hdd)));
  }

  lemma {:induction false} IndustrialAdds(hdd: Table, months: set<int>, a: real)
    requires forall m | m in months :: Covered(hdd, m)
    ensures Sum(DaysOf(hdd.Keys, months), Flat(a)) == Times(|months| as real, a)
  {
    hide Sum, MonthOf, Covered, Flat;
    var f := Flat(a);
    forall m: int | m in months ensures Const(a)(m) == Sum(DaysIn(hdd.Keys, m), f) {
      IndustrialMonth(hdd, a, m);
    }
    DaysByMonth(hdd.Keys, months, f, Const(a));
    SumConst(months, a, Const(a));
  }

  /** On covered months the burn of the modelled days is all of it. */
  lemma {:induction false} PowerAdds(hdd: Table, power: Table, months: set<int>)
    requires forall m | m in months :: Covered(hdd, m)
    ensures Sum(DaysOf(hdd.Keys, months), At(power)) == Sum(months, At(Monthly(power)))
  {
    hide Sum, MonthOf, Covered;
    var days, burnt := DaysOf(hdd.Keys, months), DaysOf(power.Keys, months);
    forall d: int | d in burnt ensures d in days {
      CoveredDays(hdd, MonthOf(d));
    }
    SumSubset(days, burnt, At(power));
    forall m: int | m in months ensures At(Monthly(power))(m) == Sum(DaysIn(power.Keys, m), At(power)) {
      if m !in MonthsOf(power.Keys) {
        assert DaysIn(power.Keys, m) == {};
        SumEmpty(At(power));
      } else {
        assert m in Monthly(power);
      }
    }
    DaysByMonth(power.Keys, months, At(power), At(Monthly(power)));
  }

  lemma NetAdds(total: Table, power: Table, months: set<int>)
    requires months <= total.Keys
    ensures Sum(months, At(total)) == Sum(months, At(Net(total, Monthly(power)))) + Sum(months, At(Monthly(power)))
  {
    hide Sum, Monthly;
    forall m: int | m in months ensures At(total)(m) == At(Net(total, Monthly(power)))(m) + At(Monthly(power))(m) {
    }
    SumPlus(months, At(Net(total, Monthly(power))), At(Monthly(power)), At(total));
  }

  /**
   The consistency the module promises: over the calibration months the unclamped model adds up to the
   Eurostat totals exactly, whatever the data, once every day of those months is covered.
   */
  lemma {:induction false} SumsBack(hdd: Table, power: Table, total: Table)
    requires var fit := FitFor(hdd, power, total); fit.Fit?
    requires forall m | m in Calibration(hdd, total) :: Covered(hdd, m)
    ensures var fit := FitFor(hdd, power, total);
            var months := Calibration(hdd, total);
            Sum(DaysOf(hdd.Keys, months), Unclamped(fit.a, fit.b, hdd, power)) == Sum(months, At(total))
  {
    var fit, months, net := FitFor(hdd, power, total), Calibration(hdd, total), Net(total, Monthly(power));
    hide Sum, Times, MonthOf, Covered, Line, FitOf, Industrial, Monthly;
    assert net.Keys * Monthly(hdd).Keys == months by { MonthlyKeys(hdd); }
    assert months != {} && |months| == fit.n;
    NormalEquations(months, At(Monthly(hdd)), At(net));
    var days, heat, flat := DaysOf(hdd.Keys, months), Scaled(fit.b, At(hdd)), Flat(fit.a);
    HeatAdds(hdd, months, fit.b);
    IndustrialAdds(hdd, months, fit.a);
    PowerAdds(hdd, power, months);
    NetAdds(total, power, months);
    UnclampedSum(days, fit.a, fit.b, hdd, power);
  }

  lemma UnclampedSum(days: set<int>, a: real, b: real, hdd: Table, power: Table)
    ensures Sum(days, Unclamped(a, b, hdd, power))
         == Sum(days, Scaled(b, At(hdd))) + Sum(days, Flat(a)) + Sum(days, At(power))
  {
    hide Sum, Times, Industrial;
    var heat, flat := Scaled(b, At(hdd)), Flat(a);
    SumPlus(days, heat, flat, Plus(heat, flat));
    forall d: int | d in days ensures Unclamped(a, b, hdd, power)(d) == Plus(heat, flat)(d) + At(power)(d) {
      assert Plus(heat, flat)(d) == Times(b, At(hdd)(d)) + Industrial(a, d);
    }
    SumPlus(days, Plus(heat, flat), At(power), Unclamped(a, b, hdd, power));
  }

  lemma MonthlyKeys(daily: Table)
    ensures Monthly(daily).Keys == MonthsOf(daily.Keys)
  {
    hide Sum, MonthOf;
  }

  /** Sums of a function that is never below another are equal only when the two agree. */
  lemma {:induction false} NoGapNoDifference(s: set<int>, f: int -> real, g: int -> real)
    requires forall d | d in s :: f(d) <= g(d)
    ensures Sum(s, f) <= Sum(s, g)
    ensures Sum(s, f) == Sum(s, g) <==> forall d | d in s :: f(d) == g(d)
    decreases |s|
  {
    hide Sum;
    if s == {} {
      SumEmpty(f);
      SumEmpty(g);
    } else {
      var x := Pick(s);
      SumPick(s, f, x);
      SumPick(s, g, x);
      NoGapNoDifference(s - {x}, f, g);
    }
  }

  /** Whether a clamp takes effect on a day. */
  ghost predicate Unaffected(a: real, b: real, hdd: Table, d: int) {
    Times(b, At(hdd)(d)) >= 0.0 && a >= 0.0
  }

  /** With the clamps the model can only exceed the totals, and meets them exactly when no clamp takes effect. */
  lemma {:induction false} SumsBackUnlessClamped(hdd: Table, power: Table, total: Table)
    requires var fit := FitFor(hdd, power, total); fit.Fit?
    requires forall m | m in Calibration(hdd, total) :: Covered(hdd, m)
    ensures var fit := FitFor(hdd, power, total);
            var months := Calibration(hdd, total);
            var days := DaysOf(hdd.Keys, months);
            var modelled := Sum(days, Clamped(fit.a, fit.b, hdd, power));
            && modelled >= Sum(months, At(total))
            && (modelled == Sum(months, At(total)) <==> forall d | d in days :: Unaffected(fit.a, fit.b, hdd, d))
  {
    SumsBack(hdd, power, total);
    var fit := FitFor(hdd, power, total);
    hide Sum, Times, MonthOf, Covered, FitFor, MonthsOf, Calendar.MonthLength;
    var days := DaysOf(hdd.Keys, Calibration(hdd, total));
    var raw, clamped := Unclamped(fit.a, fit.b, hdd, power), Clamped(fit.a, fit.b, hdd, power);
    forall d: int | d in days
      ensures raw(d) <= clamped(d) && (raw(d) == clamped(d) <==> Unaffected(fit.a, fit.b, hdd, d))
    {
      ClampOnDay(fit.a, fit.b, hdd, power, d);
    }
    hide *;
    NoGapNoDifference(days, raw, clamped);
  }

  lemma ClampOnDay(a: real, b: real, hdd: Table, power: Table, d: int)
    ensures Unclamped(a, b, hdd, power)(d) <= Clamped(a, b, hdd, power)(d)
    ensures Unclamped(a, b, hdd, power)(d) == Clamped(a, b, hdd, power)(d) <==> Unaffected(a, b, hdd, d)
  {
    hide Times, Industrial;
    IndustrialSign(a, d);
    var heat, flat := Times(b, At(hdd)(d)), Industrial(a, d);
    assert Unclamped(a, b, hdd, power)(d) == heat + flat + At(power)(d);
    assert Clamped(a, b, hdd, power)(d) == Max0(heat) + Max0(flat) + At(power)(d);
  }

  lemma IndustrialSign(a: real, d: int)
    ensures Industrial(a, d) >= 0.0 <==> a >= 0.0
  {
    hide MonthOf;
    var n := Calendar.MonthLength(MonthOf(d)) as real;
    assert Industrial(a, d) * n == a;
  }

  /** Storing heat and industrial demand to one decimal moves a day by at most 0.1 GWh, 0.05 for each. */
  lemma StoredWithinRounding(hdd: Table, power: Table, a: real, b: real, days: set<int>)
    ensures var exact, stored := Sum(days, Clamped(a, b, hdd, power)), Sum(days, Stored(a, b, hdd, power));
            exact - 0.1 * |days| as real <= stored <= exact + 0.1 * |days| as real
  {
    hide Sum, Times, Industrial, Max0, Round1;
    var exact, stored := Clamped(a, b, hdd, power), Stored(a, b, hdd, power);
    SumConst(days, 0.1, Const(0.1));
    SumPlus(days, exact, Const(0.1), Plus(exact, Const(0.1)));
    SumPlus(days, stored, Const(0.1), Plus(stored, Const(0.1)));
    forall d: int | d in days
      ensures stored(d) <= Plus(exact, Const(0.1))(d) && exact(d) <= Plus(stored, Const(0.1))(d)
    {
      var heat, flat := Max0(Times(b, At(hdd)(d))), Max0(Industrial(a, d));
      assert exact(d) == heat + flat + At(power)(d);
      assert stored(d) == Round1(heat) + Round1(flat) + At(power)(d);
    }
    SumMonotone(days, stored, Plus(exact, Const(0.1)));
    SumMonotone(days, exact, Plus(stored, Const(0.1)));
  }

  // ----- a clamp at work

  function DaysOfSix(m0: int): (days: set<int>)
    ensures forall d :: d in days <==> Calendar.MonthStart(m0) <= d < Calendar.MonthStart(m0 + 6)
  {
    Calendar.MonthsAscend(m0, m0 + 6);
    Interval(Calendar.MonthStart(m0), Calendar.MonthStart(m0 + 6))
  }

  /** Six months whose degree days rise from 0 to 5, each spread evenly over its days. */
  function RisingHdd(m0: int): Table
    requires m0 >= 12
  {
    map d | d in DaysOfSix(m0) ::
      (MonthOf(d) - m0) as real / Calendar.MonthLength(MonthOf(d)) as real
  }

  /** Consumption that falls as the degree days rise. */
  function FallingTotals(m0: int): Table {
    var months := Interval(m0, m0 + 6);
    map m | m in months :: (10 - (m - m0)) as real
  }

  lemma RisingDays(m0: int, d: int)
    requires m0 >= 12
    ensures d in RisingHdd(m0) <==> m0 <= MonthOf(d) < m0 + 6
    ensures d in RisingHdd(m0) ==>
              RisingHdd(m0)[d] == (MonthOf(d) - m0) as real / Calendar.MonthLength(MonthOf(d)) as real
  {
    hide Calendar.MonthStart, Calendar.MonthLength, Calendar.MonthOf, DaysOfSix;
    SixMonths(m0, d);
  }

  lemma SixMonths(m0: int, d: int)
    requires m0 >= 12
    ensures Calendar.MonthStart(m0) <= d < Calendar.MonthStart(m0 + 6) <==> m0 <= MonthOf(d) < m0 + 6
  {
    hide Calendar.MonthStart, Calendar.MonthOf;
    NoMonthBeforeYearOne(m0);
    if d >= 0 {
      var k := MonthOf(d);
      if k < m0 {
        Calendar.MonthsAscend(k + 1, m0);
      } else {
        Calendar.MonthsAscend(m0, k);
      }
      if k < m0 + 6 {
        Calendar.MonthsAscend(k + 1, m0 + 6);
      } else {
        Calendar.MonthsAscend(m0 + 6, k);
      }
    }
  }

  lemma RisingMonth(m0: int, m: int)
    requires m0 >= 12 && m0 <= m < m0 + 6
    ensures Covered(RisingHdd(m0), m) && m in MonthsOf(RisingHdd(m0).Keys)
    ensures MonthOf(Calendar.MonthStart(m)) == m
  {
    hide Calendar.MonthStart, Calendar.MonthLength, Calendar.MonthOf, RisingHdd;
    NoMonthBeforeYearOne(m);
    Calendar.MonthsAscend(m, m + 1);
    forall d | Calendar.MonthStart(m) <= d < Calendar.MonthStart(m + 1) ensures MonthOf(d) == m && d in RisingHdd(m0) {
      Calendar.MonthOfIs(d, m);
      RisingDays(m0, d);
    }
    var first := Calendar.MonthStart(m);
    assert MonthOf(first) == m && first in RisingHdd(m0).Keys;
  }

  /** The month m0 + i has i degree days. */
  lemma RisingMonthly(m0: int, m: int)
    requires m0 >= 12 && m0 <= m < m0 + 6
    ensures At(Monthly(RisingHdd(m0)))(m) == (m - m0) as real
  {
    hide Sum, RisingHdd, Calendar.MonthLength, MonthOf, Covered;
    RisingMonth(m0, m);
    var hdd, n := RisingHdd(m0), Calendar.MonthLength(m) as real;
    var each := (m - m0) as real / n;
    CoveredDays(hdd, m);
    var days := DaysIn(hdd.Keys, m);
    forall d: int | d in days ensures At(hdd)(d) == each {
      RisingDays(m0, d);
    }
    hide *;
    SumConst(days, each, At(hdd));
    OverTimes((m - m0) as real, n);
  }

  lemma OverTimes(x: real, n: real)
    requires n > 0.0
    ensures n * (x / n) == x
  {
  }

  lemma SixSum(m0: int, f: int -> real)
    ensures Sum(Interval(m0, m0 + 6), f) == f(m0) + f(m0 + 1) + f(m0 + 2) + f(m0 + 3) + f(m0 + 4) + f(m0 + 5)
  {
    NextSum(m0, m0 + 5, f);
    NextSum(m0, m0 + 4, f);
    NextSum(m0, m0 + 3, f);
    NextSum(m0, m0 + 2, f);
    NextSum(m0, m0 + 1, f);
    NextSum(m0, m0, f);
    SumEmpty(f);
    hide Sum;
    assert Interval(m0, m0) == {};
  }

  lemma NextSum(lo: int, hi: int, f: int -> real)
    requires lo <= hi
    ensures Sum(Interval(lo, hi + 1), f) == Sum(Interval(lo, hi), f) + f(hi)
  {
    hide Sum;
    SumAdd(Interval(lo, hi), f, hi);
  }

  lemma FallingMonths(m0: int)
    requires m0 >= 12
    ensures Calibration(RisingHdd(m0), FallingTotals(m0)) == Interval(m0, m0 + 6)
    ensures Net(FallingTotals(m0), Monthly(map[])).Keys * Monthly(RisingHdd(m0)).Keys == Interval(m0, m0 + 6)
  {
    hide Sum, RisingHdd, MonthOf, Monthly, Covered, Interval;
    MonthlyKeys(RisingHdd(m0));
    forall m | m in Interval(m0, m0 + 6) ensures m in MonthsOf(RisingHdd(m0).Keys) {
      RisingMonth(m0, m);
    }
  }

  lemma FallingPoints(m0: int, m: int)
    requires m0 >= 12 && m0 <= m < m0 + 6
    ensures At(Monthly(RisingHdd(m0)))(m) == (m - m0) as real
    ensures At(Net(FallingTotals(m0), Monthly(map[])))(m) == (10 - (m - m0)) as real
  {
    hide Sum, RisingHdd, MonthOf, Monthly, Interval;
    RisingMonthly(m0, m);
    MonthlyKeys(map[]);
    assert Monthly(map[]).Keys == {};
  }

  /** The line through those six months falls by one for each degree day. */
  lemma FallingFit(m0: int)
    requires m0 >= 12
    ensures FitFor(RisingHdd(m0), map[], FallingTotals(m0)) == Fit(10.0, -1.0, 6)
  {
    hide Sum, RisingHdd, FallingTotals, MonthOf, FitOf, Monthly, Times, Net, At, Interval, Product;
    var hdd, total, months := RisingHdd(m0), FallingTotals(m0), Interval(m0, m0 + 6);
    var x, y := At(Monthly(hdd)), At(Net(total, Monthly(map[])));
    FallingMonths(m0);
    forall m | m0 <= m < m0 + 6 ensures x(m) == (m - m0) as real && y(m) == (10 - (m - m0)) as real {
      FallingPoints(m0, m);
    }
    FallingSums(m0, x, y);
    FallingLine();
  }

  lemma {:induction false} FallingSums(m0: int, x: int -> real, y: int -> real)
    requires forall m | m0 <= m < m0 + 6 :: x(m) == (m - m0) as real && y(m) == (10 - (m - m0)) as real
    ensures var s := Interval(m0, m0 + 6);
            Sum(s, x) == 15.0 && Sum(s, y) == 45.0 && Sum(s, Product(x, x)) == 55.0 && Sum(s, Product(x, y)) == 95.0
  {
    hide Sum, Interval;
    SixSum(m0, x);
    SixSum(m0, y);
    SixSum(m0, Product(x, x));
    SixSum(m0, Product(x, y));
  }

  lemma FallingLine()
    ensures FitOf(6.0, 15.0, 45.0, 55.0, 95.0) == (10.0, -1.0)
  {
  }

  /** A clamp does take effect: with these data the model exceeds the Eurostat totals. */
  lemma ClampTakesEffect(m0: int)
    requires m0 >= 12
    ensures var hdd, total := RisingHdd(m0), FallingTotals(m0);
            var fit, months := FitFor(hdd, map[], total), Calibration(hdd, total);
            && fit.Fit? && (forall m | m in months :: Covered(hdd, m))
            && Sum(DaysOf(hdd.Keys, months), Clamped(fit.a, fit.b, hdd, map[])) > Sum(months, At(total))
  {
    hide Sum, RisingHdd, FallingTotals, MonthOf, Covered, FitFor, Calibration, Clamped, Times, Calendar.MonthStart,
      Calendar.MonthLength;
    var hdd, total := RisingHdd(m0), FallingTotals(m0);
    FallingFit(m0);
    FallingMonths(m0);
    forall m | m in Interval(m0, m0 + 6) ensures Covered(hdd, m) {
      RisingMonth(m0, m);
    }
    SumsBackUnlessClamped(hdd, map[], total);
    var d := Calendar.MonthStart(m0 + 1);
    RisingMonth(m0, m0 + 1);
    RisingDays(m0, d);
    ClampedDay(hdd, d, Calendar.MonthLength(m0 + 1) as real);
    assert d in DaysOf(hdd.Keys, Calibration(hdd, total));
  }

  lemma ClampedDay(hdd: Table, d: int, n: real)
    requires d in hdd && n > 0.0 && hdd[d] == 1.0 / n
    ensures !Unaffected(10.0, -1.0, hdd, d)
  {
  }
}
