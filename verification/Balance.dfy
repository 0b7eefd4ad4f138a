/**
 The residual engine of the gas balance: the residual of each computable day, its trailing mean, its deviation from
 the trailing history, and the WATCH/SIGNAL flags. A z-score is kept as a pair (difference, variance), so that
 comparing it with k compares the squared difference with k * k times the variance and no root is taken.
 */
module Balance {
  import opened Options
  import opened FiniteSums
  import opened Rounding
  import opened Ascending
  import Supply

  const SMOOTH_WINDOW := 7
  const Z_LOOKBACK := 90
  const Z_MIN_HISTORY := 30
  const SIGNAL_RUN := 3

  /** (x - mean) / std, with std squared instead. */
  datatype Deviation = Deviation(diff: real, variance: real)

  /** |z| >= k. */
  predicate AtLeast(z: Deviation, k: real) {
    Times(z.diff, z.diff) >= k * k * z.variance
  }

  datatype Level = Watch | Signal
  datatype Component = SupplyIn | Demand | Exports
  datatype Mover = Mover(component: Component, up: bool)
  datatype Flag = Flag(level: Level, mover: Mover)

  datatype Row = Row(date: int, supply: real, demand: real, exports: real, implied: real, actual: real,
                     residual: real, residual7d: Option<real>, z: Option<Deviation>, flag: Option<Flag>)

  // ----- trailing statistics

  function Mean(s: seq<real>): real
    requires s != []
  {
    SeqSum(s) / |s| as real
  }

  function SquareSum(s: seq<real>, mu: real): real {
    if s == [] then 0.0 else Times(s[0] - mu, s[0] - mu) + SquareSum(s[1..], mu)
  }

  /** numpy's `std` squared: the population variance. */
  function Variance(s: seq<real>): real
    requires s != []
  {
    SquareSum(s, Mean(s)) / |s| as real
  }

  /** The seven-day trailing mean. */
  function R7(resid: seq<real>, i: nat): Option<real>
    requires i < |resid|
  {
    if i + 1 >= SMOOTH_WINDOW then Some(Mean(resid[i - SMOOTH_WINDOW + 1..i + 1])) else None
  }

  /** The defined trailing means of days lo to i, i excluded. */
  function History(resid: seq<real>, lo: nat, i: nat): seq<real>
    requires lo <= i <= |resid|
  {
    if lo == i then []
    else
      var r := R7(resid, i - 1);
      History(resid, lo, i - 1) + if r.Some? then [r.value] else []
  }

  function Lookback(i: nat): (lo: nat)
    ensures lo <= i
  {
    if i < Z_LOOKBACK then 0 else i - Z_LOOKBACK
  }

  function DeviationFrom(x: real, hist: seq<real>, least: nat): Option<Deviation> {
    if |hist| >= least && hist != [] && Variance(hist) > 0.0 then Some(Deviation(x - Mean(hist), Variance(hist))) else None
  }

  /** The deviation of the trailing mean from the ninety before it. */
  function Z(resid: seq<real>, i: nat): Option<Deviation>
    requires i < |resid|
  {
    var r := R7(resid, i);
    if r.None? then None else DeviationFrom(r.value, History(resid, Lookback(i), i), Z_MIN_HISTORY)
  }

  /** |z| >= k on day i. */
  predicate Exceeds(resid: seq<real>, i: nat, k: real)
    requires i < |resid|
  {
    Z(resid, i).Some? && AtLeast(Z(resid, i).value, k)
  }

  // ----- attribution

  datatype Best = Best(dev: Deviation, mover: Mover)

  /** |d| > |e|, in standard deviations. */
  predicate Larger(d: Deviation, e: Deviation) {
    Times(Times(d.diff, d.diff), e.variance) > Times(Times(e.diff, e.diff), d.variance)
  }

  /** A component's deviation from its trailing seven days. */
  function ComponentDev(series: seq<real>, i: nat): Option<Deviation>
    requires i < |series|
  {
    DeviationFrom(series[i], series[if i < SMOOTH_WINDOW then 0 else i - SMOOTH_WINDOW..i], 3)
  }

  function Consider(best: Best, dev: Option<Deviation>, component: Component): Best {
    if dev.Some? && Larger(dev.value, best.dev) then Best(dev.value, Mover(component, dev.value.diff >= 0.0)) else best
  }

  /** Supply upwards, unless a component deviates. */
  function NoMover(): Best {
    Best(Deviation(0.0, 1.0), Mover(SupplyIn, true))
  }

  function BestMover(s: Option<Deviation>, d: Option<Deviation>, e: Option<Deviation>): Best {
    Consider(Consider(Consider(NoMover(), s, SupplyIn), d, Demand), e, Exports)
  }

  function DominantMover(rows: seq<Row>, i: nat): Mover
    requires i < |rows|
  {
    BestMover(ComponentDev(Column(rows, SupplyIn), i), ComponentDev(Column(rows, Demand), i),
              ComponentDev(Column(rows, Exports), i)).mover
  }

  function ValueOf(row: Row, component: Component): real {
    match component
    case SupplyIn => row.supply
    case Demand => row.demand
    case Exports => row.exports
  }

  function Column(rows: seq<Row>, component: Component): (s: seq<real>)
    ensures |s| == |rows|
  {
    seq(|rows|, i requires 0 <= i < |rows| => ValueOf(rows[i], component))
  }

  function Residuals(rows: seq<Row>): (s: seq<real>)
    ensures |s| == |rows|
  {
    seq(|rows|, i requires 0 <= i < |rows| => rows[i].residual)
  }

  // ----- the flag automaton

  /** `signal_run` after the first n days. */
  function Run(resid: seq<real>, n: nat): nat
    requires n <= |resid|
  {
    if n == 0 || !Exceeds(resid, n - 1, 2.0) then 0
    else if Exceeds(resid, n - 1, 3.0) then Run(resid, n - 1) + 1
    else 0
  }

  function FlagOf(rows: seq<Row>, i: nat): Option<Flag>
    requires i < |rows|
  {
    var resid := Residuals(rows);
    if !Exceeds(resid, i, 2.0) then None
    else Some(Flag(if Run(resid, i + 1) >= SIGNAL_RUN then Signal else Watch, DominantMover(rows, i)))
  }

  function RoundedMean(r: Option<real>): Option<real> {
    if r.Some? then Some(Round1(r.value)) else None
  }

  function FinalRow(rows: seq<Row>, i: nat): Row
    requires i < |rows|
  {
    rows[i].(residual7d := RoundedMean(R7(Residuals(rows), i)), z := Z(Residuals(rows), i), flag := FlagOf(rows, i))
  }

  method TrailingMeans(resid: seq<real>) returns (r7: array<Option<real>>)
    ensures fresh(r7) && r7.Length == |resid|
    ensures forall i | 0 <= i < |resid| :: r7[i] == R7(resid, i)
  {
    hide Mean;
    r7 := new Option<real>[|resid|](_ => None);
    for i := 0 to |resid|
      invariant forall j | 0 <= j < i :: r7[j] == R7(resid, j)
      invariant forall j | i <= j < |resid| :: r7[j] == None
    {
      if i + 1 >= SMOOTH_WINDOW {
        r7[i] := Some(Mean(resid[i - SMOOTH_WINDOW + 1..i + 1]));
      }
    }
  }

  /** The slice of the trailing means, without the undefined ones. */
  method Defined(r7: array<Option<real>>, ghost resid: seq<real>, lo: nat, i: nat) returns (hist: seq<real>)
    requires lo <= i <= r7.Length == |resid| && forall j | 0 <= j < |resid| :: r7[j] == R7(resid, j)
    ensures hist == History(resid, lo, i)
  {
    hide R7;
    hist := [];
    for j := lo to i
      invariant hist == History(resid, lo, j)
    {
      if r7[j].Some? {
        hist := hist + [r7[j].value];
      }
    }
  }

  method ZScores(r7: array<Option<real>>, ghost resid: seq<real>) returns (z: array<Option<Deviation>>)
    requires r7.Length == |resid| && forall j | 0 <= j < |resid| :: r7[j] == R7(resid, j)
    ensures fresh(z) && z.Length == |resid|
    ensures forall i | 0 <= i < |resid| :: z[i] == Z(resid, i)
  {
    hide R7, Mean, Variance, History;
    z := new Option<Deviation>[r7.Length](_ => None);
    for i := 0 to r7.Length
      invariant forall j | 0 <= j < i :: z[j] == Z(resid, j)
      invariant forall j | i <= j < |resid| :: z[j] == None
      invariant forall j | 0 <= j < |resid| :: r7[j] == R7(resid, j)
    {
      if r7[i].None? {
        continue;
      }
      var lo := if i < Z_LOOKBACK then 0 else i - Z_LOOKBACK;
      var hist := Defined(r7, resid, lo, i);
      if |hist| >= Z_MIN_HISTORY {
        var mu, v := Mean(hist), Variance(hist);
        if v > 0.0 {
          z[i] := Some(Deviation(r7[i].value - mu, v));
        }
      }
    }
  }

  /** Fills in the smoothed residual, the z-score and the flag of every row, in place. */
  method AddSmoothingAndFlags(rows: array<Row>)
    modifies rows
    ensures forall i | 0 <= i < rows.Length :: rows[i] == FinalRow(old(rows[..]), i)
  {
    hide R7, Z, AtLeast, DominantMover, RoundedMean;
    ghost var was := rows[..];
    var resid := Residuals(rows[..]);
    var r7 := TrailingMeans(resid);
    var z := ZScores(r7, resid);
    var comps := rows[..];
    var signalRun: nat := 0;
    for i := 0 to rows.Length
      invariant signalRun == Run(resid, i)
      invariant forall j | 0 <= j < i :: rows[j] == FinalRow(was, j)
      invariant forall j | i <= j < rows.Length :: rows[j] == was[j]
      invariant forall j | 0 <= j < |resid| :: r7[j] == R7(resid, j) && z[j] == Z(resid, j)
    {
      var zi := z[i];
      var r := rows[i].(residual7d := RoundedMean(r7[i]), z := zi);
      if zi.None? || !AtLeast(zi.value, 2.0) {
        signalRun := 0;
        rows[i] := r.(flag := None);
        continue;
      }
      signalRun := if AtLeast(zi.value, 3.0) then signalRun + 1 else 0;
      var level := if signalRun >= SIGNAL_RUN then Signal else Watch;
      rows[i] := r.(flag := Some(Flag(level, DominantMover(comps, i))));
    }
  }

  // ----- a constant offset is absorbed

  /** t is s with c added throughout. */
  ghost predicate Shifted(s: seq<real>, t: seq<real>, c: real) {
    |s| == |t| && forall i | 0 <= i < |s| :: t[i] == s[i] + c
  }

  lemma {:induction false} SumShifts(s: seq<real>, t: seq<real>, c: real)
    requires Shifted(s, t, c)
    ensures SeqSum(t) == SeqSum(s) + |s| as real * c
  {
    if s != [] {
      SumShifts(s[1..], t[1..], c);
      var n := |s[1..]| as real;
      assert |s| as real * c == n * c + c;
    }
  }

  lemma MeanShifts(s: seq<real>, t: seq<real>, c: real)
    requires Shifted(s, t, c) && s != []
    ensures Mean(t) == Mean(s) + c
  {
    hide SeqSum;
    SumShifts(s, t, c);
    QuotientShifts(SeqSum(s), SeqSum(t), |s| as real, c);
  }

  lemma QuotientShifts(a: real, b: real, n: real, c: real)
    requires n > 0.0 && b == a + n * c
    ensures b / n == a / n + c
  {
    assert b == (a / n + c) * n;
  }

  lemma {:induction false} SquareSumShifts(s: seq<real>, t: seq<real>, c: real, mu: real)
    requires Shifted(s, t, c)
    ensures SquareSum(t, mu + c) == SquareSum(s, mu)
  {
    hide Times;
    if s != [] {
      SquareSumShifts(s[1..], t[1..], c, mu);
      assert t[0] - (mu + c) == s[0] - mu;
    }
  }

  lemma VarianceKeeps(s: seq<real>, t: seq<real>, c: real)
    requires Shifted(s, t, c) && s != []
    ensures Variance(t) == Variance(s)
  {
    hide SquareSum, Mean;
    MeanShifts(s, t, c);
    SquareSumShifts(s, t, c, Mean(s));
  }

  lemma DeviationKeeps(x: real, hist: seq<real>, y: real, other: seq<real>, c: real, least: nat)
    requires Shifted(hist, other, c) && y == x + c
    ensures DeviationFrom(y, other, least) == DeviationFrom(x, hist, least)
  {
    hide Variance, Mean;
    if hist != [] {
      MeanShifts(hist, other, c);
      VarianceKeeps(hist, other, c);
    }
  }

  lemma R7Shifts(s: seq<real>, t: seq<real>, c: real, i: nat)
    requires Shifted(s, t, c) && i < |s|
    ensures R7(t, i).Some? <==> R7(s, i).Some?
    ensures R7(s, i).Some? ==> R7(t, i).value == R7(s, i).value + c
  {
    hide Mean;
    if i + 1 >= SMOOTH_WINDOW {
      MeanShifts(s[i - SMOOTH_WINDOW + 1..i + 1], t[i - SMOOTH_WINDOW + 1..i + 1], c);
    }
  }

  lemma {:induction false} HistoryShifts(s: seq<real>, t: seq<real>, c: real, lo: nat, i: nat)
    requires Shifted(s, t, c) && lo <= i <= |s|
    ensures Shifted(History(s, lo, i), History(t, lo, i), c)
  {
    hide R7;
    if lo < i {
      HistoryShifts(s, t, c, lo, i - 1);
      R7Shifts(s, t, c, i - 1);
    }
  }

  lemma ZKeeps(s: seq<real>, t: seq<real>, c: real, i: nat)
    requires Shifted(s, t, c) && i < |s|
    ensures Z(t, i) == Z(s, i)
  {
    hide R7, History, DeviationFrom;
    R7Shifts(s, t, c, i);
    HistoryShifts(s, t, c, Lookback(i), i);
    if R7(s, i).Some? {
      DeviationKeeps(R7(s, i).value, History(s, Lookback(i), i), R7(t, i).value, History(t, Lookback(i), i), c, Z_MIN_HISTORY);
    }
  }

  lemma {:induction false} RunKeeps(s: seq<real>, t: seq<real>, c: real, n: nat)
    requires Shifted(s, t, c) && n <= |s|
    ensures Run(t, n) == Run(s, n)
  {
    hide Z, AtLeast;
    if n > 0 {
      ZKeeps(s, t, c, n - 1);
      RunKeeps(s, t, c, n - 1);
    }
  }

  lemma ComponentKeeps(s: seq<real>, t: seq<real>, c: real, i: nat)
    requires Shifted(s, t, c) && i < |s|
    ensures ComponentDev(t, i) == ComponentDev(s, i)
  {
    hide DeviationFrom;
    var lo := if i < SMOOTH_WINDOW then 0 else i - SMOOTH_WINDOW;
    DeviationKeeps(s[i], s[lo..i], t[i], t[lo..i], c, 3);
  }

  /** The same days, each column moved by its own constant. */
  ghost predicate Offset(rows: seq<Row>, other: seq<Row>, residual: real, supply: real, demand: real, exports: real) {
    && Shifted(Residuals(rows), Residuals(other), residual)
    && Shifted(Column(rows, SupplyIn), Column(other, SupplyIn), supply)
    && Shifted(Column(rows, Demand), Column(other, Demand), demand)
    && Shifted(Column(rows, Exports), Column(other, Exports), exports)
  }

  /**
   The module's claim about a constant production offset: constants added to the residuals and to the
   components change no z-score, no flag, and not even the component a flag names.
   */
  lemma OffsetsAreAbsorbed(rows: seq<Row>, other: seq<Row>, i: nat,
                           residual: real, supply: real, demand: real, exports: real)
    requires Offset(rows, other, residual, supply, demand, exports) && i < |rows|
    ensures FinalRow(other, i).z == FinalRow(rows, i).z && FinalRow(other, i).flag == FinalRow(rows, i).flag
  {
    hide Z, AtLeast, Run, ComponentDev, BestMover, R7, Residuals, Column;
    ZKeeps(Residuals(rows), Residuals(other), residual, i);
    RunKeeps(Residuals(rows), Residuals(other), residual, i + 1);
    ComponentKeeps(Column(rows, SupplyIn), Column(other, SupplyIn), supply, i);
    ComponentKeeps(Column(rows, Demand), Column(other, Demand), demand, i);
    ComponentKeeps(Column(rows, Exports), Column(other, Exports), exports, i);
  }

  // ----- later days change nothing

  lemma R7Stable(s: seq<real>, t: seq<real>, i: nat)
    requires s <= t && i < |s|
    ensures R7(t, i) == R7(s, i)
  {
    hide Mean;
    if i + 1 >= SMOOTH_WINDOW {
      assert t[i - SMOOTH_WINDOW + 1..i + 1] == s[i - SMOOTH_WINDOW + 1..i + 1];
    }
  }

  lemma {:induction false} HistoryStable(s: seq<real>, t: seq<real>, lo: nat, i: nat)
    requires s <= t && lo <= i <= |s|
    ensures History(t, lo, i) == History(s, lo, i)
  {
    hide R7;
    if lo < i {
      HistoryStable(s, t, lo, i - 1);
      R7Stable(s, t, i - 1);
    }
  }

  lemma ZStable(s: seq<real>, t: seq<real>, i: nat)
    requires s <= t && i < |s|
    ensures Z(t, i) == Z(s, i)
  {
    hide R7, History, DeviationFrom;
    R7Stable(s, t, i);
    HistoryStable(s, t, Lookback(i), i);
  }

  lemma {:induction false} RunStable(s: seq<real>, t: seq<real>, n: nat)
    requires s <= t && n <= |s|
    ensures Run(t, n) == Run(s, n)
  {
    hide Z, AtLeast;
    if n > 0 {
      ZStable(s, t, n - 1);
      RunStable(s, t, n - 1);
    }
  }

  lemma ComponentStable(s: seq<real>, t: seq<real>, i: nat)
    requires s <= t && i < |s|
    ensures ComponentDev(t, i) == ComponentDev(s, i)
  {
    hide DeviationFrom;
    var lo := if i < SMOOTH_WINDOW then 0 else i - SMOOTH_WINDOW;
    assert t[lo..i] == s[lo..i];
  }

  lemma ColumnsStable(rows: seq<Row>, longer: seq<Row>)
    requires rows <= longer
    ensures Residuals(rows) <= Residuals(longer)
    ensures forall c :: Column(rows, c) <= Column(longer, c)
  {
  }

  /** What is written for a day depends on no later day: appending days changes no earlier row. */
  lemma LaterDaysChangeNothing(rows: seq<Row>, longer: seq<Row>, i: nat)
    requires rows <= longer && i < |rows|
    ensures FinalRow(longer, i) == FinalRow(rows, i)
  {
    hide Z, AtLeast, Run, ComponentDev, BestMover, R7, Residuals, Column;
    ColumnsStable(rows, longer);
    R7Stable(Residuals(rows), Residuals(longer), i);
    ZStable(Residuals(rows), Residuals(longer), i);
    RunStable(Residuals(rows), Residuals(longer), i + 1);
    ComponentStable(Column(rows, SupplyIn), Column(longer, SupplyIn), i);
    ComponentStable(Column(rows, Demand), Column(longer, Demand), i);
    ComponentStable(Column(rows, Exports), Column(longer, Exports), i);
  }

  // ----- what the flags mean

  lemma ThreeIsTwo(z: Deviation)
    requires z.variance > 0.0 && AtLeast(z, 3.0)
    ensures AtLeast(z, 2.0)
  {
  }

  lemma ZHasVariance(resid: seq<real>, i: nat)
    requires i < |resid| && Z(resid, i).Some?
    ensures Z(resid, i).value.variance > 0.0
  {
    hide R7, History, Mean, Variance;
  }

  /** The run counts the days in a row, up to the last, with |z| of three or more. */
  lemma {:induction false} RunCounts(resid: seq<real>, n: nat, k: nat)
    requires n <= |resid|
    ensures Run(resid, n) >= k <==> k <= n && forall j | n - k <= j < n :: Exceeds(resid, j, 3.0)
  {
    hide Z, AtLeast;
    if n > 0 && k > 0 {
      RunCounts(resid, n - 1, k - 1);
      if Exceeds(resid, n - 1, 3.0) {
        ZHasVariance(resid, n - 1);
        ThreeIsTwo(Z(resid, n - 1).value);
      }
    }
  }

  ghost predicate Signals(rows: seq<Row>, i: nat)
    requires i < |rows|
  {
    var flag := FinalRow(rows, i).flag;
    flag.Some? && flag.value.level == Signal
  }

  /**
   A flag stands exactly where there is a z-score of two or more in magnitude, and it says SIGNAL exactly when the last
   three rows all have one of three or more.
   */
  lemma SignalMeans(rows: seq<Row>, i: nat)
    requires i < |rows|
    ensures var resid := Residuals(rows);
            && (FinalRow(rows, i).flag.Some? <==> Exceeds(resid, i, 2.0))
            && (Signals(rows, i) <==>
                i >= 2 && Exceeds(resid, i, 3.0) && Exceeds(resid, i - 1, 3.0) && Exceeds(resid, i - 2, 3.0))
  {
    hide Z, AtLeast, Run, DominantMover, R7, Residuals;
    var resid := Residuals(rows);
    RunCounts(resid, i + 1, 3);
    if Exceeds(resid, i, 3.0) {
      ZHasVariance(resid, i);
      ThreeIsTwo(Z(resid, i).value);
    }
  }

  /** The trailing means defined before day n. */
  function DefinedBefore(n: nat): nat {
    if n < SMOOTH_WINDOW - 1 then 0 else n - (SMOOTH_WINDOW - 1)
  }

  lemma {:induction false} HistoryLength(resid: seq<real>, lo: nat, i: nat)
    requires lo <= i <= |resid|
    ensures |History(resid, lo, i)| == DefinedBefore(i) - DefinedBefore(lo)
  {
    hide Mean;
    if lo < i {
      HistoryLength(resid, lo, i - 1);
    }
  }

  ghost predicate AllAre(s: seq<real>, v: real) {
    forall i | 0 <= i < |s| :: s[i] == v
  }

  lemma {:induction false} SquareSumSign(s: seq<real>, mu: real)
    ensures SquareSum(s, mu) >= 0.0
    ensures SquareSum(s, mu) == 0.0 <==> AllAre(s, mu)
  {
    hide Times;
    if s != [] {
      SquareSumSign(s[1..], mu);
      SquareSign(s[0] - mu);
      TimesZero(0.0);
      assert AllAre(s, mu) <==> s[0] == mu && AllAre(s[1..], mu) by {
        assert forall i | 0 < i < |s| :: s[i] == s[1..][i - 1];
      }
    }
  }

  lemma {:induction false} MeanOfFlat(s: seq<real>, v: real)
    requires AllAre(s, v)
    ensures SeqSum(s) == |s| as real * v
  {
    if s != [] {
      MeanOfFlat(s[1..], v);
      var n := |s[1..]| as real;
      assert |s| as real * v == n * v + v;
    }
  }

  lemma VarianceSign(s: seq<real>)
    requires s != []
    ensures Variance(s) > 0.0 <==> !AllAre(s, s[0])
  {
    hide SeqSum, SquareSum;
    var n := |s| as real;
    SquareSumSign(s, Mean(s));
    if AllAre(s, s[0]) {
      MeanOfFlat(s, s[0]);
      QuotientIs(SeqSum(s), n, s[0]);
    }
    QuotientSign(SquareSum(s, Mean(s)), n);
  }

  lemma QuotientIs(a: real, n: real, q: real)
    requires n > 0.0 && a == n * q
    ensures a / n == q
  {
  }

  lemma QuotientSign(a: real, n: real)
    requires n > 0.0 && a >= 0.0
    ensures a / n > 0.0 <==> a > 0.0
  {
  }

  /** A z-score exists exactly from the 37th row on, and only when the trailing means before it are not all one. */
  lemma ZDefinedMeans(resid: seq<real>, i: nat)
    requires i < |resid|
    ensures var hist := History(resid, Lookback(i), i);
            Z(resid, i).Some? <==> i >= 36 && !AllAre(hist, hist[0])
  {
    hide Mean, Variance, History, AllAre;
    HistoryLength(resid, Lookback(i), i);
    var hist := History(resid, Lookback(i), i);
    if hist != [] {
      VarianceSign(hist);
    }
  }

  // ----- z-scores from the residuals themselves

  /** The mean of the seven residuals up to row j. */
  function WeekMean(resid: seq<real>, j: nat): real
    requires 6 <= j < |resid|
  {
    (resid[j - 6] + resid[j - 5] + resid[j - 4] + resid[j - 3] + resid[j - 2] + resid[j - 1] + resid[j]) / 7.0
  }

  /** The first row with a weekly mean among the ninety before row i. */
  function PastFrom(i: nat): nat {
    if i < 96 then 6 else i - 90
  }

  /** The weekly means of up to ninety rows before row i. */
  ghost function PastMeans(resid: seq<real>, i: nat): seq<real>
    requires i <= |resid|
  {
    var lo := PastFrom(i);
    if i < lo then [] else seq(i - lo, k requires 0 <= k < i - lo => WeekMean(resid, lo + k))
  }

  function SquareTotal(s: seq<real>): real {
    if s == [] then 0.0 else Times(s[0], s[0]) + SquareTotal(s[1..])
  }

  lemma SumOfSeven(s: seq<real>)
    requires |s| == 7
    ensures SeqSum(s) == s[0] + s[1] + s[2] + s[3] + s[4] + s[5] + s[6]
  {
    SeqSumStep(s, 0);
    SeqSumStep(s, 1);
    SeqSumStep(s, 2);
    SeqSumStep(s, 3);
    SeqSumStep(s, 4);
    SeqSumStep(s, 5);
    SeqSumStep(s, 6);
    assert s[7..] == [] && s[0..] == s;
  }

  lemma SeqSumStep(s: seq<real>, k: nat)
    requires k < |s|
    ensures SeqSum(s[k..]) == s[k] + SeqSum(s[k + 1..])
  {
    assert s[k..][1..] == s[k + 1..];
  }

  lemma R7Is(resid: seq<real>, i: nat)
    requires i < |resid|
    ensures R7(resid, i) == if i >= 6 then Some(WeekMean(resid, i)) else None
  {
    hide SeqSum;
    if i >= 6 {
      SumOfSeven(resid[i - 6..i + 1]);
    }
  }

  lemma {:induction false} HistoryIs(resid: seq<real>, lo: nat, i: nat)
    requires lo <= i <= |resid|
    ensures var first := if lo < 6 then 6 else lo;
            History(resid, lo, i)
            == if i < first then [] else seq(i - first, k requires 0 <= k < i - first => WeekMean(resid, first + k))
  {
    hide WeekMean, R7;
    if lo < i {
      HistoryIs(resid, lo, i - 1);
      R7Is(resid, i - 1);
    }
  }

  /** The squared distances from mu of n numbers, by their total and the total of their squares. */
  function Spread(squares: real, sum: real, n: real, mu: real): real {
    squares - 2.0 * mu * sum + n * mu * mu
  }

  lemma {:induction false} SquareSumIs(s: seq<real>, mu: real)
    ensures SquareSum(s, mu) == Spread(SquareTotal(s), SeqSum(s), |s| as real, mu)
  {
    hide Spread, Times;
    SpreadNone(mu);
    if s != [] {
      SquareSumIs(s[1..], mu);
      assert |s| as real == |s[1..]| as real + 1.0;
      SpreadStep(s[0], mu, SquareTotal(s[1..]), SeqSum(s[1..]), |s[1..]| as real);
    }
  }

  lemma SpreadNone(mu: real)
    ensures Spread(0.0, 0.0, 0.0, mu) == 0.0
  {
  }

  lemma SpreadStep(x: real, mu: real, squares: real, sum: real, n: real)
    ensures Times(x - mu, x - mu) + Spread(squares, sum, n, mu) == Spread(Times(x, x) + squares, x + sum, n + 1.0, mu)
  {
  }

  lemma VarianceIs(s: seq<real>)
    requires s != []
    ensures Times(Mean(s), |s| as real) == SeqSum(s)
    ensures Times(Times(Variance(s), |s| as real), |s| as real)
            == Times(|s| as real, SquareTotal(s)) - Times(SeqSum(s), SeqSum(s))
  {
    SquareSumIs(s, Mean(s));
    hide SeqSum, SquareTotal, SquareSum, Times, Spread;
    VarianceScalars(|s| as real, Mean(s), SeqSum(s), SquareTotal(s), SquareSum(s, Mean(s)), Variance(s));
  }

  lemma VarianceScalars(n: real, mu: real, sum: real, squares: real, total: real, v: real)
    requires n > 0.0 && mu == sum / n && v == total / n && total == Spread(squares, sum, n, mu)
    ensures Times(mu, n) == sum && Times(Times(v, n), n) == Times(n, squares) - Times(sum, sum)
  {
    assert mu * n == sum && v * n == total;
    assert n * mu * mu == sum * mu;
    assert total == squares - mu * sum;
    assert total * n == n * squares - (mu * n) * sum;
  }

  /**
   A z-score, from the residuals: there are at least thirty weekly means among the ninety rows before, not all alike;
   it is the distance of the row's own weekly mean from theirs, over their population variance.
   */
  lemma ZFromResiduals(resid: seq<real>, i: nat)
    requires i < |resid|
    ensures var past := PastMeans(resid, i);
            && (Z(resid, i).Some? <==> |past| >= 30 && exists k :: 0 <= k < |past| && past[k] != past[0])
            && (Z(resid, i).Some? ==>
                  var z, n := Z(resid, i).value, |past| as real;
                  && i >= 6 && n > 0.0 && Times(z.diff, n) == Times(WeekMean(resid, i), n) - SeqSum(past)
                  && Times(Times(z.variance, n), n) == Times(n, SquareTotal(past)) - Times(SeqSum(past), SeqSum(past)))
  {
    hide SeqSum, SquareTotal, WeekMean, R7, History, Variance, Mean, Times;
    var past := PastMeans(resid, i);
    R7Is(resid, i);
    HistoryIs(resid, Lookback(i), i);
    assert past == History(resid, Lookback(i), i);
    if past != [] {
      VarianceSign(past);
      VarianceIs(past);
      if Z(resid, i).Some? {
        TimesMinus(WeekMean(resid, i), Mean(past), |past| as real);
      }
    }
  }

  lemma TimesMinus(a: real, b: real, n: real)
    ensures Times(a - b, n) == Times(a, n) - Times(b, n)
  {
  }

  lemma {:induction false} SumBelow(s: seq<real>, x: real)
    requires s != [] && forall k | 0 <= k < |s| :: s[k] < x
    ensures SeqSum(s) < Times(x, |s| as real)
  {
    if |s| > 1 {
      SumBelow(s[1..], x);
      assert |s| as real * x == |s[1..]| as real * x + x;
    } else {
      assert s[1..] == [];
    }
  }

  lemma {:induction false} SumAbove(s: seq<real>, x: real)
    requires s != [] && forall k | 0 <= k < |s| :: s[k] > x
    ensures SeqSum(s) > Times(x, |s| as real)
  {
    if |s| > 1 {
      SumAbove(s[1..], x);
      assert |s| as real * x == |s[1..]| as real * x + x;
    } else {
      assert s[1..] == [];
    }
  }

  lemma SignOfProduct(d: real, n: real)
    requires n > 0.0
    ensures d > 0.0 <==> Times(d, n) > 0.0
    ensures d < 0.0 <==> Times(d, n) < 0.0
  {
  }

  /** A weekly mean above all those it is compared with has a positive z-score, and one below all a negative one. */
  lemma ZSign(resid: seq<real>, i: nat)
    requires i < |resid| && Z(resid, i).Some?
    ensures i >= 6
    ensures (forall j: nat | PastFrom(i) <= j < i :: WeekMean(resid, j) < WeekMean(resid, i)) ==> Z(resid, i).value.diff > 0.0
    ensures (forall j: nat | PastFrom(i) <= j < i :: WeekMean(resid, j) > WeekMean(resid, i)) ==> Z(resid, i).value.diff < 0.0
  {
    hide SeqSum, SquareTotal, WeekMean, Z;
    ZFromResiduals(resid, i);
    var past, lo := PastMeans(resid, i), PastFrom(i);
    assert forall k | 0 <= k < |past| :: past[k] == WeekMean(resid, lo + k);
    SignOfProduct(Z(resid, i).value.diff, |past| as real);
    if forall j: nat | lo <= j < i :: WeekMean(resid, j) < WeekMean(resid, i) {
      SumBelow(past, WeekMean(resid, i));
    }
    if forall j: nat | lo <= j < i :: WeekMean(resid, j) > WeekMean(resid, i) {
      SumAbove(past, WeekMean(resid, i));
    }
  }

  /** Raising the last residual by c raises its z-score's distance by a seventh of c and leaves the variance. */
  lemma RaisedLast(resid: seq<real>, c: real, i: nat)
    requires |resid| == i + 1
    ensures var other := resid[i := resid[i] + c];
            && (Z(other, i).Some? <==> Z(resid, i).Some?)
            && (Z(resid, i).Some? ==> Z(other, i).value.diff == Z(resid, i).value.diff + c / 7.0 &&
                                      Z(other, i).value.variance == Z(resid, i).value.variance)
  {
    hide Mean, Variance, History;
    var other := resid[i := resid[i] + c];
    R7Is(resid, i);
    R7Is(other, i);
    HistoryStable(resid[..i], resid, Lookback(i), i);
    HistoryStable(resid[..i], other, Lookback(i), i);
  }

  /** |z| >= k, as the quotient by the standard deviation says it. */
  lemma AtLeastMeans(z: Deviation, k: real, sd: real)
    requires sd > 0.0 && sd * sd == z.variance && k >= 0.0
    ensures AtLeast(z, k) <==> Abs(z.diff) / sd >= k
  {
    var q := Abs(z.diff) / sd;
    assert q * sd == Abs(z.diff) && q >= 0.0;
    SquareOfProduct(q, sd, z.variance);
    assert z.diff * z.diff == Abs(z.diff) * Abs(z.diff);
    SquaresCompare(q, k, z.variance);
  }

  lemma SquareOfProduct(q: real, sd: real, v: real)
    requires sd * sd == v && sd > 0.0
    ensures (q * sd) * (q * sd) == (q * q) * v && v > 0.0
  {
    ProductPositive(sd, sd);
  }

  lemma SquaresCompare(q: real, k: real, v: real)
    requires v > 0.0 && q >= 0.0 && k >= 0.0
    ensures (q * q) * v >= k * k * v <==> q >= k
  {
    if q >= k {
      assert q * q >= k * q >= k * k;
    } else {
      ProductPositive(k, k - q);
      assert q * q <= k * q;
      ProductPositive(k * k - q * q, v);
    }
  }

  /** Each component is considered, and the one named deviates at least as far as every other. */
  lemma {:induction false} MoverIsLargest(s: Option<Deviation>, d: Option<Deviation>, e: Option<Deviation>)
    requires forall o | o == s || o == d || o == e :: o.Some? ==> o.value.variance > 0.0
    ensures var best := BestMover(s, d, e);
            && best.dev.variance > 0.0
            && (s.Some? ==> !Larger(s.value, best.dev)) && (d.Some? ==> !Larger(d.value, best.dev))
            && (e.Some? ==> !Larger(e.value, best.dev))
            && (best == NoMover() ||
                (var named := match best.mover.component case SupplyIn => s case Demand => d case Exports => e;
                 named == Some(best.dev) && best.mover.up == (best.dev.diff >= 0.0)))
  {
    hide Times;
    var b1 := Consider(NoMover(), s, SupplyIn);
    var b2 := Consider(b1, d, Demand);
    var b3 := Consider(b2, e, Exports);
    if s.Some? {
      NotLargerTrans(s.value, b1.dev, b2.dev);
      NotLargerTrans(s.value, b2.dev, b3.dev);
    }
    if d.Some? {
      NotLargerTrans(d.value, b2.dev, b3.dev);
    }
  }

  lemma NotLargerTrans(a: Deviation, b: Deviation, c: Deviation)
    requires a.variance > 0.0 && b.variance > 0.0 && c.variance > 0.0
    requires !Larger(a, b) && !Larger(b, c)
    ensures !Larger(a, c)
  {
    var x, y, z := a.diff * a.diff, b.diff * b.diff, c.diff * c.diff;
    NotLargerScalars(x, y, z, a.variance, b.variance, c.variance);
  }

  lemma NotLargerScalars(x: real, y: real, z: real, u: real, v: real, w: real)
    requires u > 0.0 && v > 0.0 && w > 0.0 && x * v <= y * u && y * w <= z * v
    ensures x * w <= z * u
  {
    assert v * (x * w) == (x * v) * w <= (y * u) * w;
    assert (y * u) * w == u * (y * w) <= u * (z * v) == v * (z * u);
    CancelPositive(v, x * w, z * u);
  }

  lemma CancelPositive(v: real, a: real, b: real)
    requires v > 0.0 && v * a <= v * b
    ensures a <= b
  {
  }

  /** Which of two deviations is larger, as the quotients by the standard deviations say it. */
  lemma LargerMeans(d: Deviation, e: Deviation, sd: real, se: real)
    requires sd > 0.0 && sd * sd == d.variance && se > 0.0 && se * se == e.variance
    ensures Larger(d, e) <==> Abs(d.diff) / sd > Abs(e.diff) / se
  {
    var p, q := Abs(d.diff) / sd, Abs(e.diff) / se;
    QuotientSquare(d.diff, sd, d.variance);
    QuotientSquare(e.diff, se, e.variance);
    hide Times, Abs;
    LargerScalars(p, q, d.variance, e.variance);
  }

  lemma QuotientSquare(diff: real, sd: real, v: real)
    requires sd > 0.0 && sd * sd == v
    ensures var p := Abs(diff) / sd;
            p >= 0.0 && v > 0.0 && Times(diff, diff) == Times(Times(p, p), v)
  {
    var p := Abs(diff) / sd;
    assert p * sd == Abs(diff) && p >= 0.0;
    SquareOfProduct(p, sd, v);
    assert diff * diff == (p * sd) * (p * sd);
  }

  lemma LargerScalars(p: real, q: real, v: real, w: real)
    requires p >= 0.0 && q >= 0.0 && v > 0.0 && w > 0.0
    ensures Times(Times(Times(p, p), v), w) > Times(Times(Times(q, q), w), v) <==> p > q
  {
    RegroupTimes(p * p, v, w);
    RegroupTimes(q * q, w, v);
    ProductPositive(v, w);
    SquaresCompare(q, p, v * w);
  }

  lemma RegroupTimes(s: real, v: real, w: real)
    ensures Times(Times(s, v), w) == s * (v * w)
  {
  }

  /** How a component's arrow points, with x after the values of s: up where all are below; down where all are above. */
  ghost predicate Arrow(s: seq<real>, x: real, up: bool) {
    && ((forall k | 0 <= k < |s| :: s[k] < x) ==> up)
    && (s != [] && (forall k | 0 <= k < |s| :: s[k] > x) ==> (up <==> AllAre(s, s[0])))
  }

  ghost function LastSeven(rows: seq<Row>, i: nat): seq<Row>
    requires 7 <= i <= |rows|
  {
    rows[i - 7..i]
  }

  /** The arrow of the flag on row i, by the named column's values there and in the seven rows before. */
  ghost predicate PointsRight(rows: seq<Row>, i: nat, m: Mover)
    requires 7 <= i < |rows|
  {
    var past := LastSeven(rows, i);
    match m.component
    case SupplyIn => Arrow(seq(7, k requires 0 <= k < 7 => past[k].supply), rows[i].supply, m.up)
    case Demand => Arrow(seq(7, k requires 0 <= k < 7 => past[k].demand), rows[i].demand, m.up)
    case Exports => Arrow(seq(7, k requires 0 <= k < 7 => past[k].exports), rows[i].exports, m.up)
  }

  lemma DeviationSign(x: real, hist: seq<real>, least: nat)
    requires hist != [] && |hist| >= least
    ensures DeviationFrom(x, hist, least).Some? <==> !AllAre(hist, hist[0])
    ensures var d := DeviationFrom(x, hist, least);
            d.Some? ==> && d.value.variance > 0.0
                        && ((forall k | 0 <= k < |hist| :: hist[k] < x) ==> d.value.diff > 0.0)
                        && ((forall k | 0 <= k < |hist| :: hist[k] > x) ==> d.value.diff < 0.0)
  {
    hide SeqSum, Variance, AllAre, Times;
    VarianceSign(hist);
    VarianceIs(hist);
    hide Mean;
    TimesMinus(x, Mean(hist), |hist| as real);
    SignOfProduct(x - Mean(hist), |hist| as real);
    if forall k | 0 <= k < |hist| :: hist[k] < x {
      SumBelow(hist, x);
    }
    if forall k | 0 <= k < |hist| :: hist[k] > x {
      SumAbove(hist, x);
    }
  }

  /** The arrow of one component, given what the comparison ends with. */
  lemma ArrowIs(series: seq<real>, i: nat, up: bool, named: bool)
    requires 7 <= i < |series|
    requires var d := ComponentDev(series, i);
             if named then d.Some? && up == (d.value.diff >= 0.0) else up && (d.Some? ==> d.value.diff == 0.0)
    ensures Arrow(series[i - 7..i], series[i], up)
  {
    hide DeviationFrom, AllAre;
    DeviationSign(series[i], series[i - 7..i], 3);
    var hist := series[i - 7..i];
    if forall k | 0 <= k < |hist| :: hist[k] < series[i] {
      assert hist[0] < series[i];
    }
  }

  lemma FlaggedFrom(rows: seq<Row>, i: nat)
    requires i < |rows| && FinalRow(rows, i).flag.Some?
    ensures i >= 36 && FinalRow(rows, i).flag.value.mover == DominantMover(rows, i)
  {
    hide AtLeast, DominantMover, Run, History, R7, AllAre;
    ZDefinedMeans(Residuals(rows), i);
  }

  /**
   The component a flag names is marked up when it lies above its values of the last seven rows. Below all of them it is
   marked down, unless they are all alike: then no deviation is taken, and it is the supply that stands there by default.
   */
  lemma FlagPointsRight(rows: seq<Row>, i: nat)
    requires i < |rows| && FinalRow(rows, i).flag.Some?
    ensures i >= 36 && PointsRight(rows, i, FinalRow(rows, i).flag.value.mover)
  {
    FlaggedFrom(rows, i);
    MoverSign(rows, i);
    hide FinalRow, DominantMover;
    ArrowInRows(rows, i, DominantMover(rows, i));
  }

  lemma ArrowInRows(rows: seq<Row>, i: nat, m: Mover)
    requires 7 <= i < |rows|
    requires var series := Column(rows, m.component);
             Arrow(series[i - 7..i], series[i], m.up)
    ensures PointsRight(rows, i, m)
  {
    hide Arrow;
    var series, past := Column(rows, m.component), LastSeven(rows, i);
    match m.component
    case SupplyIn =>
      assert series[i - 7..i] == seq(7, k requires 0 <= k < 7 => past[k].supply);
    case Demand =>
      assert series[i - 7..i] == seq(7, k requires 0 <= k < 7 => past[k].demand);
    case Exports =>
      assert series[i - 7..i] == seq(7, k requires 0 <= k < 7 => past[k].exports);
  }

  lemma MoverSign(rows: seq<Row>, i: nat)
    requires 7 <= i < |rows|
    ensures var m := DominantMover(rows, i);
            var series := Column(rows, m.component);
            Arrow(series[i - 7..i], series[i], m.up)
  {
    var s, d, e := ComponentDev(Column(rows, SupplyIn), i), ComponentDev(Column(rows, Demand), i), ComponentDev(Column(rows, Exports), i);
    DevVariance(Column(rows, SupplyIn), i);
    DevVariance(Column(rows, Demand), i);
    DevVariance(Column(rows, Exports), i);
    MoverIsLargest(s, d, e);
    var best, m := BestMover(s, d, e), DominantMover(rows, i);
    assert m == best.mover;
    hide BestMover, DominantMover, Arrow, ComponentDev, Column, Larger;
    if best == NoMover() {
      if s.Some? {
        NoLarger(s.value);
      }
      ArrowIs(Column(rows, SupplyIn), i, m.up, false);
    } else {
      ArrowIs(Column(rows, m.component), i, m.up, true);
    }
  }

  lemma DevVariance(series: seq<real>, i: nat)
    requires i < |series|
    ensures ComponentDev(series, i).Some? ==> ComponentDev(series, i).value.variance > 0.0
  {
    hide Variance, Mean;
  }

  lemma NoLarger(d: Deviation)
    requires !Larger(d, NoMover().dev)
    ensures d.diff == 0.0
  {
    SquareSign(d.diff);
  }

  // ----- the rows the engine runs on

  datatype DemandInput = DemandInput(heat: Option<real>, industrial: Option<real>)
  datatype StorageInput = StorageInput(injection: Option<real>, withdrawal: Option<real>)

  datatype Inputs = Inputs(supply: map<int, Supply.SupplyRow>, exportUa: map<int, real>, demand: map<int, DemandInput>,
                           power: map<int, Option<real>>, storage: map<int, StorageInput>)

  function PlainRow(date: int, s: Supply.SupplyRow, exportUa: real, d: DemandInput, power: real,
                    st: StorageInput): Row {
    var exports := exportUa + Max0(-s.ukNet);
    var demand := d.heat.GetOr(0.0) + d.industrial.GetOr(0.0) + power;
    var actual := st.injection.GetOr(0.0) - st.withdrawal.GetOr(0.0);
    var implied := s.supply - demand - exports;
    Row(date, Round1(s.supply), Round1(demand), Round1(exports), Round1(implied), Round1(actual),
        Round1(actual - implied), None, None, None)
  }

  /** The days with supply, demand and storage. */
  function Computable(inp: Inputs): set<int> {
    inp.supply.Keys * inp.demand.Keys * inp.storage.Keys
  }

  function PlainRowOn(inp: Inputs, d: int): Row
    requires d in Computable(inp)
  {
    PlainRow(d, inp.supply[d], if d in inp.exportUa then inp.exportUa[d] else 0.0, inp.demand[d],
             if d in inp.power then inp.power[d].GetOr(0.0) else 0.0, inp.storage[d])
  }

  ghost function PlainRows(inp: Inputs): (rows: seq<Row>) {
    var dates := Sorted(Computable(inp));
    seq(|dates|, i requires 0 <= i < |dates| => PlainRowOn(inp, dates[i]))
  }

  method ComputeBalance(inp: Inputs) returns (rows: array<Row>)
    ensures fresh(rows) && rows.Length == |PlainRows(inp)|
    ensures forall i | 0 <= i < rows.Length :: rows[i] == FinalRow(PlainRows(inp), i)
  {
    hide PlainRow, FinalRow, Sorted, Computable;
    var dates := Sorted(Computable(inp));
    var plain: seq<Row> := [];
    for i := 0 to |dates|
      invariant |plain| == i
      invariant forall j | 0 <= j < i :: plain[j] == PlainRowOn(inp, dates[j])
    {
      plain := plain + [PlainRowOn(inp, dates[i])];
    }
    assert plain == PlainRows(inp);
    rows := new Row[|plain|](i requires 0 <= i < |plain| => plain[i]);
    assert rows[..] == plain;
    AddSmoothingAndFlags(rows);
  }

  /** One row per computable day, in order of date. */
  lemma RowsAreComputableDays(inp: Inputs)
    ensures var rows := PlainRows(inp);
            && (forall i, j | 0 <= i < j < |rows| :: rows[i].date < rows[j].date)
            && (forall d :: d in Computable(inp) <==> exists i :: 0 <= i < |rows| && rows[i].date == d)
    ensures forall d :: d in Computable(inp) <==> d in inp.supply && d in inp.demand && d in inp.storage
  {
    hide Sorted;
    var rows, dates := PlainRows(inp), Sorted(Computable(inp));
    forall i | 0 <= i < |dates| ensures rows[i].date == dates[i] {
    }
    forall d ensures d in Computable(inp) <==> exists i :: 0 <= i < |rows| && rows[i].date == d {
      if d in dates {
        var i :| 0 <= i < |dates| && dates[i] == d;
        assert rows[i].date == d;
      }
      if i :| 0 <= i < |rows| && rows[i].date == d {
        assert dates[i] in dates;
      }
    }
  }

  // ----- rows and calendar days

  /** The day has a row, with |z| of three or more. */
  ghost predicate ExceedsOn(rows: seq<Row>, day: int) {
    exists j :: 0 <= j < |rows| && rows[j].date == day && Exceeds(Residuals(rows), j, 3.0)
  }

  /** The day k days before that of row i, if it has a row, has row i - k. */
  lemma RowBefore(inp: Inputs, i: nat, k: nat, j: nat)
    requires i < |PlainRows(inp)| && j < |PlainRows(inp)| && k <= 2
    requires PlainRows(inp)[j].date == PlainRows(inp)[i].date - k
    requires k == 2 ==> i >= 1 && PlainRows(inp)[i - 1].date == PlainRows(inp)[i].date - 1
    ensures j == i - k
  {
    hide PlainRows;
    RowsAreComputableDays(inp);
    var rows := PlainRows(inp);
    assert j < i && k > 0 ==> rows[j].date <= rows[i - 1].date;
    assert j < i - 1 && k == 2 ==> rows[j].date <= rows[i - 2].date;
  }

  /**
   Three consecutive days have |z| of three or more exactly when the last of them is a SIGNAL and both days before it
   are in all three tables. A SIGNAL after a missing day stands on rows that are further apart.
   */
  lemma SignalDays(inp: Inputs, i: nat)
    requires i < |PlainRows(inp)|
    ensures var rows := PlainRows(inp);
            var d := rows[i].date;
            ExceedsOn(rows, d) && ExceedsOn(rows, d - 1) && ExceedsOn(rows, d - 2) <==>
            Signals(rows, i) && d - 1 in Computable(inp) && d - 2 in Computable(inp)
  {
    hide FinalRow, Exceeds, Residuals, PlainRows, Computable;
    RowsAreComputableDays(inp);
    var rows := PlainRows(inp);
    var d := rows[i].date;
    SignalMeans(rows, i);
    if d - 1 in Computable(inp) && d - 2 in Computable(inp) {
      var j :| 0 <= j < |rows| && rows[j].date == d - 1;
      RowBefore(inp, i, 1, j);
      var l :| 0 <= l < |rows| && rows[l].date == d - 2;
      RowBefore(inp, i, 2, l);
      forall m | 0 <= m < |rows| && d - 2 <= rows[m].date <= d
        ensures m == i - (d - rows[m].date)
      {
        RowBefore(inp, i, d - rows[m].date, m);
      }
    }
  }

  /**
   Through the rounding of supply and UK flow on the way, the stored residual stays within 0.15 GWh of the exact
   identity, in which the signed UK flow appears once and as it is.
   */
  lemma ResidualIdentity(date: int, agg: Supply.DayAgg, lng: real, exportUa: real, d: DemandInput, power: real,
                         st: StorageInput)
    ensures var row := PlainRow(date, Supply.RowOf(date, agg, lng), exportUa, d, power, st);
            var inflow := agg.pipeline + agg.production + lng + (agg.ukEntry - agg.ukExit) - exportUa;
            var demand := d.heat.GetOr(0.0) + d.industrial.GetOr(0.0) + power;
            var actual := st.injection.GetOr(0.0) - st.withdrawal.GetOr(0.0);
            var exact := actual - (inflow - demand);
            exact - 0.15 <= row.residual <= exact + 0.15
  {
    hide Round1;
    var u := agg.ukEntry - agg.ukExit;
    var s := Supply.RowOf(date, agg, lng);
    assert Max0(u) - Max0(-u) == u;
    assert Max0(-u) - 0.05 <= Max0(-s.ukNet) <= Max0(-u) + 0.05;
  }

  function Given(x: Option<real>): real {
    match x
    case None => 0.0
    case Some(v) => v
  }

  predicate CloseTo(x: real, y: real, margin: real) {
    y - margin <= x <= y + margin
  }

  lemma PlainColumns(d: int, s: Supply.SupplyRow, exportUa: real, demand: DemandInput, power: real, st: StorageInput)
    ensures var row := PlainRow(d, s, exportUa, demand, power, st);
            var used := Given(demand.heat) + Given(demand.industrial) + power;
            var actual, exports := Given(st.injection) - Given(st.withdrawal), exportUa + Max0(-s.ukNet);
            && row.date == d && CloseTo(row.supply, s.supply, 0.05) && CloseTo(row.demand, used, 0.05)
            && CloseTo(row.exports, exports, 0.05) && CloseTo(row.actual, actual, 0.05)
            && CloseTo(row.implied, s.supply - used - exports, 0.05)
            && CloseTo(row.residual, actual - (s.supply - used - exports), 0.05)
  {
    hide Round1, Max0;
  }

  /** What the tables hold for a day outside the three that it needs; a missing row or value counts as none. */
  function ExportOn(inp: Inputs, d: int): real {
    if d in inp.exportUa then inp.exportUa[d] else 0.0
  }

  function PowerOn(inp: Inputs, d: int): real {
    if d in inp.power then Given(inp.power[d]) else 0.0
  }

  /** Each row of the balance, in order of date, is made of its own day's tables. */
  lemma RowsFromTables(inp: Inputs, i: nat)
    requires i < |PlainRows(inp)|
    ensures var row := PlainRows(inp)[i];
            var d := row.date;
            && d in inp.supply && d in inp.demand && d in inp.storage
            && row == PlainRow(d, inp.supply[d], ExportOn(inp, d), inp.demand[d], PowerOn(inp, d), inp.storage[d])
  {
    hide Sorted, Round1, Max0;
    var d := Sorted(Computable(inp))[i];
    assert d in Sorted(Computable(inp));
  }

  /** What the engine writes to a row, and what it leaves. */
  lemma WrittenRow(rows: seq<Row>, i: nat)
    requires i < |rows|
    ensures var row, resid := FinalRow(rows, i), Residuals(rows);
            && row.date == rows[i].date && row.supply == rows[i].supply && row.demand == rows[i].demand
            && row.exports == rows[i].exports && row.implied == rows[i].implied && row.actual == rows[i].actual
            && row.residual == rows[i].residual && row.z == Z(resid, i)
            && (row.residual7d.Some? <==> i >= 6)
            && (i >= 6 ==> CloseTo(row.residual7d.value, WeekMean(resid, i), 0.05))
  {
    hide Z, FlagOf, R7, WeekMean, Round1;
    R7Is(Residuals(rows), i);
  }

  lemma TakenByUk(n: real, uk: real)
    requires CloseTo(n, uk, 0.05)
    ensures CloseTo(Max0(-n), if uk < 0.0 then -uk else 0.0, 0.05)
  {
  }

  /** A day's columns from its reports and the other tables; everything missing counts as none. */
  lemma ColumnsFromReports(row: Row, d: int, reports: seq<Supply.Report>, lng: map<int, Option<real>>, s: Supply.SupplyRow,
                           exportUa: real, demand: DemandInput, power: real, st: StorageInput)
    requires Supply.IsRow(s, d, reports, lng) && row == PlainRow(d, s, exportUa, demand, power, st)
    ensures var chosen := Supply.ChosenOn(reports, d);
            var uk := Sum(chosen, Supply.FromUk(reports));
            var inflow := Sum(chosen, Supply.OfClass(reports, Supply.ImportPipeline))
                          + Sum(chosen, Supply.OfClass(reports, Supply.ProductionEntry)) + Supply.LngAmount(lng, d);
            var used := Given(demand.heat) + Given(demand.industrial) + power;
            var actual := Given(st.injection) - Given(st.withdrawal);
            && row.date == d
            && CloseTo(row.supply, inflow + (if uk > 0.0 then uk else 0.0), 0.1)
            && CloseTo(row.demand, used, 0.05)
            && CloseTo(row.exports, exportUa + (if uk < 0.0 then -uk else 0.0), 0.1)
            && CloseTo(row.actual, actual, 0.05)
            && CloseTo(row.implied, inflow + uk - exportUa - used, 0.15)
            && CloseTo(row.residual, actual - (inflow + uk - exportUa - used), 0.15)
  {
    hide PlainRow, Max0, Given, Supply.IsRow, Supply.ChosenOn, Sum, Supply.OfClass, Supply.FromUk, Supply.LngAmount;
    Supply.RowFromReports(s, d, reports, lng);
    PlainColumns(d, s, exportUa, demand, power, st);
    TakenByUk(s.ukNet, Sum(Supply.ChosenOn(reports, d), Supply.FromUk(reports)));
  }

  /** The bound is attained: all three roundings can go the same way. */
  lemma ResidualBoundIsAttained(date: int)
    ensures var agg := Supply.DayAgg(0.0, 0.0, 0.0, 0.15);
            var row := PlainRow(date, Supply.RowOf(date, agg, 0.05), 0.0, DemandInput(None, None), 0.0, StorageInput(Some(0.15), None));
            row.residual == 0.4 && 0.15 - (0.05 - 0.15) == 0.25
  {
    var agg := Supply.DayAgg(0.0, 0.0, 0.0, 0.15);
    var s := Supply.RowOf(date, agg, 0.05);
    assert s.ukNet == -0.2 by { assert HalfEven(-1.5) == -2; }
    assert s.supply == 0.0 by { assert HalfEven(0.5) == 0; }
    assert HalfEven(3.5) == 4;
  }

  // ----- a SIGNAL across a missing day

  predicate Within(s: seq<real>, b: real) {
    forall i | 0 <= i < |s| :: 0.0 <= s[i] <= b
  }

  lemma {:induction false} SumWithin(s: seq<real>, b: real)
    requires Within(s, b)
    ensures 0.0 <= SeqSum(s) <= |s| as real * b
  {
    if s != [] {
      SumWithin(s[1..], b);
      assert |s| as real * b == |s[1..]| as real * b + b;
    }
  }

  lemma MeanWithin(s: seq<real>, b: real)
    requires Within(s, b) && s != []
    ensures 0.0 <= Mean(s) <= b
  {
    SumWithin(s, b);
    QuotientWithin(SeqSum(s), |s| as real, b);
  }

  lemma QuotientWithin(a: real, n: real, b: real)
    requires n > 0.0 && 0.0 <= a <= n * b
    ensures 0.0 <= a / n <= b
  {
    var q := a / n;
    assert n * q == a;
    CancelPositive(n, q, b);
    CancelPositive(n, 0.0, q);
  }

  lemma SquareWithin(x: real, b: real)
    requires -b <= x <= b
    ensures 0.0 <= Times(x, x) <= Times(b, b)
  {
    SquareSign(x);
    SquareGap(x, b);
    TimesNotNegative(b - x, b + x);
  }

  lemma SquareGap(x: real, b: real)
    ensures Times(b - x, b + x) == Times(b, b) - Times(x, x)
  {
    assert (b - x) * (b + x) == b * b - x * x;
  }

  lemma TimesNotNegative(a: real, b: real)
    requires a >= 0.0 && b >= 0.0
    ensures Times(a, b) >= 0.0
  {
  }

  lemma {:induction false} SquareSumWithin(s: seq<real>, mu: real, b: real)
    requires Within(s, b) && 0.0 <= mu <= b
    ensures 0.0 <= SquareSum(s, mu) <= |s| as real * Times(b, b)
  {
    hide Times;
    if s != [] {
      SquareSumWithin(s[1..], mu, b);
      SquareWithin(s[0] - mu, b);
      var n := |s[1..]| as real;
      assert |s| as real * Times(b, b) == n * Times(b, b) + Times(b, b);
    }
  }

  /** A trailing mean of at least four times a bound on those before it has |z| of three or more. */
  lemma JumpExceeds(x: real, hist: seq<real>, b: real)
    requires Within(hist, b) && hist != [] && x >= 4.0 * b
    ensures Times(x - Mean(hist), x - Mean(hist)) >= 9.0 * Variance(hist)
  {
    hide Times, Mean, SquareSum;
    MeanWithin(hist, b);
    SquareSumWithin(hist, Mean(hist), b);
    QuotientWithin(SquareSum(hist, Mean(hist)), |hist| as real, Times(b, b));
    SquareWithin(3.0 * b, x - Mean(hist));
    ThriceSquared(b);
  }

  lemma ThriceSquared(b: real)
    ensures Times(3.0 * b, 3.0 * b) == 9.0 * Times(b, b)
  {
  }

  lemma {:induction false} HistoryWithin(resid: seq<real>, i: nat, b: real)
    requires i <= |resid| && Within(resid[..i], b)
    ensures Within(History(resid, 0, i), b) && |History(resid, 0, i)| == DefinedBefore(i)
    ensures forall k | 0 <= k < DefinedBefore(i) :: Some(History(resid, 0, i)[k]) == R7(resid, k + SMOOTH_WINDOW - 1)
  {
    hide Mean;
    if i > 0 {
      assert resid[..i - 1] == resid[..i][..i - 1];
      HistoryWithin(resid, i - 1, b);
      if i >= SMOOTH_WINDOW {
        var last := resid[i - SMOOTH_WINDOW..i];
        assert last == resid[..i][i - SMOOTH_WINDOW..];
        MeanWithin(last, b);
      }
    }
  }

  /** A row whose residual is 28 times all before it. */
  lemma RowExceeds(resid: seq<real>, i: nat, b: real)
    requires 36 <= i < |resid| && i <= Z_LOOKBACK && Within(resid[..i], b) && resid[i] >= 28.0 * b
    requires R7(resid, 6) != R7(resid, 7)
    ensures Exceeds(resid, i, 3.0)
  {
    hide Mean, Variance, History, AllAre, Times;
    var hist := History(resid, 0, i);
    HistoryWithin(resid, i, b);
    assert Some(hist[0]) == R7(resid, 6) && Some(hist[1]) == R7(resid, 7);
    NotAllAre(hist);
    ZDefinedMeans(resid, i);
    LastOfMean(resid, i, b);
    JumpExceeds(R7(resid, i).value, hist, b);
  }

  lemma NotAllAre(s: seq<real>)
    requires |s| >= 2 && s[1] != s[0]
    ensures !AllAre(s, s[0])
  {
  }

  lemma LastOfMean(resid: seq<real>, i: nat, b: real)
    requires SMOOTH_WINDOW <= i + 1 <= |resid| && Within(resid[..i], b) && resid[i] >= 28.0 * b
    ensures R7(resid, i).Some? && R7(resid, i).value >= 4.0 * b
  {
    var last := resid[i - SMOOTH_WINDOW + 1..i + 1];
    var rest := resid[..i][i - SMOOTH_WINDOW + 1..];
    assert last == rest + [resid[i]];
    SumWithin(rest, b);
    SeqSumAppend(rest, [resid[i]]);
    OneSum(resid[i]);
  }

  /** The day of row i: day 38 is missing. */
  function GapDate(i: nat): int {
    if i < 38 then i else i + 1
  }

  function GapDays(): set<int> {
    set i: nat | i < 39 :: GapDate(i)
  }

  function GapInjection(d: int): real {
    if d == 0 then 7.0 else if d == 36 then 196.0 else if d == 37 then 5488.0 else if d == 39 then 153664.0 else 0.0
  }

  function GapInputs(): Inputs {
    Inputs(map d | d in GapDays() :: Supply.SupplyRow(d, 0.0, 0.0, 0.0, 0.0, 0.0), map[],
           map d | d in GapDays() :: DemandInput(None, None), map[],
           map d | d in GapDays() :: StorageInput(Some(GapInjection(d)), None))
  }

  function GapDates(): (q: seq<int>)
    ensures Increasing(q) && |q| == 39 && forall i: nat | i < 39 :: q[i] == GapDate(i)
  {
    seq(39, i requires 0 <= i < 39 => GapDate(i))
  }

  lemma GapMembers(x: int)
    ensures x in GapDays() <==> x in GapDates()
  {
    hide GapDates;
    if x in GapDays() {
      var i: nat :| i < 39 && GapDate(i) == x;
      assert GapDates()[i] == x;
    }
  }

  lemma GapSorted()
    ensures Computable(GapInputs()) == GapDays() && Sorted(GapDays()) == GapDates()
  {
    GapComputable();
    hide Sorted, GapInputs, Computable, GapDates, GapDays, Increasing;
    forall x
      ensures x in GapDays() <==> x in GapDates()
    {
      GapMembers(x);
    }
    OneSorted(Sorted(GapDays()), GapDates());
  }

  lemma GapComputable()
    ensures Computable(GapInputs()) == GapDays()
  {
  }

  lemma GapRows()
    ensures |PlainRows(GapInputs())| == 39
    ensures forall i: nat | i < 39 ::
              PlainRows(GapInputs())[i].date == GapDate(i) && PlainRows(GapInputs())[i].residual == GapInjection(GapDate(i))
  {
    hide Sorted, PlainRow, GapDate, GapDates, GapInjection, Computable;
    GapSorted();
    var inp := GapInputs();
    forall i: nat | i < 39
      ensures PlainRows(inp)[i].date == GapDate(i) && PlainRows(inp)[i].residual == GapInjection(GapDate(i))
    {
      GapRow(GapDate(i));
      assert GapDate(i) in GapDays();
    }
  }

  lemma GapRow(d: int)
    ensures var row := PlainRow(d, Supply.SupplyRow(d, 0.0, 0.0, 0.0, 0.0, 0.0), 0.0, DemandInput(None, None), 0.0,
                                StorageInput(Some(GapInjection(d)), None));
            row.date == d && row.residual == GapInjection(d)
  {
    assert Round1(0.0) == 0.0;
    assert Round1(7.0) == 7.0 && Round1(196.0) == 196.0 && Round1(5488.0) == 5488.0 && Round1(153664.0) == 153664.0;
  }

  /** Rows 36, 37 and 38 are those of days 36, 37 and 39, and the last is a SIGNAL. */
  lemma SignalAcrossGap()
    ensures var rows := PlainRows(GapInputs());
            && 38 !in Computable(GapInputs()) && |rows| == 39 && rows[38].date == 39
            && Signals(rows, 38)
  {
    GapRows();
    hide PlainRows, FinalRow, Exceeds, Mean;
    var rows := PlainRows(GapInputs());
    var resid := Residuals(rows);
    GapMeans(resid);
    RowExceeds(resid, 36, 7.0);
    RowExceeds(resid, 37, 196.0);
    RowExceeds(resid, 38, 5488.0);
    SignalMeans(rows, 38);
  }

  lemma {:induction false} GapMeans(resid: seq<real>)
    requires |resid| == 39 && forall i: nat | i < 39 :: resid[i] == GapInjection(GapDate(i))
    ensures R7(resid, 6) != R7(resid, 7)
    ensures Within(resid[..36], 7.0) && Within(resid[..37], 196.0) && Within(resid[..38], 5488.0)
  {
    hide SeqSum;
    var zeros := resid[1..7];
    assert resid[0..7] == [7.0] + zeros && resid[1..8] == zeros + [0.0];
    SeqSumAppend([7.0], zeros);
    SeqSumAppend(zeros, [0.0]);
    OneSum(7.0);
    OneSum(0.0);
    assert Mean(resid[0..7]) == Mean(resid[1..8]) + 1.0;
  }

  lemma OneSum(x: real)
    ensures SeqSum([x]) == x
  {
  }
}
