/**
 Price convergence per border: each run counts the hours of whole UTC days into daily points, and a window is
 answered from the points alone.
 */
module Convergence {
  import opened Options
  import opened FiniteSums
  import opened Rounding
  import Borders
  import Calendar

  const FULL_EUR := 1.0
  const LOW_EUR := 10.0
  const DAY := 86400

  type Series = map<int, real>
  type Prices = map<string, Series>

  datatype Border = Border(a: string, b: string)

  datatype Metric = Full | Low | Hours | Spread

  datatype PointKey = PointKey(border: Border, metric: Metric, day: int)

  type Points = map<PointKey, real>

  function DayOf(ts: int): int {
    ts - ts % DAY
  }

  function SeriesOf(prices: Prices, zone: string): Series {
    if zone in prices then prices[zone] else map[]
  }

  /** |price difference| where both sides are priced. */
  function Gap(prices: Prices, border: Border): int -> real {
    var a, b := SeriesOf(prices, border.a), SeriesOf(prices, border.b);
    ts => if ts in a && ts in b then Abs(a[ts] - b[ts]) else 0.0
  }

  /** The hours priced on both sides. */
  function Overlap(prices: Prices, border: Border): set<int> {
    Borders.Common(SeriesOf(prices, border.a), SeriesOf(prices, border.b))
  }

  /** The overlapping hours of one UTC day. */
  function HoursOf(prices: Prices, border: Border, day: int): set<int> {
    set ts | ts in Overlap(prices, border) && DayOf(ts) == day
  }

  /** A day is a UTC calendar day, by its midnight. */
  lemma DayIsMidnight(ts: int)
    ensures DayOf(ts) == Calendar.UnixOfDay(Calendar.DayOfUnix(ts))
  {
  }

  // ----- the bands

  predicate InBand(gap: real, band: Metric) {
    match band
    case Full => gap <= FULL_EUR
    case Low => gap > LOW_EUR
    case Hours => true
    case Spread => false
  }

  function BandHours(hours: set<int>, gap: int -> real, band: Metric): set<int> {
    set ts | ts in hours && InBand(gap(ts), band)
  }

  lemma BandMembers(hours: set<int>, gap: int -> real, band: Metric)
    ensures forall ts :: ts in BandHours(hours, gap, band) <==> ts in hours && InBand(gap(ts), band)
  {
  }

  /** How many hours of a set lie in a band. */
  function CountBand(hours: set<int>, gap: int -> real, band: Metric): nat {
    |BandHours(hours, gap, band)|
  }

  ghost function PointValue(hours: set<int>, gap: int -> real, metric: Metric): real
    requires hours != {}
  {
    if metric == Spread then Sum(hours, gap) / |hours| as real else CountBand(hours, gap, metric) as real
  }

  /** `band_counts` on a day's list of spreads. */
  function BandCounts(spreads: seq<real>): (nat, nat) {
    if spreads == [] then (0, 0)
    else
      var n := |spreads| - 1;
      var (full, low) := BandCounts(spreads[..n]);
      (full + if spreads[n] <= FULL_EUR then 1 else 0, low + if spreads[n] > LOW_EUR then 1 else 0)
  }

  /** A list of spreads, in whatever order, is the list of the gaps of a set of hours. */
  ghost predicate Lists(spreads: seq<real>, hours: set<int>, gap: int -> real) {
    && |spreads| == |hours|
    && SeqSum(spreads) == Sum(hours, gap)
    && BandCounts(spreads) == (CountBand(hours, gap, Full), CountBand(hours, gap, Low))
  }

  lemma ListsNone(gap: int -> real)
    ensures Lists([], {}, gap)
  {
    SumEmpty(gap);
    assert BandHours({}, gap, Full) == {} && BandHours({}, gap, Low) == {};
  }

  lemma ListsOneMore(spreads: seq<real>, hours: set<int>, gap: int -> real, ts: int)
    requires Lists(spreads, hours, gap) && ts !in hours
    ensures Lists(spreads + [gap(ts)], hours + {ts}, gap)
  {
    var longer := spreads + [gap(ts)];
    assert longer[..|spreads|] == spreads;
    SeqSumAppend(spreads, [gap(ts)]);
    SumAdd(hours, gap, ts);
    CountOneMore(hours, gap, ts, Full);
    CountOneMore(hours, gap, ts, Low);
    hide Sum, CountBand;
    assert SeqSum([gap(ts)]) == gap(ts);
  }

  lemma CountOneMore(hours: set<int>, gap: int -> real, ts: int, band: Metric)
    requires ts !in hours
    ensures CountBand(hours + {ts}, gap, band) == CountBand(hours, gap, band) + if InBand(gap(ts), band) then 1 else 0
  {
    var before := BandHours(hours, gap, band);
    assert BandHours(hours + {ts}, gap, band) == if InBand(gap(ts), band) then before + {ts} else before;
  }

  // ----- store_convergence

  /** A run over the whole days of [start, end) rewrites a border's points on the days that have overlapping hours. */
  ghost predicate StoredBy(before: Points, after: Points, prices: Prices, borders: seq<Border>, start: int, end: int) {
    forall k: PointKey :: KeyWritten(before, after, prices, borders, start, end, k)
  }

  ghost predicate KeyWritten(before: Points, after: Points, prices: Prices, borders: seq<Border>, start: int,
                             end: int, k: PointKey) {
    if k.border in borders && start <= k.day < end && HoursOf(prices, k.border, k.day) != {} then
      k in after && after[k] == PointValue(HoursOf(prices, k.border, k.day), Gap(prices, k.border), k.metric)
    else
      (k in after <==> k in before) && (k in after ==> after[k] == before[k])
  }

  /** The four points of one day. */
  function PutDay(points: Points, border: Border, day: int, full: real, low: real, hours: real, spread: real): Points {
    points[PointKey(border, Full, day) := full][PointKey(border, Low, day) := low]
          [PointKey(border, Hours, day) := hours][PointKey(border, Spread, day) := spread]
  }

  class Store {
    var points: Points

    constructor ()
      ensures points == map[]
    {
      points := map[];
    }

    method StoreConvergence(prices: Prices, borders: seq<Border>, start: int, end: int)
      requires start % DAY == 0 && end % DAY == 0
      modifies this
      ensures StoredBy(old(points), points, prices, borders, start, end)
    {
      var i := 0;
      while i < |borders|
        invariant 0 <= i <= |borders|
        invariant StoredBy(old(points), points, prices, borders[..i], start, end)
      {
        var border := borders[i];
        ghost var before := points;
        var byDay := ByDay(prices, border, start, end);
        var todo := byDay.Keys;
        while todo != {}
          invariant todo <= byDay.Keys
          invariant DaysStored(before, points, prices, border, byDay.Keys - todo)
          decreases todo
        {
          ghost var some := Pick(todo);
          var day :| day in todo;
          var spreads := byDay[day];
          var (full, low) := BandCounts(spreads);
          ghost var seen := byDay.Keys - todo;
          DayStored(before, points, prices, border, seen, day, spreads);
          hide DaysStored;
          points := PutDay(points, border, day, full as real, low as real, |spreads| as real,
                           SeqSum(spreads) / |spreads| as real);
          todo := todo - {day};
          assert byDay.Keys - todo == seen + {day};
        }
        assert byDay.Keys - todo == byDay.Keys;
        BorderStored(old(points), before, points, prices, borders, i, start, end, byDay.Keys);
        i := i + 1;
      }
      assert borders[..i] == borders;
    }

    /** The spreads of one border in [start, end), by day. */
    method ByDay(prices: Prices, border: Border, start: int, end: int) returns (byDay: map<int, seq<real>>)
      requires start % DAY == 0 && end % DAY == 0
      ensures forall d :: d in byDay <==> start <= d < end && HoursOf(prices, border, d) != {}
      ensures forall d | d in byDay :: byDay[d] != [] && Lists(byDay[d], HoursOf(prices, border, d), Gap(prices, border))
    {
      var a, b := SeriesOf(prices, border.a), SeriesOf(prices, border.b);
      ghost var gap := Gap(prices, border);
      var window := set ts | ts in a.Keys * b.Keys && start <= ts < end;
      var todo := window;
      byDay := map[];
      ghost var done: set<int> := {};
      DaysListedNone(gap);
      while todo != {}
        invariant todo <= window && done == window - todo
        invariant DaysListed(byDay, done, gap)
        decreases todo
      {
        var ts :| ts in todo;
        var day := DayOf(ts);
        var spread := Abs(a[ts] - b[ts]);
        DaysListedStep(byDay, done, gap, ts);
        hide DaysListed, DayOf;
        byDay := byDay[day := (if day in byDay then byDay[day] else []) + [spread]];
        todo := todo - {ts};
        done := done + {ts};
      }
      assert done == window;
      WindowListed(byDay, prices, border, start, end, window);
    }
  }

  /** The border's points on these days are new, and all others are as before. */
  ghost predicate DaysStored(before: Points, after: Points, prices: Prices, border: Border, days: set<int>) {
    forall k: PointKey :: KeyStored(before, after, prices, border, days, k)
  }

  ghost predicate KeyStored(before: Points, after: Points, prices: Prices, border: Border, days: set<int>,
                            k: PointKey) {
    if k.border == border && k.day in days && HoursOf(prices, border, k.day) != {} then
      k in after && after[k] == PointValue(HoursOf(prices, border, k.day), Gap(prices, border), k.metric)
    else
      (k in after <==> k in before) && (k in after ==> after[k] == before[k])
  }

  lemma DayStored(before: Points, points: Points, prices: Prices, border: Border, days: set<int>, day: int,
                  spreads: seq<real>)
    requires DaysStored(before, points, prices, border, days)
    requires spreads != [] && Lists(spreads, HoursOf(prices, border, day), Gap(prices, border))
    ensures var (full, low) := BandCounts(spreads);
            DaysStored(before, PutDay(points, border, day, full as real, low as real, |spreads| as real,
                                      SeqSum(spreads) / |spreads| as real), prices, border, days + {day})
  {
    hide KeyStored, PutDay, BandCounts, SeqSum, Lists, PointValue, HoursOf, Gap;
    var (full, low) := BandCounts(spreads);
    var n, mean := |spreads| as real, SeqSum(spreads) / |spreads| as real;
    var after, more := PutDay(points, border, day, full as real, low as real, n, mean), days + {day};
    forall k: PointKey ensures KeyStored(before, after, prices, border, more, k)
    {
      assert KeyStored(before, points, prices, border, days, k);
      KeyStep(before, points, prices, border, days, day, spreads, k);
    }
  }

  lemma KeyStep(before: Points, points: Points, prices: Prices, border: Border, days: set<int>, day: int,
                spreads: seq<real>, k: PointKey)
    requires KeyStored(before, points, prices, border, days, k)
    requires spreads != [] && Lists(spreads, HoursOf(prices, border, day), Gap(prices, border))
    ensures var (full, low) := BandCounts(spreads);
            KeyStored(before, PutDay(points, border, day, full as real, low as real, |spreads| as real,
                                     SeqSum(spreads) / |spreads| as real), prices, border, days + {day}, k)
  {
    var (full, low) := BandCounts(spreads);
    DayValues(spreads, HoursOf(prices, border, day), Gap(prices, border));
    hide PutDay, BandCounts, SeqSum, Lists, PointValue, HoursOf, Gap;
    PutDayAt(points, border, day, full as real, low as real, |spreads| as real, SeqSum(spreads) / |spreads| as real, k);
  }

  lemma PutDayAt(points: Points, border: Border, day: int, full: real, low: real, hours: real, spread: real,
                 k: PointKey)
    ensures var after := PutDay(points, border, day, full, low, hours, spread);
            if k.border == border && k.day == day then
              k in after &&
              after[k] == match k.metric case Full => full case Low => low case Hours => hours case Spread => spread
            else (k in after <==> k in points) && (k in after ==> after[k] == points[k])
  {
  }

  lemma DayValues(spreads: seq<real>, hours: set<int>, gap: int -> real)
    requires spreads != [] && Lists(spreads, hours, gap)
    ensures hours != {}
    ensures PointValue(hours, gap, Full) == BandCounts(spreads).0 as real
    ensures PointValue(hours, gap, Low) == BandCounts(spreads).1 as real
    ensures PointValue(hours, gap, Hours) == |spreads| as real
    ensures PointValue(hours, gap, Spread) == SeqSum(spreads) / |spreads| as real
  {
    BandMembers(hours, gap, Hours);
    assert BandHours(hours, gap, Hours) == hours;
  }

  lemma {:induction false} BorderStored(initial: Points, before: Points, after: Points, prices: Prices,
                                        borders: seq<Border>, i: nat,
                     start: int, end: int, days: set<int>)
    requires i < |borders|
    requires StoredBy(initial, before, prices, borders[..i], start, end)
    requires forall d :: d in days <==> start <= d < end && HoursOf(prices, borders[i], d) != {}
    requires DaysStored(before, after, prices, borders[i], days)
    ensures StoredBy(initial, after, prices, borders[..i + 1], start, end)
  {
    hide PointValue, HoursOf, Gap;
    var earlier, sofar := borders[..i], borders[..i + 1];
    forall k: PointKey ensures KeyWritten(initial, after, prices, sofar, start, end, k) {
      assert KeyWritten(initial, before, prices, earlier, start, end, k);
      assert KeyStored(before, after, prices, borders[i], days, k);
      assert k.border in sofar <==> k.border in earlier || k.border == borders[i];
    }
  }

  /** The dictionary lists the hours seen so far under their days, and has no other days. */
  ghost predicate DaysListed(byDay: map<int, seq<real>>, seen: set<int>, gap: int -> real) {
    forall d :: (d in byDay <==> Fibre(seen, DayOf, d) != {}) &&
                (d in byDay ==> Lists(byDay[d], Fibre(seen, DayOf, d), gap))
  }

  lemma DaysListedNone(gap: int -> real)
    ensures DaysListed(map[], {}, gap)
  {
  }

  lemma DaysListedStep(byDay: map<int, seq<real>>, seen: set<int>, gap: int -> real, ts: int)
    requires DaysListed(byDay, seen, gap) && ts !in seen
    ensures var d := DayOf(ts);
            DaysListed(byDay[d := (if d in byDay then byDay[d] else []) + [gap(ts)]], seen + {ts}, gap)
  {
    hide Lists, DayOf, Fibre;
    var day := DayOf(ts);
    var before := if day in byDay then byDay[day] else [];
    FibreStep(seen, seen + {ts}, ts);
    ListsNone(gap);
    assert Lists(before, Fibre(seen, DayOf, day), gap);
    FibreWithout(seen, day, ts);
    ListsOneMore(before, Fibre(seen, DayOf, day), gap, ts);
  }

  lemma FibreWithout(seen: set<int>, day: int, ts: int)
    requires ts !in seen
    ensures ts !in Fibre(seen, DayOf, day)
  {
  }

  lemma WindowListed(byDay: map<int, seq<real>>, prices: Prices, border: Border, start: int, end: int, window: set<int>)
    requires start % DAY == 0 && end % DAY == 0
    requires window == set ts | ts in Overlap(prices, border) && start <= ts < end
    requires DaysListed(byDay, window, Gap(prices, border))
    ensures forall d :: d in byDay <==> start <= d < end && HoursOf(prices, border, d) != {}
    ensures forall d | d in byDay :: byDay[d] != [] && Lists(byDay[d], HoursOf(prices, border, d), Gap(prices, border))
  {
    forall d
      ensures d in byDay <==> start <= d < end && HoursOf(prices, border, d) != {}
      ensures d in byDay ==> byDay[d] != [] && Lists(byDay[d], HoursOf(prices, border, d), Gap(prices, border))
    {
      WholeDays(prices, border, start, end, d);
    }
  }

  lemma FibreStep(done: set<int>, after: set<int>, ts: int)
    requires ts !in done && after == done + {ts}
    ensures forall d :: Fibre(after, DayOf, d) == if d == DayOf(ts) then Fibre(done, DayOf, d) + {ts} else Fibre(done, DayOf, d)
  {
  }

  /** A window of whole days holds all hours of a day or none. */
  lemma WholeDays(prices: Prices, border: Border, start: int, end: int, d: int)
    requires start % DAY == 0 && end % DAY == 0
    ensures var window := set ts | ts in Overlap(prices, border) && start <= ts < end;
            Fibre(window, DayOf, d) == if start <= d < end then HoursOf(prices, border, d) else {}
  {
    forall ts ensures DayOf(ts) == d ==> (start <= ts < end <==> start <= d < end) {
      DayBounds(ts, start, end);
    }
  }

  lemma DayBounds(ts: int, start: int, end: int)
    requires start % DAY == 0 && end % DAY == 0
    ensures start <= ts < end <==> start <= DayOf(ts) < end
  {
    assert ts == DAY * (ts / DAY) + ts % DAY;
    assert start == DAY * (start / DAY) && end == DAY * (end / DAY);
  }

  // ----- compute_convergence

  function At(points: Points, border: Border, metric: Metric): int -> real {
    d => if PointKey(border, metric, d) in points then points[PointKey(border, metric, d)] else 0.0
  }

  function Weighted(points: Points, border: Border): int -> real {
    d => At(points, border, Spread)(d) * At(points, border, Hours)(d)
  }

  /** The days a border has points on, from `start` on. */
  function Days(points: Points, border: Border, start: int): set<int> {
    set k | k in points && k.border == border && k.day >= start :: k.day
  }

  datatype Shares = Shares(hours: real, fullPct: real, moderatePct: real, lowPct: real, meanAbsSpread: real)

  /** The totals of a window, and the shares that are reported when it has any hours. */
  method ComputeBorder(points: Points, border: Border, start: int)
    returns (full: real, low: real, hours: real, weighted: real, shares: Option<Shares>)
    ensures var days := Days(points, border, start);
            && full == Sum(days, At(points, border, Full)) && low == Sum(days, At(points, border, Low))
            && hours == Sum(days, At(points, border, Hours)) && weighted == Sum(days, Weighted(points, border))
    ensures shares == if hours == 0.0 then None
                      else Some(Shares(hours, Round1(100.0 * full / hours), Round1(100.0 * (hours - full - low) / hours),
                                       Round1(100.0 * low / hours), Round2(weighted / hours)))
  {
    hide Sum;
    var days := Days(points, border, start);
    var todo := days;
    full, low, hours, weighted := 0.0, 0.0, 0.0, 0.0;
    ghost var done: set<int> := {};
    SumEmpty(At(points, border, Full));
    SumEmpty(At(points, border, Low));
    SumEmpty(At(points, border, Hours));
    SumEmpty(Weighted(points, border));
    while todo != {}
      invariant todo <= days && done == days - todo
      invariant full == Sum(done, At(points, border, Full)) && low == Sum(done, At(points, border, Low))
      invariant hours == Sum(done, At(points, border, Hours)) && weighted == Sum(done, Weighted(points, border))
      decreases todo
    {
      ghost var some := Pick(todo);
      var d :| d in todo;
      SumAdd(done, At(points, border, Full), d);
      SumAdd(done, At(points, border, Low), d);
      SumAdd(done, At(points, border, Hours), d);
      SumAdd(done, Weighted(points, border), d);
      full := full + At(points, border, Full)(d);
      low := low + At(points, border, Low)(d);
      hours := hours + At(points, border, Hours)(d);
      weighted := weighted + Weighted(points, border)(d);
      todo := todo - {d};
      done := done + {d};
    }
    assert done == days;
    if hours == 0.0 {
      shares := None;
    } else {
      var moderate := hours - full - low;
      shares := Some(Shares(hours, Round1(100.0 * full / hours), Round1(100.0 * moderate / hours),
                            Round1(100.0 * low / hours), Round2(weighted / hours)));
    }
  }

  // ----- whole histories

  datatype Run = Run(prices: Prices, start: int, end: int)

  ghost predicate WholeDayRun(r: Run) {
    r.start % DAY == 0 && r.end % DAY == 0
  }

  /** The stores a sequence of runs goes through, from an empty one. */
  ghost predicate History(stores: seq<Points>, runs: seq<Run>, borders: seq<Border>) {
    && |stores| == |runs| + 1 && stores[0] == map[]
    && (forall i | 0 <= i < |runs| :: WholeDayRun(runs[i]))
    && forall i | 0 <= i < |runs| :: StoredBy(stores[i], stores[i + 1], runs[i].prices, borders, runs[i].start, runs[i].end)
  }

  predicate Covers(r: Run, border: Border, day: int) {
    r.start <= day < r.end && HoursOf(r.prices, border, day) != {}
  }

  /** The last run that found overlapping hours on a day. */
  function Latest(runs: seq<Run>, border: Border, day: int): Option<Run> {
    if runs == [] then None
    else if Covers(runs[|runs| - 1], border, day) then Some(runs[|runs| - 1])
    else Latest(runs[..|runs| - 1], border, day)
  }

  /** Every point is the one the latest covering run computed: a restated price restates its day on the next run. */
  lemma {:induction false} LatestRunWins(stores: seq<Points>, runs: seq<Run>, borders: seq<Border>, k: PointKey)
    requires History(stores, runs, borders)
    ensures var final, latest := stores[|runs|], Latest(runs, k.border, k.day);
            if k.border in borders && latest.Some? then
              HoursOf(latest.value.prices, k.border, k.day) != {} && k in final &&
              final[k] == PointValue(HoursOf(latest.value.prices, k.border, k.day), Gap(latest.value.prices, k.border), k.metric)
            else k !in final
    decreases |runs|
  {
    hide PointValue, HoursOf, Gap;
    if runs != [] {
      var n := |runs| - 1;
      assert runs[..n] + [runs[n]] == runs;
      LatestRunWins(stores[..n + 1], runs[..n], borders, k);
      assert StoredBy(stores[n], stores[n + 1], runs[n].prices, borders, runs[n].start, runs[n].end);
      assert KeyWritten(stores[n], stores[n + 1], runs[n].prices, borders, runs[n].start, runs[n].end, k);
    }
  }

  // ----- re-aggregation

  /** The hours behind the points of a border from `start` on. */
  ghost function HoursBehind(prices: Prices, points: Points, border: Border, start: int): set<int> {
    set ts | ts in Overlap(prices, border) && DayOf(ts) in Days(points, border, start)
  }

  /** Each day of the store holds the counts and the mean of its hours under these prices. */
  ghost predicate Faithful(points: Points, prices: Prices, border: Border) {
    forall d, metric | PointKey(border, metric, d) in points ::
      HoursOf(prices, border, d) != {} &&
      (forall m :: PointKey(border, m, d) in points) &&
      points[PointKey(border, metric, d)] == PointValue(HoursOf(prices, border, d), Gap(prices, border), metric)
  }

  lemma {:induction false} HistoryIsFaithful(stores: seq<Points>, runs: seq<Run>, borders: seq<Border>,
                                             prices: Prices, border: Border)
    requires History(stores, runs, borders)
    requires forall i | 0 <= i < |runs| :: runs[i].prices == prices
    ensures Faithful(stores[|runs|], prices, border)
    ensures forall d, metric :: PointKey(border, metric, d) in stores[|runs|] <==>
              border in borders && exists i :: 0 <= i < |runs| && Covers(runs[i], border, d)
  {
    hide PointValue, HoursOf, Gap, StoredBy;
    forall d, metric
      ensures PointKey(border, metric, d) in stores[|runs|] <==>
                border in borders && exists i :: 0 <= i < |runs| && Covers(runs[i], border, d)
      ensures PointKey(border, metric, d) in stores[|runs|] ==>
                HoursOf(prices, border, d) != {} &&
                stores[|runs|][PointKey(border, metric, d)] == PointValue(HoursOf(prices, border, d), Gap(prices, border), metric)
    {
      LatestRunWins(stores, runs, borders, PointKey(border, metric, d));
      LatestExists(runs, border, d);
    }
  }

  lemma {:induction false} LatestExists(runs: seq<Run>, border: Border, day: int)
    ensures Latest(runs, border, day).Some? <==> exists i :: 0 <= i < |runs| && Covers(runs[i], border, day)
    ensures Latest(runs, border, day).Some? ==> Latest(runs, border, day).value in runs
  {
    if runs != [] {
      var n := |runs| - 1;
      LatestExists(runs[..n], border, day);
      if i :| 0 <= i < n && Covers(runs[..n][i], border, day) {
        assert Covers(runs[i], border, day);
      }
      if i :| 0 <= i < |runs| && Covers(runs[i], border, day) && i < n {
        assert Covers(runs[..n][i], border, day);
      }
    }
  }

  /** Daily totals of any per-hour quantity add up to its sum over the hours behind the days. */
  lemma {:induction false} Regroup(points: Points, prices: Prices, border: Border, start: int, f: int -> real,
                                   total: int -> real)
    requires Faithful(points, prices, border)
    requires forall d | d in Days(points, border, start) :: total(d) == Sum(HoursOf(prices, border, d), f)
    ensures Sum(Days(points, border, start), total) == Sum(HoursBehind(prices, points, border, start), f)
  {
    hide Sum;
    var hours, days := HoursBehind(prices, points, border, start), Days(points, border, start);
    forall d | d in days ensures total(d) == Sum(Fibre(hours, DayOf, d), f) {
      assert Fibre(hours, DayOf, d) == HoursOf(prices, border, d);
    }
    SumByGroup(hours, DayOf, f, days, total);
  }

  function Indicator(gap: int -> real, band: Metric): int -> real {
    ts => if InBand(gap(ts), band) then 1.0 else 0.0
  }

  lemma CountIsSum(hours: set<int>, gap: int -> real, band: Metric)
    ensures Sum(hours, Indicator(gap, band)) == CountBand(hours, gap, band) as real
  {
    BandMembers(hours, gap, band);
    SumCount(hours, BandHours(hours, gap, band), Indicator(gap, band));
  }

  lemma BandReaggregates(points: Points, prices: Prices, border: Border, start: int, band: Metric)
    requires Faithful(points, prices, border) && band != Spread
    ensures Sum(Days(points, border, start), At(points, border, band))
         == CountBand(HoursBehind(prices, points, border, start), Gap(prices, border), band) as real
  {
    var gap := Gap(prices, border);
    forall d | d in Days(points, border, start)
      ensures At(points, border, band)(d) == Sum(HoursOf(prices, border, d), Indicator(gap, band))
    {
      CountIsSum(HoursOf(prices, border, d), gap, band);
      assert PointKey(border, band, d) in points;
    }
    hide Sum, Faithful;
    Regroup(points, prices, border, start, Indicator(gap, band), At(points, border, band));
    CountIsSum(HoursBehind(prices, points, border, start), gap, band);
  }

  lemma SpreadReaggregates(points: Points, prices: Prices, border: Border, start: int)
    requires Faithful(points, prices, border)
    ensures Sum(Days(points, border, start), Weighted(points, border))
         == Sum(HoursBehind(prices, points, border, start), Gap(prices, border))
  {
    hide Sum;
    var gap := Gap(prices, border);
    forall d | d in Days(points, border, start)
      ensures Weighted(points, border)(d) == Sum(HoursOf(prices, border, d), gap)
    {
      var hours := HoursOf(prices, border, d);
      assert PointKey(border, Spread, d) in points && PointKey(border, Hours, d) in points;
      CountAll(hours, gap);
      MeanTimesCount(Sum(hours, gap), |hours|);
      assert At(points, border, Spread)(d) == Sum(hours, gap) / |hours| as real;
      assert At(points, border, Hours)(d) == |hours| as real;
    }
    hide Faithful;
    Regroup(points, prices, border, start, gap, Weighted(points, border));
  }

  lemma CountAll(hours: set<int>, gap: int -> real)
    ensures CountBand(hours, gap, Hours) == |hours|
  {
    BandMembers(hours, gap, Hours);
    assert BandHours(hours, gap, Hours) == hours;
  }

  lemma MeanTimesCount(total: real, n: nat)
    requires n > 0
    ensures total / n as real * n as real == total
  {
  }

  /**
   The points alone give exactly the hour-level counts, the number of hours and the sum of |price differences|, and
   so the exact mean, whatever the lengths of the days.
   */
  lemma ReaggregatesExactly(points: Points, prices: Prices, border: Border, start: int)
    requires Faithful(points, prices, border)
    ensures var days, hours, gap := Days(points, border, start), HoursBehind(prices, points, border, start), Gap(prices, border);
            && Sum(days, At(points, border, Full)) == CountBand(hours, gap, Full) as real
            && Sum(days, At(points, border, Low)) == CountBand(hours, gap, Low) as real
            && Sum(days, At(points, border, Hours)) == |hours| as real
            && Sum(days, Weighted(points, border)) == Sum(hours, gap)
  {
    BandReaggregates(points, prices, border, start, Full);
    BandReaggregates(points, prices, border, start, Low);
    BandReaggregates(points, prices, border, start, Hours);
    CountAll(HoursBehind(prices, points, border, start), Gap(prices, border));
    SpreadReaggregates(points, prices, border, start);
  }

  /** However history was cut into whole-day runs, the hours behind a window are the covered hours of its days. */
  lemma {:induction false} HoursBehindHistory(stores: seq<Points>, runs: seq<Run>, borders: seq<Border>, prices: Prices,
                           border: Border, start: int)
    requires History(stores, runs, borders) && border in borders
    requires forall i | 0 <= i < |runs| :: runs[i].prices == prices
    ensures Faithful(stores[|runs|], prices, border)
    ensures forall ts :: ts in HoursBehind(prices, stores[|runs|], border, start) <==>
              ts in Overlap(prices, border) && DayOf(ts) >= start &&
              exists i :: 0 <= i < |runs| && runs[i].start <= ts < runs[i].end
  {
    HistoryIsFaithful(stores, runs, borders, prices, border);
    hide Faithful, History, StoredBy;
    var final := stores[|runs|];
    forall ts | ts in Overlap(prices, border)
      ensures DayOf(ts) in Days(final, border, start) <==>
                DayOf(ts) >= start && exists i :: 0 <= i < |runs| && runs[i].start <= ts < runs[i].end
    {
      assert ts in HoursOf(prices, border, DayOf(ts));
      DayIn(final, border, start, DayOf(ts));
      assert PointKey(border, Full, DayOf(ts)) in final <==> exists i :: 0 <= i < |runs| && Covers(runs[i], border, DayOf(ts));
      hide DayOf, HoursOf, Overlap;
      forall i | 0 <= i < |runs| ensures Covers(runs[i], border, DayOf(ts)) <==> runs[i].start <= ts < runs[i].end {
        assert WholeDayRun(runs[i]) by { HistoryRuns(stores, runs, borders, i); }
        DayBounds(ts, runs[i].start, runs[i].end);
      }
    }
  }

  lemma HistoryRuns(stores: seq<Points>, runs: seq<Run>, borders: seq<Border>, i: nat)
    requires History(stores, runs, borders) && i < |runs|
    ensures WholeDayRun(runs[i])
  {
  }

  lemma DayIn(points: Points, border: Border, start: int, d: int)
    ensures d in Days(points, border, start) <==>
              d >= start && exists m :: PointKey(border, m, d) in points
  {
    if k :| k in points && k.border == border && k.day >= start && k.day == d {
      assert PointKey(border, k.metric, d) in points;
    }
  }

  /** The three bands partition the hours: moderate is hours - full - low, and never negative. */
  lemma ModerateIsTheRest(hours: set<int>, gap: int -> real)
    ensures |hours| - CountBand(hours, gap, Full) - CountBand(hours, gap, Low)
         == |set ts | ts in hours && 1.0 < gap(ts) <= 10.0|
    ensures CountBand(hours, gap, Low) == |set ts | ts in hours && gap(ts) > 10.0|
  {
    var full, low := BandHours(hours, gap, Full), BandHours(hours, gap, Low);
    BandMembers(hours, gap, Full);
    BandMembers(hours, gap, Low);
    var moderate := set ts | ts in hours && FULL_EUR < gap(ts) <= LOW_EUR;
    assert low == set ts | ts in hours && gap(ts) > 10.0;
    assert hours == full + low + moderate && full !! low && full + low !! moderate;
  }

  function Restricted(s: Series, hours: set<int>): Series {
    map ts | ts in s && ts in hours :: s[ts]
  }

  /** One convergence vocabulary: the full count is the coupled count of the border statistics on the same hours. */
  lemma FullIsCoupled(prices: Prices, border: Border, hours: set<int>)
    requires hours <= Overlap(prices, border)
    ensures CountBand(hours, Gap(prices, border), Full)
         == |Borders.CoupledHours(Restricted(SeriesOf(prices, border.a), hours), Restricted(SeriesOf(prices, border.b), hours))|
  {
    var a, b := Restricted(SeriesOf(prices, border.a), hours), Restricted(SeriesOf(prices, border.b), hours);
    var gap := Gap(prices, border);
    forall ts ensures ts in BandHours(hours, gap, Full) <==> ts in Borders.CoupledHours(a, b) {
      if ts in hours {
        assert gap(ts) == Abs(a[ts] - b[ts]);
      }
    }
    assert BandHours(hours, gap, Full) == Borders.CoupledHours(a, b);
  }
}
