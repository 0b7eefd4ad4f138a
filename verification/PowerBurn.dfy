/**
 Gas-fired generation out of an ENTSO-E document: which points count, and the gas day each lands in. Text that does
 not parse is `None`; energies are MWh, results GWh by gas day.
 */
module PowerBurn {
  import opened Options
  import opened FiniteSums
  import GasDay

  const PSR_FOSSIL_GAS := "B04"

  datatype Point = Point(position: Option<int>, quantity: Option<real>)

  /** `start` is an instant of UTC in microseconds. */
  datatype Period = Period(start: Option<int>, resolution: string, points: seq<Point>)

  datatype TimeSeries = TimeSeries(psrType: Option<string>, hasOutDomain: bool, periods: seq<Period>)

  /** One accepted point: its instant and its energy. */
  datatype Sample = Sample(at: int, mwh: real)

  function ResolutionMinutes(resolution: string): Option<int> {
    match resolution
    case "PT60M" => Some(60)
    case "PT30M" => Some(30)
    case "PT15M" => Some(15)
    case _ => None
  }

  /** Fossil gas or untyped, and not the plants' own consumption. */
  predicate IsGeneration(ts: TimeSeries) {
    (ts.psrType.None? || ts.psrType.value == PSR_FOSSIL_GAS) && !ts.hasOutDomain
  }

  predicate IsTimed(p: Period) {
    p.start.Some? && ResolutionMinutes(p.resolution).Some?
  }

  predicate IsReading(x: Point) {
    x.position.Some? && x.quantity.Some?
  }

  function SampleOf(p: Period, x: Point): Sample
    requires IsTimed(p) && IsReading(x)
  {
    var minutes := ResolutionMinutes(p.resolution).value;
    Sample(p.start.value + minutes * (GasDay.HOUR / 60) * (x.position.value - 1), x.quantity.value * (minutes as real / 60.0))
  }

  // ----- the accepted points of a document, in document order

  function PointSamples(p: Period, n: nat): seq<Sample>
    requires n <= |p.points| && IsTimed(p)
  {
    if n == 0 then []
    else PointSamples(p, n - 1) + if IsReading(p.points[n - 1]) then [SampleOf(p, p.points[n - 1])] else []
  }

  function PeriodSamples(ts: TimeSeries, n: nat): seq<Sample>
    requires n <= |ts.periods|
  {
    if n == 0 then []
    else
      var p := ts.periods[n - 1];
      PeriodSamples(ts, n - 1) + if IsTimed(p) then PointSamples(p, |p.points|) else []
  }

  function DocumentSamples(doc: seq<TimeSeries>, n: nat): seq<Sample>
    requires n <= |doc|
  {
    if n == 0 then []
    else
      var ts := doc[n - 1];
      DocumentSamples(doc, n - 1) + if IsGeneration(ts) then PeriodSamples(ts, |ts.periods|) else []
  }

  function Accepted(doc: seq<TimeSeries>): seq<Sample> {
    DocumentSamples(doc, |doc|)
  }

  /** Every accepted point lies in the range of `datetime`; elsewhere the source raises. */
  ghost predicate Representable(samples: seq<Sample>) {
    forall i | 0 <= i < |samples| :: samples[i].at >= 0
  }

  const MICROSECONDS_OF_A_MINUTE := 60000000

  /** The resolutions that count, in minutes. */
  predicate Lasts(resolution: string, minutes: int) {
    (resolution == "PT60M" && minutes == 60) || (resolution == "PT30M" && minutes == 30) || (resolution == "PT15M" && minutes == 15)
  }

  /** A point of so many minutes carries their part of an hour's energy at its power, from its place after the start on. */
  lemma PointMeans(p: Period, x: Point, minutes: int)
    requires p.start.Some? && Lasts(p.resolution, minutes) && IsReading(x)
    ensures IsTimed(p)
    ensures SampleOf(p, x).mwh * 60.0 == x.quantity.value * minutes as real
    ensures SampleOf(p, x).at == p.start.value + (x.position.value - 1) * minutes * MICROSECONDS_OF_A_MINUTE
  {
  }

  /** Four quarter-hour points of one power are one hourly point: together they begin with it and carry its energy. */
  lemma FourQuartersAreAnHour(hourly: Period, quarterly: Period, place: int, power: real)
    requires hourly.start.Some? && quarterly.start == hourly.start
    requires hourly.resolution == "PT60M" && quarterly.resolution == "PT15M"
    ensures var hour := SampleOf(hourly, Point(Some(place), Some(power)));
            var first := SampleOf(quarterly, Point(Some(4 * place - 3), Some(power)));
            var second := SampleOf(quarterly, Point(Some(4 * place - 2), Some(power)));
            var third := SampleOf(quarterly, Point(Some(4 * place - 1), Some(power)));
            var last := SampleOf(quarterly, Point(Some(4 * place), Some(power)));
            && first.mwh + second.mwh + third.mwh + last.mwh == hour.mwh == power
            && hour.at == first.at < second.at < third.at < last.at < hour.at + 60 * MICROSECONDS_OF_A_MINUTE
  {
    PointMeans(hourly, Point(Some(place), Some(power)), 60);
    PointMeans(quarterly, Point(Some(4 * place - 3), Some(power)), 15);
    PointMeans(quarterly, Point(Some(4 * place - 2), Some(power)), 15);
    PointMeans(quarterly, Point(Some(4 * place - 1), Some(power)), 15);
    PointMeans(quarterly, Point(Some(4 * place), Some(power)), 15);
  }

  /** Time series i, period j, point k gives the sample: it is gas or untyped, produced, timed and read. */
  ghost predicate Gives(doc: seq<TimeSeries>, i: nat, j: nat, k: nat, s: Sample) {
    && i < |doc| && (doc[i].psrType.None? || doc[i].psrType.value == "B04") && !doc[i].hasOutDomain
    && PeriodGives(doc[i], j, k, s)
  }

  ghost predicate PeriodGives(ts: TimeSeries, j: nat, k: nat, s: Sample) {
    j < |ts.periods| && PointGives(ts.periods[j], k, s)
  }

  ghost predicate PointGives(p: Period, k: nat, s: Sample) {
    && p.start.Some? && (Lasts(p.resolution, 60) || Lasts(p.resolution, 30) || Lasts(p.resolution, 15))
    && k < |p.points| && p.points[k].position.Some? && p.points[k].quantity.Some? && s == SampleOf(p, p.points[k])
  }

  lemma TimedLasts(p: Period)
    ensures IsTimed(p) <==> p.start.Some? && (Lasts(p.resolution, 60) || Lasts(p.resolution, 30) || Lasts(p.resolution, 15))
  {
  }

  lemma {:induction false} PointsGiven(p: Period, n: nat, s: Sample)
    requires n <= |p.points| && IsTimed(p)
    ensures s in PointSamples(p, n) <==> exists k: nat :: k < n && PointGives(p, k, s)
  {
    TimedLasts(p);
    hide SampleOf, ResolutionMinutes, Lasts;
    if n > 0 {
      PointsGiven(p, n - 1, s);
      var x := p.points[n - 1];
      assert IsReading(x) ==> PointGives(p, n - 1, SampleOf(p, x));
    }
  }

  lemma {:induction false} PeriodsGiven(ts: TimeSeries, n: nat, s: Sample)
    requires n <= |ts.periods|
    ensures s in PeriodSamples(ts, n) <==> exists j: nat, k: nat :: j < n && PeriodGives(ts, j, k, s)
  {
    hide PointSamples, PointGives, IsTimed;
    if n > 0 {
      var p := ts.periods[n - 1];
      PeriodsGiven(ts, n - 1, s);
      TimedGives(p, s);
      if IsTimed(p) {
        PointsGiven(p, |p.points|, s);
      }
      if k: nat :| PointGives(p, k, s) {
        assert PeriodGives(ts, n - 1, k, s);
        assert s in PointSamples(p, |p.points|);
      }
      if s in PeriodSamples(ts, n) && s !in PeriodSamples(ts, n - 1) {
        var k: nat :| PointGives(p, k, s);
        assert PeriodGives(ts, n - 1, k, s);
      }
    }
  }

  lemma TimedGives(p: Period, s: Sample)
    ensures (exists k: nat :: PointGives(p, k, s)) ==> IsTimed(p)
    ensures forall k: nat | PointGives(p, k, s) :: k < |p.points|
  {
    hide SampleOf;
  }

  /** The accepted samples are exactly those that some point of the document gives. */
  lemma {:induction false} AcceptedExactly(doc: seq<TimeSeries>, n: nat, s: Sample)
    requires n <= |doc|
    ensures s in DocumentSamples(doc, n) <==> exists i: nat, j: nat, k: nat :: i < n && Gives(doc, i, j, k, s)
  {
    hide PeriodSamples, PeriodGives;
    if n > 0 {
      var ts := doc[n - 1];
      AcceptedExactly(doc, n - 1, s);
      PeriodsGiven(ts, |ts.periods|, s);
      InRange(ts, s);
      if j: nat, k: nat :| PeriodGives(ts, j, k, s) {
        if IsGeneration(ts) {
          assert Gives(doc, n - 1, j, k, s);
        }
      }
    }
  }

  lemma InRange(ts: TimeSeries, s: Sample)
    ensures forall j: nat, k: nat | PeriodGives(ts, j, k, s) :: j < |ts.periods|
  {
    hide PointGives;
  }

  // ----- buckets

  type Buckets = map<int, real>

  function DayOf(s: Sample): int {
    if s.at >= 0 then GasDay.GasDayOf(GasDay.Naive(s.at)) else -1
  }

  function AddTo(m: Buckets, s: Sample): Buckets {
    m[DayOf(s) := (if DayOf(s) in m then m[DayOf(s)] else 0.0) + s.mwh]
  }

  function Bucketed(samples: seq<Sample>): Buckets {
    if samples == [] then map[] else AddTo(Bucketed(samples[..|samples| - 1]), samples[|samples| - 1])
  }

  function ToGwh(m: Buckets): Buckets {
    map d | d in m :: m[d] / 1000.0
  }

  method ParseGeneration(doc: seq<TimeSeries>) returns (byDay: Buckets)
    requires Representable(Accepted(doc))
    ensures byDay == ToGwh(Bucketed(Accepted(doc)))
  {
    hide Bucketed, PeriodSamples;
    var mwh: Buckets := map[];
    BucketedNone();
    for i := 0 to |doc|
      invariant mwh == Bucketed(DocumentSamples(doc, i))
    {
      var ts := doc[i];
      if (ts.psrType.None? || ts.psrType.value == PSR_FOSSIL_GAS) && !ts.hasOutDomain {
        mwh := ParseSeries(ts, mwh, DocumentSamples(doc, i));
      } else {
        assert DocumentSamples(doc, i + 1) == DocumentSamples(doc, i);
      }
    }
    byDay := map d | d in mwh :: mwh[d] / 1000.0;
  }

  lemma BucketedNone()
    ensures Bucketed([]) == map[]
  {
  }

  /** The periods of one time series. */
  method ParseSeries(ts: TimeSeries, mwh: Buckets, ghost before: seq<Sample>) returns (after: Buckets)
    requires mwh == Bucketed(before)
    ensures after == Bucketed(before + PeriodSamples(ts, |ts.periods|))
  {
    hide Bucketed, PointSamples, ResolutionMinutes;
    after := mwh;
    assert before == before + PeriodSamples(ts, 0);
    for j := 0 to |ts.periods|
      invariant after == Bucketed(before + PeriodSamples(ts, j))
    {
      var p := ts.periods[j];
      if p.start.Some? && ResolutionMinutes(p.resolution).Some? {
        after := ParsePeriod(p, after, before + PeriodSamples(ts, j));
        assert before + PeriodSamples(ts, j) + PointSamples(p, |p.points|) == before + PeriodSamples(ts, j + 1);
      } else {
        assert PeriodSamples(ts, j + 1) == PeriodSamples(ts, j);
      }
    }
  }

  lemma BucketedOneMore(samples: seq<Sample>, s: Sample)
    ensures Bucketed(samples + [s]) == AddTo(Bucketed(samples), s)
  {
    hide AddTo;
    assert (samples + [s])[..|samples|] == samples;
  }

  /** The innermost loop. */
  method ParsePeriod(p: Period, mwh: Buckets, ghost before: seq<Sample>) returns (after: Buckets)
    requires IsTimed(p) && mwh == Bucketed(before)
    ensures after == Bucketed(before + PointSamples(p, |p.points|))
  {
    hide Bucketed, AddTo, SampleOf, ResolutionMinutes;
    after := mwh;
    var k := 0;
    assert before == before + PointSamples(p, 0);
    while k < |p.points|
      invariant 0 <= k <= |p.points| && after == Bucketed(before + PointSamples(p, k))
    {
      var x := p.points[k];
      if x.position.Some? && x.quantity.Some? {
        ghost var sofar := before + PointSamples(p, k);
        var s := SampleOf(p, x);
        BucketedOneMore(sofar, s);
        after := AddTo(after, s);
        assert sofar + [s] == before + PointSamples(p, k + 1);
      } else {
        assert PointSamples(p, k + 1) == PointSamples(p, k);
      }
      k := k + 1;
    }
  }

  // ----- conservation

  function Energy(samples: seq<Sample>): real {
    if samples == [] then 0.0 else Energy(samples[..|samples| - 1]) + samples[|samples| - 1].mwh
  }

  /** The energy of the samples of one gas day. */
  function DayEnergy(samples: seq<Sample>, day: int): real {
    if samples == [] then 0.0
    else
      var last := samples[|samples| - 1];
      DayEnergy(samples[..|samples| - 1], day) + if DayOf(last) == day then last.mwh else 0.0
  }

  ghost function ValueAt(m: Buckets): int -> real {
    d => if d in m then m[d] else 0.0
  }

  /** A bucket exists exactly for the gas days of accepted points, and holds exactly their energy. */
  lemma {:induction false} BucketIsDayEnergy(samples: seq<Sample>, day: int)
    ensures day in Bucketed(samples) <==> exists i :: 0 <= i < |samples| && DayOf(samples[i]) == day
    ensures ValueAt(Bucketed(samples))(day) == DayEnergy(samples, day)
  {
    hide DayOf;
    if samples != [] {
      var n := |samples| - 1;
      BucketIsDayEnergy(samples[..n], day);
      if i :| 0 <= i < n && DayOf(samples[..n][i]) == day {
        assert DayOf(samples[i]) == day;
      }
      if i :| 0 <= i < |samples| && DayOf(samples[i]) == day && i < n {
        assert DayOf(samples[..n][i]) == day;
      }
    }
  }

  lemma {:induction false} BucketsConserve(samples: seq<Sample>)
    ensures Sum(Bucketed(samples).Keys, ValueAt(Bucketed(samples))) == Energy(samples)
  {
    hide Sum, DayOf;
    if samples == [] {
      SumEmpty(ValueAt(Bucketed(samples)));
      assert Bucketed(samples).Keys == {};
    } else {
      var n := |samples| - 1;
      BucketsConserve(samples[..n]);
      AddConserves(Bucketed(samples[..n]), samples[n]);
    }
  }

  lemma AddConserves(m: Buckets, s: Sample)
    ensures Sum(AddTo(m, s).Keys, ValueAt(AddTo(m, s))) == Sum(m.Keys, ValueAt(m)) + s.mwh
  {
    hide Sum, DayOf;
    var after, day := AddTo(m, s), DayOf(s);
    var others := m.Keys - {day};
    assert after.Keys - {day} == others;
    SumPick(after.Keys, ValueAt(after), day);
    SumSame(others, ValueAt(after), ValueAt(m));
    if day in m {
      SumPick(m.Keys, ValueAt(m), day);
    } else {
      assert others == m.Keys;
    }
  }

  /** The result conserves energy: its days add up to a thousandth of all accepted MWh. */
  lemma GenerationIsConserved(doc: seq<TimeSeries>)
    ensures var byDay := ToGwh(Bucketed(Accepted(doc)));
            1000.0 * Sum(byDay.Keys, ValueAt(byDay)) == Energy(Accepted(doc))
  {
    BucketsConserve(Accepted(doc));
    ToGwhConserves(Bucketed(Accepted(doc)));
    hide Sum, Bucketed, ToGwh, Accepted, Energy;
  }

  lemma ToGwhConserves(m: Buckets)
    ensures 1000.0 * Sum(ToGwh(m).Keys, ValueAt(ToGwh(m))) == Sum(m.Keys, ValueAt(m))
  {
    hide Sum;
    assert ToGwh(m).Keys == m.Keys;
    SumScale(m.Keys, 1000.0, ValueAt(ToGwh(m)), ValueAt(m));
  }

  /** A point's energy lands in the gas day its instant lies in, by the calendar of gas days. */
  lemma SampleInItsGasDay(s: Sample, day: int)
    requires s.at >= GasDay.DAY_TICKS && day >= 0
    ensures DayOf(s) == day <==> GasDay.Begins(day) <= s.at < GasDay.Begins(day + 1)
  {
    GasDay.GasDaysTile(GasDay.Naive(s.at), day);
  }
}
