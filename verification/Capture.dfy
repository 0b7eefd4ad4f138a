/**
 Capture prices: `capture_metrics` defines the arithmetic on one month's maps, and a one-pass SQL aggregation over
 the joined rows of all months has to give the same numbers.
 */
module Capture {
  import opened Options
  import opened FiniteSums
  import opened Rounding
  import Calendar

  const MIN_PRICE_HOURS := 24 * 20
  const MIN_DAYS := 20

  type Series = map<int, real>

  function DayOf(ts: int): int {
    Calendar.DayOfUnix(ts)
  }

  /** strftime('%Y-%m'): the UTC month of an hour. */
  function MonthIndex(ts: int): int {
    if DayOf(ts) >= 0 then Calendar.MonthOf(DayOf(ts)) else -1
  }

  function At(s: Series): int -> real {
    ts => if ts in s then s[ts] else 0.0
  }

  // ----- the definition

  datatype Row = Row(hours: nat, days: nat, generationGwh: real, capturePrice: real, capturePriceFloor0: real,
                     baseloadPrice: real, valueFactor: Option<real>, negativeGenPct: real, negativeHours: nat)

  ghost function Floored(prices: Series): int -> real {
    ts => if At(prices)(ts) > 0.0 then At(prices)(ts) else 0.0
  }

  ghost function BelowZero(prices: Series): int -> real {
    ts => if At(prices)(ts) < 0.0 then -At(prices)(ts) else 0.0
  }

  ghost function NegativeGen(prices: Series, gen: Series): int -> real {
    ts => if At(prices)(ts) < 0.0 then At(gen)(ts) else 0.0
  }

  function Joined(prices: Series, gen: Series): set<int> {
    set ts | ts in gen && ts in prices
  }

  function DaysOf(hours: set<int>): set<int> {
    set ts | ts in hours :: DayOf(ts)
  }

  function NegativeHours(hours: set<int>, prices: Series, gen: Series): set<int> {
    set ts | ts in hours && At(prices)(ts) < 0.0 && At(gen)(ts) > 0.0
  }

  ghost function TotalGen(prices: Series, gen: Series): real {
    Sum(Joined(prices, gen), At(gen))
  }

  ghost function CapturePrice(prices: Series, gen: Series): real
    requires TotalGen(prices, gen) > 0.0
  {
    Sum(Joined(prices, gen), Product(At(prices), At(gen))) / TotalGen(prices, gen)
  }

  ghost function FlooredPrice(prices: Series, gen: Series): real
    requires TotalGen(prices, gen) > 0.0
  {
    Sum(Joined(prices, gen), Product(Floored(prices), At(gen))) / TotalGen(prices, gen)
  }

  ghost function Baseload(prices: Series): real
    requires prices != map[]
  {
    Sum(prices.Keys, At(prices)) / |prices| as real
  }

  /** `capture_metrics`: one fuel over one month. */
  ghost function CaptureMetrics(prices: Series, gen: Series): Option<Row> {
    var hours := Joined(prices, gen);
    if prices == map[] || TotalGen(prices, gen) <= 0.0 then None
    else
      var total, capture, baseload := TotalGen(prices, gen), CapturePrice(prices, gen), Baseload(prices);
      Some(Row(|hours|, |DaysOf(hours)|, Round1(total / 1000.0), Round2(capture), Round2(FlooredPrice(prices, gen)),
               Round2(baseload), if baseload > 0.0 then Some(Round3(capture / baseload)) else None,
               Round1(100.0 * Sum(hours, NegativeGen(prices, gen)) / total),
               |NegativeHours(hours, prices, gen)|))
  }

  // ----- what the definition means

  /** Every priced hour counts, an hour without generation with none. */
  lemma MissingHoursAreZero(prices: Series, gen: Series, f: int -> real)
    ensures Sum(prices.Keys, Product(f, At(gen))) == Sum(Joined(prices, gen), Product(f, At(gen)))
    ensures Sum(prices.Keys, At(gen)) == TotalGen(prices, gen)
  {
    hide Sum, Times;
    var hours := Joined(prices, gen);
    forall ts | ts in prices.Keys - hours ensures Product(f, At(gen))(ts) == 0.0 {
      TimesZero(f(ts));
    }
    SumSubset(prices.Keys, hours, Product(f, At(gen)));
    SumSubset(prices.Keys, hours, At(gen));
  }

  lemma DividedBounds(part: real, total: real, x: real)
    requires total > 0.0
    ensures Times(x, total) <= part ==> x <= part / total
    ensures part <= Times(x, total) ==> part / total <= x
  {
  }

  lemma RatioOrder(n: real, pg: real, p: real, g: real)
    requires n > 0.0 && g > 0.0 && Times(n, pg) <= Times(p, g)
    ensures pg / g <= p / n
  {
    var x, y := pg / g, p / n;
    assert x * g == pg && y * n == p;
    assert x * (n * g) == n * pg;
    assert y * (n * g) == p * g;
    ProductPositive(n, g);
    Cancel(x, y, n * g);
  }

  lemma Cancel(x: real, y: real, k: real)
    requires k > 0.0 && x * k <= y * k
    ensures x <= y
  {
  }

  /** Of any two priced hours the dearer one has no more generation; hours without a row count as zero. */
  ghost predicate OppositelyOrdered(prices: Series, gen: Series) {
    forall x, y | x in prices && y in prices :: (prices[x] - prices[y]) * (At(gen)(x) - At(gen)(y)) <= 0.0
  }

  lemma CrossOf(prices: Series, gen: Series, x: int, y: int)
    requires x in prices && y in prices
    ensures CrossTo(At(prices), At(gen), x)(y) == (prices[x] - prices[y]) * (At(gen)(x) - At(gen)(y))
  {
    assert CrossTo(At(prices), At(gen), x)(y) == Times(At(prices)(x) - At(prices)(y), At(gen)(x) - At(gen)(y));
  }

  /** Generation that runs against price, hour by hour over the whole month, earns at most the baseload price. */
  lemma CannibalisedEarnsBelowBaseload(prices: Series, gen: Series)
    requires prices != map[] && TotalGen(prices, gen) > 0.0
    requires OppositelyOrdered(prices, gen)
    ensures CapturePrice(prices, gen) <= Baseload(prices)
    ensures Round2(CapturePrice(prices, gen)) <= Round2(Baseload(prices))
  {
    hide Sum, Times, CrossTo;
    forall x: int, y: int | x in prices.Keys && y in prices.Keys ensures CrossTo(At(prices), At(gen), x)(y) <= 0.0 {
      CrossOf(prices, gen, x, y);
    }
    hide OppositelyOrdered;
    ChebyshevOpposite(prices.Keys, At(prices), At(gen));
    MissingHoursAreZero(prices, gen, At(prices));
    assert |prices.Keys| == |prices|;
    RatioOrder(|prices| as real, Sum(Joined(prices, gen), Product(At(prices), At(gen))),
               Sum(prices.Keys, At(prices)), TotalGen(prices, gen));
    Round2Monotone(CapturePrice(prices, gen), Baseload(prices));
  }

  /** With no negative generation the capture price lies between any bounds on the prices it was earned at. */
  lemma {:induction false} CaptureWithinPrices(prices: Series, gen: Series, lo: real, hi: real)
    requires TotalGen(prices, gen) > 0.0
    requires forall ts | ts in Joined(prices, gen) :: gen[ts] >= 0.0 && lo <= prices[ts] <= hi
    ensures lo <= CapturePrice(prices, gen) <= hi
  {
    hide Sum, Times;
    var hours, pg := Joined(prices, gen), Product(At(prices), At(gen));
    var least, most := (ts: int) => Times(lo, At(gen)(ts)), (ts: int) => Times(hi, At(gen)(ts));
    forall ts | ts in hours ensures least(ts) <= pg(ts) <= most(ts) {
      TimesMonotone(lo, prices[ts], gen[ts]);
      TimesMonotone(prices[ts], hi, gen[ts]);
    }
    SumMonotone(hours, least, pg);
    SumMonotone(hours, pg, most);
    SumTimes(hours, lo, At(gen), least);
    SumTimes(hours, hi, At(gen), most);
    DividedBounds(Sum(hours, pg), TotalGen(prices, gen), lo);
    DividedBounds(Sum(hours, pg), TotalGen(prices, gen), hi);
  }

  lemma TimesMonotone(a: real, b: real, c: real)
    requires a <= b && c >= 0.0
    ensures Times(a, c) <= Times(b, c)
  {
  }

  /** The floored variant exceeds the capture price by exactly the generation-weighted negative part. */
  lemma FloorSpread(prices: Series, gen: Series)
    requires TotalGen(prices, gen) > 0.0
    ensures FlooredPrice(prices, gen) - CapturePrice(prices, gen)
         == Sum(Joined(prices, gen), Product(BelowZero(prices), At(gen))) / TotalGen(prices, gen)
  {
    hide Sum, Times;
    var hours := Joined(prices, gen);
    forall ts | ts in hours
      ensures Product(Floored(prices), At(gen))(ts)
           == Product(At(prices), At(gen))(ts) + Product(BelowZero(prices), At(gen))(ts)
    {
      TimesSplit(Floored(prices)(ts), At(prices)(ts), BelowZero(prices)(ts), At(gen)(ts));
    }
    SumPlus(hours, Product(At(prices), At(gen)), Product(BelowZero(prices), At(gen)), Product(Floored(prices), At(gen)));
    DivideSplit(Sum(hours, Product(At(prices), At(gen))), Sum(hours, Product(BelowZero(prices), At(gen))),
                Sum(hours, Product(Floored(prices), At(gen))), TotalGen(prices, gen));
  }

  lemma TimesSplit(t: real, a: real, b: real, c: real)
    requires t == a + b
    ensures Times(t, c) == Times(a, c) + Times(b, c)
  {
  }

  lemma DivideSplit(a: real, b: real, t: real, d: real)
    requires d > 0.0 && t == a + b
    ensures t / d - a / d == b / d
  {
  }

  // ----- what the definition means for the reported row

  /** x is part / whole, to within a margin. */
  predicate Quotient(x: real, part: real, whole: real, margin: real) {
    whole > 0.0 && part - margin * whole <= x * whole <= part + margin * whole
  }

  lemma QuotientOf(x: real, part: real, whole: real, margin: real)
    requires whole > 0.0 && part / whole - margin <= x <= part / whole + margin
    ensures Quotient(x, part, whole, margin)
  {
    assert (part / whole) * whole == part;
    ScaledBetween(x, part / whole, margin, whole);
  }

  ghost function PricedBelowZero(prices: Series, gen: Series): set<int> {
    set ts | ts in gen && ts in prices && prices[ts] < 0.0
  }

  /**
   Every number of a reported row, from the two series: generation, what it earned and what it would have earned with
   prices floored at zero, the month's mean price, and the part produced below zero.
   */
  lemma ReportedRow(prices: Series, gen: Series)
    requires CaptureMetrics(prices, gen).Some?
    ensures var row, hours := CaptureMetrics(prices, gen).value, gen.Keys * prices.Keys;
            var total := Sum(hours, At(gen));
            && Quotient(row.generationGwh, total, 1000.0, 0.05)
            && Quotient(row.capturePrice, Sum(hours, Product(At(prices), At(gen))), total, 0.005)
            && Quotient(row.capturePriceFloor0, Sum(hours, Product(Floored(prices), At(gen))), total, 0.005)
            && Quotient(row.baseloadPrice, Sum(prices.Keys, At(prices)), |prices| as real, 0.005)
            && Quotient(row.negativeGenPct, 100.0 * Sum(PricedBelowZero(prices, gen), At(gen)), total, 0.05)
            && row.hours == |hours| && row.days == |set ts | ts in hours :: Calendar.DayOfUnix(ts)|
            && row.negativeHours == |set ts | ts in PricedBelowZero(prices, gen) && gen[ts] > 0.0|
            && (row.valueFactor.Some? <==> Baseload(prices) > 0.0)
            && (row.valueFactor.Some? ==> Quotient(row.valueFactor.value, CapturePrice(prices, gen), Baseload(prices), 0.0005))
  {
    hide *;
    RowSets(prices, gen);
    NegativeSum(prices, gen);
    RowFields(prices, gen);
  }

  /** The row's fields one by one. */
  lemma RowFields(prices: Series, gen: Series)
    requires CaptureMetrics(prices, gen).Some?
    ensures var row, hours := CaptureMetrics(prices, gen).value, Joined(prices, gen);
            var total := Sum(hours, At(gen));
            && Quotient(row.generationGwh, total, 1000.0, 0.05)
            && Quotient(row.capturePrice, Sum(hours, Product(At(prices), At(gen))), total, 0.005)
            && Quotient(row.capturePriceFloor0, Sum(hours, Product(Floored(prices), At(gen))), total, 0.005)
            && Quotient(row.baseloadPrice, Sum(prices.Keys, At(prices)), |prices| as real, 0.005)
            && Quotient(row.negativeGenPct, 100.0 * Sum(hours, NegativeGen(prices, gen)), total, 0.05)
            && row.hours == |hours| && row.days == |DaysOf(hours)|
            && row.negativeHours == |NegativeHours(hours, prices, gen)|
            && (row.valueFactor.Some? <==> Baseload(prices) > 0.0)
            && (row.valueFactor.Some? ==> Quotient(row.valueFactor.value, CapturePrice(prices, gen), Baseload(prices), 0.0005))
  {
    hide Sum, Times, Round1, Round2, Round3, Joined, DaysOf, NegativeHours, Quotient, Product, Floored, NegativeGen;
    var row, hours := CaptureMetrics(prices, gen).value, Joined(prices, gen);
    var total := Sum(hours, At(gen));
    QuotientOf(row.generationGwh, total, 1000.0, 0.05);
    QuotientOf(row.capturePrice, Sum(hours, Product(At(prices), At(gen))), total, 0.005);
    QuotientOf(row.capturePriceFloor0, Sum(hours, Product(Floored(prices), At(gen))), total, 0.005);
    QuotientOf(row.baseloadPrice, Sum(prices.Keys, At(prices)), |prices| as real, 0.005);
    QuotientOf(row.negativeGenPct, 100.0 * Sum(hours, NegativeGen(prices, gen)), total, 0.05);
    if Baseload(prices) > 0.0 {
      QuotientOf(row.valueFactor.value, CapturePrice(prices, gen), Baseload(prices), 0.0005);
    }
  }

  lemma RowSets(prices: Series, gen: Series)
    ensures var hours := Joined(prices, gen);
            && hours == gen.Keys * prices.Keys && DaysOf(hours) == (set ts | ts in hours :: Calendar.DayOfUnix(ts))
            && NegativeHours(hours, prices, gen) == (set ts | ts in PricedBelowZero(prices, gen) && gen[ts] > 0.0)
  {
    hide DayOf;
    var hours := Joined(prices, gen);
    assert hours == gen.Keys * prices.Keys;
    assert forall ts: int | ts in hours :: DayOf(ts) == Calendar.DayOfUnix(ts) by {
      DaysAre();
    }
    forall ts: int | ts in hours
      ensures At(prices)(ts) == prices[ts] && At(gen)(ts) == gen[ts]
    {
    }
  }

  lemma DaysAre()
    ensures forall ts: int :: DayOf(ts) == Calendar.DayOfUnix(ts)
  {
  }

  lemma NegativeSum(prices: Series, gen: Series)
    ensures Sum(Joined(prices, gen), NegativeGen(prices, gen)) == Sum(PricedBelowZero(prices, gen), At(gen))
  {
    hide Sum;
    var hours, below := Joined(prices, gen), PricedBelowZero(prices, gen);
    forall ts: int | ts in hours
      ensures NegativeGen(prices, gen)(ts) == if ts in below then At(gen)(ts) else 0.0
    {
      assert At(prices)(ts) == prices[ts];
    }
    SumSubset(hours, below, NegativeGen(prices, gen));
    SumSame(below, NegativeGen(prices, gen), At(gen));
  }

  /** As reported, flooring prices at zero never lowers what non-negative generation earns. */
  lemma {:induction false} FloorRaisesRow(prices: Series, gen: Series)
    requires CaptureMetrics(prices, gen).Some? && forall ts | ts in gen && ts in prices :: gen[ts] >= 0.0
    ensures var row := CaptureMetrics(prices, gen).value; row.capturePrice <= row.capturePriceFloor0
  {
    hide Sum, Times, Round2, Round1, Round3;
    FloorSpread(prices, gen);
    var hours, lost := Joined(prices, gen), Product(BelowZero(prices), At(gen));
    forall ts: int | ts in hours
      ensures Const(0.0)(ts) <= lost(ts)
    {
      TimesMonotone(0.0, BelowZero(prices)(ts), At(gen)(ts));
      TimesZero(At(gen)(ts));
      ZeroTimes(At(gen)(ts));
    }
    SumZero(hours, Const(0.0));
    SumMonotone(hours, Const(0.0), lost);
    DividedSign(Sum(hours, lost), TotalGen(prices, gen));
    Round2Monotone(CapturePrice(prices, gen), FlooredPrice(prices, gen));
  }

  ghost function Const(c: real): int -> real {
    ts => c
  }

  lemma ZeroTimes(c: real)
    ensures Times(0.0, c) == 0.0
  {
  }

  lemma DividedSign(part: real, total: real)
    requires part >= 0.0 && total > 0.0
    ensures part / total >= 0.0
  {
  }

  /** As reported, generation that runs against price earns at most the baseload price. */
  lemma CannibalisedRow(prices: Series, gen: Series)
    requires CaptureMetrics(prices, gen).Some? && OppositelyOrdered(prices, gen)
    ensures var row := CaptureMetrics(prices, gen).value; row.capturePrice <= row.baseloadPrice
  {
    hide Sum, OppositelyOrdered, Round1, Round2, Round3;
    CannibalisedEarnsBelowBaseload(prices, gen);
  }

  // ----- the SQL aggregates

  /** One group of `_FUEL_SQL`. */
  datatype Acc = Acc(pxg: real, pxgFloor0: real, totalGen: real, hours: nat, days: set<int>, negGen: real,
                     negHours: nat)

  /** One more joined row. */
  function AccAdd(a: Acc, price: real, gen: real, ts: int): Acc {
    Acc(a.pxg + Times(price, gen),
        a.pxgFloor0 + (if price > 0.0 then Times(price, gen) else 0.0),
        a.totalGen + gen,
        a.hours + 1,
        a.days + {DayOf(ts)},
        a.negGen + (if price < 0.0 then gen else 0.0),
        a.negHours + if price < 0.0 && gen > 0.0 then 1 else 0)
  }

  ghost function AccOf(hours: set<int>, prices: Series, gen: Series): Acc {
    Acc(Sum(hours, Product(At(prices), At(gen))), Sum(hours, Product(Floored(prices), At(gen))), Sum(hours, At(gen)),
        |hours|, DaysOf(hours), Sum(hours, NegativeGen(prices, gen)), |NegativeHours(hours, prices, gen)|)
  }

  lemma AccNone(prices: Series, gen: Series)
    ensures AccOf({}, prices, gen) == Acc(0.0, 0.0, 0.0, 0, {}, 0.0, 0)
  {
    SumEmpty(Product(At(prices), At(gen)));
    SumEmpty(Product(Floored(prices), At(gen)));
    SumEmpty(At(gen));
    SumEmpty(NegativeGen(prices, gen));
    assert NegativeHours({}, prices, gen) == {} && DaysOf({}) == {};
  }

  lemma AccOneMore(hours: set<int>, prices: Series, gen: Series, ts: int)
    requires ts !in hours && ts in prices && ts in gen
    ensures AccOf(hours + {ts}, prices, gen) == AccAdd(AccOf(hours, prices, gen), prices[ts], gen[ts], ts)
  {
    hide Sum, Times, NegativeHours, DaysOf, DayOf;
    SumAdd(hours, Product(At(prices), At(gen)), ts);
    SumAdd(hours, Product(Floored(prices), At(gen)), ts);
    SumAdd(hours, At(gen), ts);
    SumAdd(hours, NegativeGen(prices, gen), ts);
    TimesZero(gen[ts]);
    NegativeOneMore(hours, prices, gen, ts);
    DaysOneMore(hours, ts);
  }

  lemma DaysOneMore(hours: set<int>, ts: int)
    ensures DaysOf(hours + {ts}) == DaysOf(hours) + {DayOf(ts)}
  {
    hide DayOf;
  }

  lemma NegativeOneMore(hours: set<int>, prices: Series, gen: Series, ts: int)
    requires ts !in hours && ts in prices && ts in gen
    ensures |NegativeHours(hours + {ts}, prices, gen)|
         == |NegativeHours(hours, prices, gen)| + if prices[ts] < 0.0 && gen[ts] > 0.0 then 1 else 0
  {
    var before, after := NegativeHours(hours, prices, gen), NegativeHours(hours + {ts}, prices, gen);
    forall t ensures t in after <==> t in before || (t == ts && prices[ts] < 0.0 && gen[ts] > 0.0) {
    }
    assert after == if prices[ts] < 0.0 && gen[ts] > 0.0 then before + {ts} else before;
  }

  /** The joined rows of the window. */
  function Window(prices: Series, gen: Series, start: int): set<int> {
    set ts | ts in gen && ts in prices && ts >= start
  }

  /** The groups hold the rows seen so far, by month, and no group is empty. */
  ghost predicate Grouped(groups: map<int, Acc>, seen: set<int>, prices: Series, gen: Series) {
    forall m :: (m in groups <==> Fibre(seen, MonthIndex, m) != {}) &&
                (m in groups ==> groups[m] == AccOf(Fibre(seen, MonthIndex, m), prices, gen))
  }

  lemma GroupedOneMore(groups: map<int, Acc>, seen: set<int>, prices: Series, gen: Series, ts: int)
    requires Grouped(groups, seen, prices, gen) && ts !in seen && ts in prices && ts in gen
    ensures var m := MonthIndex(ts);
            var acc := if m in groups then groups[m] else Acc(0.0, 0.0, 0.0, 0, {}, 0.0, 0);
            Grouped(groups[m := AccAdd(acc, prices[ts], gen[ts], ts)], seen + {ts}, prices, gen)
  {
    hide MonthIndex, AccAdd, AccOf;
    var month := MonthIndex(ts);
    forall m
      ensures Fibre(seen + {ts}, MonthIndex, m)
           == if m == month then Fibre(seen, MonthIndex, m) + {ts} else Fibre(seen, MonthIndex, m)
    {
    }
    AccNone(prices, gen);
    AccOneMore(Fibre(seen, MonthIndex, month), prices, gen, ts);
  }

  /** `_FUEL_SQL` for one fuel: join, filter and group in one pass over the rows, in any order. */
  method FuelSql(prices: Series, gen: Series, start: int) returns (groups: map<int, Acc>)
    ensures Grouped(groups, Window(prices, gen, start), prices, gen)
  {
    hide Grouped, AccAdd;
    var rows := Window(prices, gen, start);
    var todo := rows;
    groups := map[];
    ghost var seen: set<int> := {};
    GroupedNone(prices, gen);
    while todo != {}
      invariant todo <= rows && seen == rows - todo
      invariant Grouped(groups, seen, prices, gen)
      decreases todo
    {
      ghost var some := Pick(todo);
      var ts :| ts in todo;
      GroupedOneMore(groups, seen, prices, gen, ts);
      var m := MonthIndex(ts);
      var acc := if m in groups then groups[m] else Acc(0.0, 0.0, 0.0, 0, {}, 0.0, 0);
      groups := groups[m := AccAdd(acc, prices[ts], gen[ts], ts)];
      todo := todo - {ts};
      seen := seen + {ts};
    }
    assert seen == rows;
  }

  lemma GroupedNone(prices: Series, gen: Series)
    ensures Grouped(map[], {}, prices, gen)
  {
  }

  function From(prices: Series, start: int): set<int> {
    set ts | ts in prices && ts >= start
  }

  /** One group of `_PRICE_SQL`: its sum and its count, AVG being their quotient. */
  datatype PriceMonth = PriceMonth(total: real, hours: nat)

  ghost function PriceOf(hours: set<int>, prices: Series): PriceMonth {
    PriceMonth(Sum(hours, At(prices)), |hours|)
  }

  ghost predicate PricesGrouped(groups: map<int, PriceMonth>, seen: set<int>, prices: Series) {
    forall m :: (m in groups <==> Fibre(seen, MonthIndex, m) != {}) &&
                (m in groups ==> groups[m] == PriceOf(Fibre(seen, MonthIndex, m), prices))
  }

  function PriceAdd(g: PriceMonth, price: real): PriceMonth {
    PriceMonth(g.total + price, g.hours + 1)
  }

  lemma PriceOneMore(hours: set<int>, prices: Series, ts: int)
    requires ts !in hours && ts in prices
    ensures PriceOf({}, prices) == PriceMonth(0.0, 0)
    ensures PriceOf(hours + {ts}, prices) == PriceAdd(PriceOf(hours, prices), prices[ts])
  {
    hide Sum;
    SumEmpty(At(prices));
    SumAdd(hours, At(prices), ts);
  }

  lemma PricesGroupedOneMore(groups: map<int, PriceMonth>, seen: set<int>, prices: Series, ts: int)
    requires PricesGrouped(groups, seen, prices) && ts !in seen && ts in prices
    ensures var m := MonthIndex(ts);
            var g := if m in groups then groups[m] else PriceMonth(0.0, 0);
            PricesGrouped(groups[m := PriceAdd(g, prices[ts])], seen + {ts}, prices)
  {
    hide MonthIndex, PriceOf, PriceAdd;
    var month := MonthIndex(ts);
    forall m
      ensures Fibre(seen + {ts}, MonthIndex, m)
           == if m == month then Fibre(seen, MonthIndex, m) + {ts} else Fibre(seen, MonthIndex, m)
    {
    }
    PriceOneMore(Fibre(seen, MonthIndex, month), prices, ts);
  }

  method PriceSql(prices: Series, start: int) returns (groups: map<int, PriceMonth>)
    ensures PricesGrouped(groups, From(prices, start), prices)
  {
    hide PricesGrouped, PriceAdd;
    var rows := From(prices, start);
    var todo := rows;
    groups := map[];
    ghost var seen: set<int> := {};
    PricesGroupedNone(prices);
    while todo != {}
      invariant todo <= rows && seen == rows - todo
      invariant PricesGrouped(groups, seen, prices)
      decreases todo
    {
      ghost var some := Pick(todo);
      var ts :| ts in todo;
      PricesGroupedOneMore(groups, seen, prices, ts);
      var m := MonthIndex(ts);
      groups := groups[m := PriceAdd(if m in groups then groups[m] else PriceMonth(0.0, 0), prices[ts])];
      todo := todo - {ts};
      seen := seen + {ts};
    }
    assert seen == rows;
  }

  lemma PricesGroupedNone(prices: Series)
    ensures PricesGrouped(map[], {}, prices)
  {
  }

  // ----- one derivation, two evaluators

  /** What `_aggregate` keeps of a group. */
  datatype FuelMonth = FuelMonth(hours: nat, days: nat, generationGwh: real, capturePrice: real,
                                 capturePriceFloor0: real,
                                 negativeGenPct: real, negativeHours: nat, captureRaw: real)

  function FuelMonthOf(a: Acc): Option<FuelMonth> {
    if a.totalGen <= 0.0 then None
    else Some(FuelMonth(a.hours, |a.days|, Round1(a.totalGen / 1000.0), Round2(a.pxg / a.totalGen),
                        Round2(a.pxgFloor0 / a.totalGen), Round1(100.0 * a.negGen / a.totalGen), a.negHours,
                        a.pxg / a.totalGen))
  }

  /** The row `compute_capture` reports for a fuel's month and the month's baseload. */
  function RowOf(f: FuelMonth, baseload: real): Row {
    Row(f.hours, f.days, f.generationGwh, f.capturePrice, f.capturePriceFloor0, Round2(baseload),
        if baseload > 0.0 then Some(Round3(f.captureRaw / baseload)) else None, f.negativeGenPct, f.negativeHours)
  }

  function OfMonth(s: Series, start: int, month: int): Series {
    map ts | ts in s && ts >= start && MonthIndex(ts) == month :: s[ts]
  }

  /** The sums of a group do not change when the maps are cut down to its hours. */
  lemma {:induction false} AccOfRestricted(hours: set<int>, prices: Series, gen: Series, prices': Series, gen': Series)
    requires forall ts | ts in hours :: At(prices)(ts) == At(prices')(ts) && At(gen)(ts) == At(gen')(ts)
    ensures AccOf(hours, prices, gen) == AccOf(hours, prices', gen')
  {
    hide Sum, Times, DaysOf;
    forall ts | ts in hours
      ensures Product(At(prices), At(gen))(ts) == Product(At(prices'), At(gen'))(ts)
      ensures Product(Floored(prices), At(gen))(ts) == Product(Floored(prices'), At(gen'))(ts)
      ensures At(gen)(ts) == At(gen')(ts)
      ensures NegativeGen(prices, gen)(ts) == NegativeGen(prices', gen')(ts)
    {
      assert At(prices)(ts) == At(prices')(ts) && At(gen)(ts) == At(gen')(ts);
    }
    SumSame(hours, Product(At(prices), At(gen)), Product(At(prices'), At(gen')));
    SumSame(hours, Product(Floored(prices), At(gen)), Product(Floored(prices'), At(gen')));
    SumSame(hours, At(gen), At(gen'));
    SumSame(hours, NegativeGen(prices, gen), NegativeGen(prices', gen'));
    assert NegativeHours(hours, prices, gen) == NegativeHours(hours, prices', gen');
  }

  /** On a month's own maps the definition is what the group of the joined hours gives. */
  lemma MetricsFromGroup(prices: Series, gen: Series)
    ensures var fuel := FuelMonthOf(AccOf(Joined(prices, gen), prices, gen));
            CaptureMetrics(prices, gen)
            == if prices == map[] || fuel.None? then None else Some(RowOf(fuel.value, Baseload(prices)))
  {
    hide Sum, Times, DaysOf, NegativeHours, Round1, Round2, Round3;
  }

  lemma NoGroupNoMetrics(prices: Series, gen: Series)
    requires Joined(prices, gen) == {}
    ensures CaptureMetrics(prices, gen) == None
  {
    SumEmpty(At(gen));
  }

  /** Joining and grouping all months at once finds the joined hours of each month's own maps. */
  lemma GroupIsMonth(prices: Series, gen: Series, start: int, month: int)
    ensures Fibre(Window(prices, gen, start), MonthIndex, month)
         == Joined(OfMonth(prices, start, month), OfMonth(gen, start, month))
    ensures Fibre(From(prices, start), MonthIndex, month) == OfMonth(prices, start, month).Keys
  {
    hide MonthIndex;
  }

  /**
   For every month, the one-pass aggregates give exactly the row that `capture_metrics` gives on that month's maps,
   and no row exactly when it gives none.
   */
  lemma EvaluatorsAgree(prices: Series, gen: Series, start: int, month: int,
                        groups: map<int, Acc>, priceGroups: map<int, PriceMonth>)
    requires Grouped(groups, Window(prices, gen, start), prices, gen)
    requires PricesGrouped(priceGroups, From(prices, start), prices)
    ensures var row := CaptureMetrics(OfMonth(prices, start, month), OfMonth(gen, start, month));
            && (row.Some? <==> month in groups && FuelMonthOf(groups[month]).Some?)
            && (row.Some? ==>
                  month in priceGroups && priceGroups[month].hours > 0 &&
                  row.value == RowOf(FuelMonthOf(groups[month]).value,
                                     priceGroups[month].total / priceGroups[month].hours as real))
  {
    var p, g := OfMonth(prices, start, month), OfMonth(gen, start, month);
    GroupIsMonth(prices, gen, start, month);
    var hours := Joined(p, g);
    if hours == {} {
      NoGroupNoMetrics(p, g);
    } else {
      ghost var some := Pick(hours);
      AccOfRestricted(hours, prices, gen, p, g) by {
        hide MonthIndex;
      }
      MetricsFromGroup(p, g);
      BaseloadFromGroup(prices, p);
      hide CaptureMetrics, AccOf, FuelMonthOf, RowOf, MonthIndex, Baseload, Sum;
      assert p != map[];
    }
  }

  lemma {:induction false} BaseloadFromGroup(prices: Series, p: Series)
    requires p != map[] && forall ts | ts in p :: ts in prices && prices[ts] == p[ts]
    ensures Baseload(p) == PriceOf(p.Keys, prices).total / PriceOf(p.Keys, prices).hours as real
    ensures PriceOf(p.Keys, prices).hours > 0
  {
    forall ts | ts in p.Keys ensures At(prices)(ts) == At(p)(ts) {
    }
    SumSame(p.Keys, At(prices), At(p));
    assert |p.Keys| == |p|;
  }

  // ----- the reported months

  /** `_window_start`: midnight on the first of the month `months` months before today's. */
  function WindowStart(today: int, months: nat): int
    requires today >= 0
  {
    Calendar.UnixOfDay(Calendar.MonthStart(Calendar.MonthOf(today) - months))
  }

  /** The window is cut between months: an hour is in it exactly when its month is. */
  lemma WindowCutsNoMonth(today: int, months: nat, ts: int)
    requires today >= 0 && Calendar.MonthOf(today) - months >= 12 && DayOf(ts) >= 0
    ensures ts >= WindowStart(today, months) <==> MonthIndex(ts) >= Calendar.MonthOf(today) - months
  {
    hide Calendar.MonthStart, Calendar.MonthOf;
    var first, k := Calendar.MonthOf(today) - months, MonthIndex(ts);
    Calendar.UnixDayBounds(ts, Calendar.MonthStart(first));
    if k < first {
      Calendar.MonthsAscend(k + 1, first);
    } else {
      Calendar.MonthsAscend(first, k);
    }
  }

  /** All hours of a month. */
  function WholeMonth(s: Series, month: int): Series {
    map ts | ts in s && MonthIndex(ts) == month :: s[ts]
  }

  /** What is reported for a month: its metrics, if the month is priced and the fuel is present on enough of it. */
  ghost function Reported(prices: Series, gen: Series, month: int): Option<Row> {
    var row := CaptureMetrics(WholeMonth(prices, month), WholeMonth(gen, month));
    if |WholeMonth(prices, month)| >= 480 && row.Some? && row.value.days >= 20 then row else None
  }

  datatype MonthRow = MonthRow(month: int, row: Row)

  /** One fuel's rows of `compute_capture`, oldest first; the running month is left out. */
  method ComputeCapture(prices: Series, gen: Series, today: int, months: nat) returns (rows: seq<MonthRow>)
    requires today >= 0 && Calendar.MonthOf(today) - months >= 12
    ensures forall i, j | 0 <= i < j < |rows| :: rows[i].month < rows[j].month
    ensures forall m, row :: MonthRow(m, row) in rows <==>
              Calendar.MonthOf(today) - months <= m < Calendar.MonthOf(today) && Reported(prices, gen, m) == Some(row)
  {
    hide Grouped, PricesGrouped, Reported, FuelMonthOf, RowOf, Window, From, Calendar.MonthOf;
    var running := Calendar.MonthOf(today);
    var start := WindowStart(today, months);
    var fuelMonths := FuelSql(prices, gen, start);
    var priceMonths := PriceSql(prices, start);
    rows := [];
    var m := running - months;
    while m < running
      invariant running - months <= m <= running
      invariant forall i | 0 <= i < |rows| :: rows[i].month < m
      invariant forall i, j | 0 <= i < j < |rows| :: rows[i].month < rows[j].month
      invariant forall k, row :: MonthRow(k, row) in rows <==>
                  running - months <= k < m && Reported(prices, gen, k) == Some(row)
    {
      MonthIsReported(prices, gen, today, months, m, fuelMonths, priceMonths);
      if m in fuelMonths && m in priceMonths && priceMonths[m].hours >= MIN_PRICE_HOURS {
        var fuel := FuelMonthOf(fuelMonths[m]);
        if fuel.Some? && fuel.value.days >= MIN_DAYS {
          rows := rows + [MonthRow(m, RowOf(fuel.value, priceMonths[m].total / priceMonths[m].hours as real))];
        }
      }
      m := m + 1;
    }
  }

  lemma MonthIsReported(prices: Series, gen: Series, today: int, months: nat, m: int,
                        groups: map<int, Acc>, priceGroups: map<int, PriceMonth>)
    requires today >= 0 && Calendar.MonthOf(today) - months >= 12 && m >= Calendar.MonthOf(today) - months
    requires Grouped(groups, Window(prices, gen, WindowStart(today, months)), prices, gen)
    requires PricesGrouped(priceGroups, From(prices, WindowStart(today, months)), prices)
    ensures Reported(prices, gen, m)
         == if m in groups && m in priceGroups && priceGroups[m].hours >= MIN_PRICE_HOURS &&
               FuelMonthOf(groups[m]).Some? && FuelMonthOf(groups[m]).value.days >= MIN_DAYS then
              Some(RowOf(FuelMonthOf(groups[m]).value, priceGroups[m].total / priceGroups[m].hours as real))
            else None
  {
    var start := WindowStart(today, months);
    EvaluatorsAgree(prices, gen, start, m, groups, priceGroups);
    MonthIsWhole(prices, today, months, m);
    MonthIsWhole(gen, today, months, m);
    PriceHours(prices, start, m, priceGroups);
    hide Grouped, PricesGrouped, CaptureMetrics, FuelMonthOf, WindowStart, Window, From, OfMonth, WholeMonth;
  }

  lemma MonthIsWhole(s: Series, today: int, months: nat, m: int)
    requires today >= 0 && Calendar.MonthOf(today) - months >= 12 && m >= Calendar.MonthOf(today) - months
    ensures OfMonth(s, WindowStart(today, months), m) == WholeMonth(s, m)
  {
    hide WindowStart, Calendar.MonthOf;
    forall ts | ts in s && MonthIndex(ts) == m ensures ts >= WindowStart(today, months) {
      WindowCutsNoMonth(today, months, ts);
    }
    hide MonthIndex;
  }

  lemma PriceHours(prices: Series, start: int, m: int, priceGroups: map<int, PriceMonth>)
    requires PricesGrouped(priceGroups, From(prices, start), prices)
    ensures m in priceGroups <==> OfMonth(prices, start, m) != map[]
    ensures m in priceGroups ==> priceGroups[m].hours == |OfMonth(prices, start, m)|
  {
    GroupIsMonth(prices, map[], start, m);
    hide MonthIndex, Sum;
    var month := OfMonth(prices, start, m);
    assert |month.Keys| == |month|;
    assert month == map[] <==> month.Keys == {};
  }
}
