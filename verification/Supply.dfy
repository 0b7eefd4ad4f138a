/**
 Daily gas supply: the largest operator report counts at each physical point, its flows are added up by day, and the
 days by ISO week.
 */
module Supply {
  import opened Options
  import opened FiniteSums
  import opened Rounding
  import opened Ascending

  datatype PointClass = ImportPipeline | InterconnectorUk | ProductionEntry

  /** One flow joined with its active point; `physical` is the point's name without its operator suffix. */
  datatype Report = Report(day: int, physical: string, direction: string, pointClass: PointClass, value: Option<real>)

  datatype Key = Key(day: int, physical: string, direction: string)

  datatype Tagged = Tagged(pointClass: PointClass, value: real)

  type Best = map<Key, Tagged>

  function KeyOf(r: Report): Key {
    Key(r.day, r.physical, r.direction)
  }

  function TagOf(r: Report): Tagged {
    Tagged(r.pointClass, r.value.GetOr(0.0))
  }

  function Size(t: Tagged): real {
    Abs(t.value)
  }

  // ----- the largest report at each point

  /** What the loop holds after the first n reports. */
  function BestOf(rows: seq<Report>, n: nat): Best
    requires n <= |rows|
  {
    if n == 0 then map[]
    else
      var best, r := BestOf(rows, n - 1), rows[n - 1];
      if KeyOf(r) !in best || Size(TagOf(r)) > Size(best[KeyOf(r)]) then best[KeyOf(r) := TagOf(r)] else best
  }

  method LargestReports(rows: seq<Report>) returns (best: Best)
    ensures best == BestOf(rows, |rows|)
  {
    hide Size, TagOf;
    best := map[];
    for i := 0 to |rows|
      invariant best == BestOf(rows, i)
    {
      var r := rows[i];
      if KeyOf(r) !in best || Size(TagOf(r)) > Size(best[KeyOf(r)]) {
        best := best[KeyOf(r) := TagOf(r)];
      }
    }
  }

  /** Report i is the first of the largest among the first n of its key. */
  ghost predicate Wins(rows: seq<Report>, n: nat, i: nat) {
    && i < n <= |rows|
    && (forall j | 0 <= j < n && KeyOf(rows[j]) == KeyOf(rows[i]) ::
          Size(TagOf(rows[j])) <= Size(TagOf(rows[i])) && (j < i ==> Size(TagOf(rows[j])) < Size(TagOf(rows[i]))))
  }

  /** The fold keeps, for every reported key, its winner. */
  lemma {:induction false} BestIsWinner(rows: seq<Report>, n: nat, k: Key) returns (i: nat)
    requires n <= |rows|
    ensures k in BestOf(rows, n) <==> exists j :: 0 <= j < n && KeyOf(rows[j]) == k
    ensures k in BestOf(rows, n) ==> Wins(rows, n, i) && KeyOf(rows[i]) == k && BestOf(rows, n)[k] == TagOf(rows[i])
  {
    hide Size, TagOf, KeyOf;
    i := 0;
    if n > 0 {
      i := BestIsWinner(rows, n - 1, k);
      if KeyOf(rows[n - 1]) == k {
        if k !in BestOf(rows, n - 1) || Size(TagOf(rows[n - 1])) > Size(BestOf(rows, n - 1)[k]) {
          i := n - 1;
        }
      }
    }
  }

  lemma OneWinner(rows: seq<Report>, n: nat, i: nat, j: nat)
    requires Wins(rows, n, i) && Wins(rows, n, j) && KeyOf(rows[i]) == KeyOf(rows[j])
    ensures i == j
  {
    hide Size, TagOf, KeyOf;
  }

  /** So any winner at all tells what the fold holds. */
  lemma WinnerIsBest(rows: seq<Report>, n: nat, i: nat)
    requires Wins(rows, n, i)
    ensures KeyOf(rows[i]) in BestOf(rows, n) && BestOf(rows, n)[KeyOf(rows[i])] == TagOf(rows[i])
  {
    hide Size, TagOf, KeyOf, BestOf;
    var k := KeyOf(rows[i]);
    var w := BestIsWinner(rows, n, k);
    OneWinner(rows, n, w, i);
  }

  function With(a: seq<Report>, r: Report, b: seq<Report>): (rows: seq<Report>)
    ensures |rows| == |a + b| + 1
  {
    a + [r] + b
  }

  /** Where a report of a + b stands in a + [r] + b. */
  function Moved(a: seq<Report>, i: nat): nat {
    if i < |a| then i else i + 1
  }

  lemma WinnerStays(a: seq<Report>, r: Report, b: seq<Report>, i: nat, q: nat)
    requires Wins(a + b, |a + b|, i)
    requires KeyOf(r) == KeyOf((a + b)[i]) ==>
               q < |a + b| && KeyOf((a + b)[q]) == KeyOf(r) && Size(TagOf(r)) < Size(TagOf((a + b)[q]))
    ensures Wins(With(a, r, b), |a + b| + 1, Moved(a, i)) && With(a, r, b)[Moved(a, i)] == (a + b)[i]
  {
    hide Size, TagOf, KeyOf;
    var rows, more := a + b, With(a, r, b);
    forall j | 0 <= j < |more| ensures j == |a| || exists p :: 0 <= p < |rows| && j == Moved(a, p) && more[j] == rows[p] {
      if j < |a| {
        assert j == Moved(a, j) && more[j] == rows[j];
      } else if j > |a| {
        assert j == Moved(a, j - 1) && more[j] == rows[j - 1];
      }
    }
    assert more[|a|] == r;
    if KeyOf(r) == KeyOf(rows[i]) {
      assert Size(TagOf(rows[q])) <= Size(TagOf(rows[i]));
    }
  }

  lemma ReportedKeys(rows: seq<Report>, k: Key)
    ensures k in BestOf(rows, |rows|) <==> exists r :: r in rows && KeyOf(r) == k
  {
    hide KeyOf, BestOf, Wins;
    var i := BestIsWinner(rows, |rows|, k);
    if r :| r in rows && KeyOf(r) == k {
      var j :| 0 <= j < |rows| && rows[j] == r;
      assert KeyOf(rows[j]) == k;
    }
  }

  lemma NoOtherKey(a: seq<Report>, r: Report, b: seq<Report>, q: nat, k: Key)
    requires q < |a + b| && KeyOf((a + b)[q]) == KeyOf(r)
    requires var more := With(a, r, b); k in BestOf(more, |more|)
    ensures k in BestOf(a + b, |a + b|)
  {
    hide KeyOf, BestOf;
    ReportedKeys(With(a, r, b), k);
    ReportedKeys(a + b, k);
    var p :| p in With(a, r, b) && KeyOf(p) == k;
    assert p == r || p in a + b;
    assert (a + b)[q] in a + b;
  }

  lemma SmallerReportAtKey(a: seq<Report>, r: Report, b: seq<Report>, q: nat, k: Key)
    requires q < |a + b| && KeyOf((a + b)[q]) == KeyOf(r) && Size(TagOf(r)) < Size(TagOf((a + b)[q]))
    ensures var before, after := BestOf(a + b, |a + b|), BestOf(With(a, r, b), |a + b| + 1);
            (k in after <==> k in before) && (k in before ==> after[k] == before[k])
  {
    hide Size, TagOf, KeyOf, BestOf, Wins, With;
    var before, after := BestOf(a + b, |a + b|), BestOf(With(a, r, b), |a + b| + 1);
    if k in before {
      var i := BestIsWinner(a + b, |a + b|, k);
      WinnerStays(a, r, b, i, q);
      WinnerIsBest(With(a, r, b), |a + b| + 1, Moved(a, i));
    }
    if k in after {
      NoOtherKey(a, r, b, q, k);
    }
  }

  /**
   An extra report, in whatever place, that is strictly smaller in magnitude than some report of the same
   point, day and direction changes nothing.
   */
  lemma SmallerReportChangesNothing(a: seq<Report>, r: Report, b: seq<Report>, q: nat)
    requires q < |a + b| && KeyOf((a + b)[q]) == KeyOf(r) && Size(TagOf(r)) < Size(TagOf((a + b)[q]))
    ensures BestOf(With(a, r, b), |a + b| + 1) == BestOf(a + b, |a + b|)
  {
    hide *;
    var before, after := BestOf(a + b, |a + b|), BestOf(With(a, r, b), |a + b| + 1);
    forall k ensures (k in after <==> k in before) && (k in before ==> after[k] == before[k]) {
      SmallerReportAtKey(a, r, b, q, k);
    }
  }

  /** Reports of one key and one magnitude agree in class and sign wherever no larger one hides them. */
  ghost predicate NoTies(rows: seq<Report>) {
    forall i, j | 0 <= i < |rows| && 0 <= j < |rows| && KeyOf(rows[i]) == KeyOf(rows[j]) &&
                  Wins(rows, |rows|, i) && Size(TagOf(rows[j])) == Size(TagOf(rows[i])) :: TagOf(rows[j]) == TagOf(rows[i])
  }

  lemma SameMembers(rows: seq<Report>, again: seq<Report>)
    requires multiset(rows) == multiset(again)
    ensures forall r :: r in rows <==> r in again
  {
    forall r ensures r in rows <==> r in again {
      assert r in multiset(rows) <==> r in multiset(again);
    }
  }

  /** Without such ties the order in which the database returns the reports does not matter. */
  lemma OrderDoesNotMatter(rows: seq<Report>, again: seq<Report>)
    requires multiset(rows) == multiset(again) && NoTies(rows)
    ensures BestOf(again, |again|) == BestOf(rows, |rows|)
  {
    hide Size, TagOf, KeyOf, BestOf;
    SameMembers(rows, again);
    var x, y := BestOf(rows, |rows|), BestOf(again, |again|);
    forall k ensures (k in x <==> k in y) && (k in x ==> x[k] == y[k]) {
      var i := BestIsWinner(rows, |rows|, k);
      var w := BestIsWinner(again, |again|, k);
      ReportedKeys(rows, k);
      ReportedKeys(again, k);
      if k in x {
        assert rows[i] in again && again[w] in rows;
        var p :| 0 <= p < |again| && again[p] == rows[i];
        var j :| 0 <= j < |rows| && rows[j] == again[w];
      }
    }
  }

  /** The list with two reports exchanged. */
  function Exchanged(rows: seq<Report>, i: nat, j: nat): (again: seq<Report>)
    requires i < |rows| && j < |rows|
    ensures |again| == |rows|
  {
    rows[i := rows[j]][j := rows[i]]
  }

  lemma ExchangeWins(rows: seq<Report>, i: nat, j: nat)
    requires Wins(rows, |rows|, i) && j < |rows| && KeyOf(rows[j]) == KeyOf(rows[i])
    requires Size(TagOf(rows[j])) == Size(TagOf(rows[i]))
    ensures multiset(Exchanged(rows, i, j)) == multiset(rows)
    ensures Wins(Exchanged(rows, i, j), |rows|, i) && Exchanged(rows, i, j)[i] == rows[j]
  {
    hide Size, TagOf, KeyOf;
    assert i <= j;
  }

  /** A key whose largest reports do not agree: the first of them, and a later one with another class or sign. */
  ghost predicate Tied(rows: seq<Report>, i: nat, j: nat) {
    && i < |rows| && j < |rows| && Wins(rows, |rows|, i) && KeyOf(rows[j]) == KeyOf(rows[i])
    && Size(TagOf(rows[j])) == Size(TagOf(rows[i])) && TagOf(rows[j]) != TagOf(rows[i])
  }

  /** Exchanging the two changes what is held for their key, and nothing else. */
  lemma ExchangeChangesKey(rows: seq<Report>, i: nat, j: nat)
    requires Tied(rows, i, j)
    ensures var before, after, k := BestOf(rows, |rows|), BestOf(Exchanged(rows, i, j), |rows|), KeyOf(rows[i]);
            && k in before && after == before[k := TagOf(rows[j])] && before[k] == TagOf(rows[i])
  {
    hide Size, TagOf, KeyOf, BestOf, Exchanged;
    var again := Exchanged(rows, i, j);
    var before, after, k := BestOf(rows, |rows|), BestOf(again, |rows|), KeyOf(rows[i]);
    ExchangeWins(rows, i, j);
    WinnerIsBest(rows, |rows|, i);
    WinnerIsBest(again, |rows|, i);
    forall l | l != k ensures (l in after <==> l in before) && (l in before ==> after[l] == before[l]) {
      ExchangeKeeps(rows, i, j, l);
    }
  }

  lemma ExchangeKeeps(rows: seq<Report>, i: nat, j: nat, l: Key)
    requires i < |rows| && j < |rows| && KeyOf(rows[j]) == KeyOf(rows[i]) != l
    ensures var before, after := BestOf(rows, |rows|), BestOf(Exchanged(rows, i, j), |rows|);
            (l in after <==> l in before) && (l in before ==> after[l] == before[l])
  {
    hide Size, TagOf, KeyOf, BestOf;
    var again := Exchanged(rows, i, j);
    var w := BestIsWinner(rows, |rows|, l);
    var v := BestIsWinner(again, |rows|, l);
    assert forall n | 0 <= n < |rows| && n != i && n != j :: again[n] == rows[n];
    assert forall n | 0 <= n < |rows| :: KeyOf(again[n]) == KeyOf(rows[n]);
    if l in BestOf(rows, |rows|) {
      assert Wins(again, |rows|, w);
      WinnerIsBest(again, |rows|, w);
    }
  }

  lemma TiedUnlessNoTies(rows: seq<Report>)
    ensures NoTies(rows) <==> !exists i: nat, j: nat :: Tied(rows, i, j)
  {
    hide Size, TagOf, KeyOf;
    if !NoTies(rows) {
      var i, j :| 0 <= i < |rows| && 0 <= j < |rows| && KeyOf(rows[i]) == KeyOf(rows[j]) && Wins(rows, |rows|, i) &&
                  Size(TagOf(rows[j])) == Size(TagOf(rows[i])) && TagOf(rows[j]) != TagOf(rows[i]);
      assert Tied(rows, i, j);
    }
  }

  ghost predicate SameBest(rows: seq<Report>, again: seq<Report>) {
    multiset(again) == multiset(rows) ==> BestOf(again, |again|) == BestOf(rows, |rows|)
  }

  /** The order of the rows matters to what is held for some key if and only if there is such a tie. */
  lemma OrderMattersExactly(rows: seq<Report>)
    ensures (forall again :: SameBest(rows, again)) <==> NoTies(rows)
  {
    hide BestOf, Wins;
    TiedUnlessNoTies(rows);
    if NoTies(rows) {
      forall again ensures SameBest(rows, again) {
        if multiset(again) == multiset(rows) {
          OrderDoesNotMatter(rows, again);
        }
      }
    } else {
      var i: nat, j: nat :| Tied(rows, i, j);
      ExchangeChangesKey(rows, i, j);
      ExchangeWins(rows, i, j);
      assert !SameBest(rows, Exchanged(rows, i, j));
    }
  }

  // ----- the daily sums

  datatype Part = Pipeline | Production | UkEntry | UkExit

  function PartOf(k: Key, t: Tagged): Part {
    match t.pointClass
    case ImportPipeline => Pipeline
    case ProductionEntry => Production
    case InterconnectorUk => if k.direction == "entry" then UkEntry else UkExit
  }

  function DayOf(k: Key): int {
    k.day
  }

  /** What a point adds to one part of its day. */
  ghost function Share(best: Best, part: Part): Key -> real {
    k => if k in best && PartOf(k, best[k]) == part then best[k].value else 0.0
  }

  datatype DayAgg = DayAgg(pipeline: real, production: real, ukEntry: real, ukExit: real) {
    function Add(part: Part, value: real): DayAgg {
      match part
      case Pipeline => this.(pipeline := pipeline + value)
      case Production => this.(production := production + value)
      case UkEntry => this.(ukEntry := ukEntry + value)
      case UkExit => this.(ukExit := ukExit + value)
    }
  }

  ghost function AggOf(keys: set<Key>, best: Best): DayAgg {
    DayAgg(Sum(keys, Share(best, Pipeline)), Sum(keys, Share(best, Production)),
           Sum(keys, Share(best, UkEntry)), Sum(keys, Share(best, UkExit)))
  }

  lemma AggNone(best: Best)
    ensures AggOf({}, best) == DayAgg(0.0, 0.0, 0.0, 0.0)
  {
    SumEmpty(Share(best, Pipeline));
    SumEmpty(Share(best, Production));
    SumEmpty(Share(best, UkEntry));
    SumEmpty(Share(best, UkExit));
  }

  lemma AggOneMore(keys: set<Key>, best: Best, k: Key)
    requires k !in keys && k in best
    ensures AggOf(keys + {k}, best) == AggOf(keys, best).Add(PartOf(k, best[k]), best[k].value)
  {
    hide Sum, PartOf;
    SumAdd(keys, Share(best, Pipeline), k);
    SumAdd(keys, Share(best, Production), k);
    SumAdd(keys, Share(best, UkEntry), k);
    SumAdd(keys, Share(best, UkExit), k);
  }

  ghost predicate Gathered(byDay: map<int, DayAgg>, seen: set<Key>, best: Best) {
    forall d :: (d in byDay <==> Fibre(seen, DayOf, d) != {}) &&
                (d in byDay ==> byDay[d] == AggOf(Fibre(seen, DayOf, d), best))
  }

  lemma GatheredNone(best: Best)
    ensures Gathered(map[], {}, best)
  {
  }

  lemma GatheredOneMore(byDay: map<int, DayAgg>, seen: set<Key>, best: Best, k: Key)
    requires Gathered(byDay, seen, best) && k !in seen && k in best
    ensures var agg := if k.day in byDay then byDay[k.day] else DayAgg(0.0, 0.0, 0.0, 0.0);
            Gathered(byDay[k.day := agg.Add(PartOf(k, best[k]), best[k].value)], seen + {k}, best)
  {
    hide AggOf, PartOf, DayAgg.Add;
    forall d ensures Fibre(seen + {k}, DayOf, d) == if d == k.day then Fibre(seen, DayOf, d) + {k} else Fibre(seen, DayOf, d) {
    }
    AggNone(best);
    AggOneMore(Fibre(seen, DayOf, k.day), best, k);
  }

  method GatherByDay(best: Best) returns (byDay: map<int, DayAgg>)
    ensures Gathered(byDay, best.Keys, best)
  {
    hide Gathered, PartOf, DayAgg.Add;
    byDay := map[];
    var todo := best.Keys;
    ghost var seen: set<Key> := {};
    GatheredNone(best);
    while todo != {}
      invariant todo <= best.Keys && seen == best.Keys - todo
      invariant Gathered(byDay, seen, best)
      decreases todo
    {
      var k :| k in todo;
      GatheredOneMore(byDay, seen, best, k);
      var agg := if k.day in byDay then byDay[k.day] else DayAgg(0.0, 0.0, 0.0, 0.0);
      byDay := byDay[k.day := agg.Add(PartOf(k, best[k]), best[k].value)];
      todo := todo - {k};
      seen := seen + {k};
    }
    assert seen == best.Keys;
  }

  datatype SupplyRow = SupplyRow(date: int, pipeline: real, production: real, lng: real, ukNet: real, supply: real)

  /** A day's supply in exact arithmetic: the UK counts only when it delivers. */
  function ExactSupply(agg: DayAgg, lng: real): real {
    agg.pipeline + agg.production + lng + Max0(agg.ukEntry - agg.ukExit)
  }

  function RowOf(date: int, agg: DayAgg, lng: real): SupplyRow {
    SupplyRow(date, Round1(agg.pipeline), Round1(agg.production), Round1(lng), Round1(agg.ukEntry - agg.ukExit),
              Round1(ExactSupply(agg, lng)))
  }

  /** What the reports of one day add up to. */
  ghost function AggOn(rows: seq<Report>, d: int): DayAgg {
    var best := BestOf(rows, |rows|);
    AggOf(Fibre(best.Keys, DayOf, d), best)
  }

  function LngOn(lng: map<int, Option<real>>, d: int): real {
    if d in lng then lng[d].GetOr(0.0) else 0.0
  }

  ghost function SupplyDays(rows: seq<Report>, lng: map<int, Option<real>>): set<int> {
    lng.Keys + set r | r in rows :: r.day
  }

  /** What a key holds is the same, or is nothing either way. */
  ghost predicate SameOrZero(x: Best, y: Best, k: Key) {
    (k in x <==> k in y) && (k in x ==> x[k] == y[k] || (x[k].value == 0.0 && y[k].value == 0.0))
  }

  ghost predicate OnlyZeroTies(rows: seq<Report>) {
    forall i: nat, j: nat | Tied(rows, i, j) :: Size(TagOf(rows[i])) == 0.0
  }

  lemma ZeroTiesAtKey(rows: seq<Report>, again: seq<Report>, k: Key)
    requires multiset(again) == multiset(rows) && OnlyZeroTies(rows)
    ensures SameOrZero(BestOf(rows, |rows|), BestOf(again, |again|), k)
  {
    hide TagOf, KeyOf, BestOf, OnlyZeroTies;
    SameMembers(rows, again);
    var i := BestIsWinner(rows, |rows|, k);
    var w := BestIsWinner(again, |again|, k);
    ReportedKeys(rows, k);
    ReportedKeys(again, k);
    if k in BestOf(rows, |rows|) {
      assert rows[i] in again && again[w] in rows;
      var p: nat :| 0 <= p < |again| && again[p] == rows[i];
      var j: nat :| 0 <= j < |rows| && rows[j] == again[w];
      if TagOf(rows[j]) != TagOf(rows[i]) {
        assert Tied(rows, i, j);
        ZeroTie(rows, i, j);
      }
    }
  }

  lemma ZeroTie(rows: seq<Report>, i: nat, j: nat)
    requires OnlyZeroTies(rows) && Tied(rows, i, j)
    ensures TagOf(rows[i]).value == 0.0 && TagOf(rows[j]).value == 0.0
  {
    hide TagOf, KeyOf, Wins;
    assert Size(TagOf(rows[i])) == 0.0;
  }

  lemma {:induction false} SameShares(x: Best, y: Best, keys: set<Key>, part: Part)
    requires forall k | k in keys :: SameOrZero(x, y, k)
    ensures Sum(keys, Share(x, part)) == Sum(keys, Share(y, part))
  {
    hide Sum, PartOf;
    forall k | k in keys ensures Share(x, part)(k) == Share(y, part)(k) {
      assert SameOrZero(x, y, k);
    }
    SumSame(keys, Share(x, part), Share(y, part));
  }

  lemma ZeroTiesKeepDay(rows: seq<Report>, again: seq<Report>, d: int)
    requires multiset(again) == multiset(rows) && OnlyZeroTies(rows)
    ensures AggOn(again, d) == AggOn(rows, d)
  {
    hide BestOf, Sum, Share, OnlyZeroTies;
    var x, y := BestOf(rows, |rows|), BestOf(again, |again|);
    forall k ensures SameOrZero(x, y, k) {
      ZeroTiesAtKey(rows, again, k);
    }
    assert x.Keys == y.Keys by {
      forall k ensures k in x.Keys <==> k in y.Keys {
        assert SameOrZero(x, y, k);
      }
    }
    var keys := Fibre(x.Keys, DayOf, d);
    SameShares(x, y, keys, Pipeline);
    SameShares(x, y, keys, Production);
    SameShares(x, y, keys, UkEntry);
    SameShares(x, y, keys, UkExit);
  }

  /** A tie that is not of zeros moves its day's sums. */
  lemma TieMovesDay(rows: seq<Report>, i: nat, j: nat)
    requires Tied(rows, i, j) && Size(TagOf(rows[i])) != 0.0
    ensures AggOn(Exchanged(rows, i, j), rows[i].day) != AggOn(rows, rows[i].day)
  {
    hide BestOf, Sum, Exchanged, Wins;
    ExchangeChangesKey(rows, i, j);
    var x, y, k := BestOf(rows, |rows|), BestOf(Exchanged(rows, i, j), |rows|), KeyOf(rows[i]);
    var part := PartOf(k, x[k]);
    var keys := Fibre(x.Keys, DayOf, k.day);
    assert y.Keys == x.Keys;
    SumPick(keys, Share(x, part), k);
    SumPick(keys, Share(y, part), k);
    SameShares(x, y, keys - {k}, part);
    assert Share(x, part)(k) != Share(y, part)(k) by { hide *; TiedShares(rows, i, j, k, x, y); }
  }

  lemma TiedShares(rows: seq<Report>, i: nat, j: nat, k: Key, x: Best, y: Best)
    requires Tied(rows, i, j) && Size(TagOf(rows[i])) != 0.0 && k in x && k in y
    requires x[k] == TagOf(rows[i]) && y[k] == TagOf(rows[j])
    ensures Share(x, PartOf(k, x[k]))(k) != Share(y, PartOf(k, x[k]))(k)
  {
    hide Wins, TagOf;
    var p, q := TagOf(rows[i]), TagOf(rows[j]);
    assert p.pointClass == q.pointClass ==> q.value == -p.value && p.value != 0.0;
    assert p.pointClass != q.pointClass ==> PartOf(k, p) != PartOf(k, q);
  }

  ghost predicate SameDays(rows: seq<Report>, again: seq<Report>) {
    multiset(again) == multiset(rows) ==> forall d :: AggOn(again, d) == AggOn(rows, d)
  }

  /** The order of the rows matters to some day's sums if and only if a tie that is not of zeros differs. */
  lemma DaysDependOnOrderExactly(rows: seq<Report>)
    ensures (forall again :: SameDays(rows, again)) <==> OnlyZeroTies(rows)
  {
    hide AggOn, Wins, Size, TagOf;
    if OnlyZeroTies(rows) {
      forall again ensures SameDays(rows, again) {
        if multiset(again) == multiset(rows) {
          forall d ensures AggOn(again, d) == AggOn(rows, d) {
            ZeroTiesKeepDay(rows, again, d);
          }
        }
      }
    } else {
      var i: nat, j: nat :| Tied(rows, i, j) && Size(TagOf(rows[i])) != 0.0;
      TiedIndices(rows, i, j);
      TieMovesDay(rows, i, j);
      assert !SameDays(rows, Exchanged(rows, i, j));
    }
  }

  lemma TiedIndices(rows: seq<Report>, i: nat, j: nat)
    requires Tied(rows, i, j)
    ensures i < |rows| && j < |rows| && multiset(Exchanged(rows, i, j)) == multiset(rows)
  {
    ExchangeWins(rows, i, j);
  }

  lemma ReportedDays(rows: seq<Report>, d: int)
    ensures Fibre(BestOf(rows, |rows|).Keys, DayOf, d) != {} <==> exists r :: r in rows && r.day == d
  {
    hide BestOf;
    var best := BestOf(rows, |rows|);
    if r :| r in rows && r.day == d {
      ReportedKeys(rows, KeyOf(r));
      assert KeyOf(r) in Fibre(best.Keys, DayOf, d);
    }
    if k :| k in Fibre(best.Keys, DayOf, d) {
      ReportedKeys(rows, k);
    }
  }

  /** The row a day should get. */
  ghost predicate IsRow(row: SupplyRow, d: int, rows: seq<Report>, lng: map<int, Option<real>>) {
    row.date == d && row == RowOf(d, AggOn(rows, d), LngOn(lng, d))
  }

  /** `compute_daily_supply`: one row per day with a report or with LNG, in order of date. */
  method ComputeDailySupply(rows: seq<Report>, lng: map<int, Option<real>>) returns (out: seq<SupplyRow>)
    ensures |out| == |SupplyDays(rows, lng)|
    ensures forall i | 0 <= i < |out| :: IsRow(out[i], out[i].date, rows, lng)
    ensures forall i, j | 0 <= i < j < |out| :: out[i].date < out[j].date
    ensures forall d :: d in SupplyDays(rows, lng) <==> exists i :: 0 <= i < |out| && out[i].date == d
  {
    hide *;
    var best := LargestReports(rows);
    var byDay := GatherByDay(best);
    GatheredDays(rows, lng, byDay);
    var days := Sorted(byDay.Keys + lng.Keys);
    out := BuildRows(rows, lng, byDay, days);
    DatesCover(days, out, rows, lng);
  }

  method BuildRows(ghost rows: seq<Report>, lng: map<int, Option<real>>, byDay: map<int, DayAgg>, days: seq<int>)
    returns (out: seq<SupplyRow>)
    requires Gathered(byDay, BestOf(rows, |rows|).Keys, BestOf(rows, |rows|))
    ensures |out| == |days|
    ensures forall j | 0 <= j < |days| :: IsRow(out[j], days[j], rows, lng)
  {
    hide *;
    out := [];
    for i := 0 to |days|
      invariant |out| == i
      invariant forall j | 0 <= j < i :: IsRow(out[j], days[j], rows, lng)
    {
      var d := days[i];
      var agg := if d in byDay then byDay[d] else DayAgg(0.0, 0.0, 0.0, 0.0);
      GatheredOn(rows, byDay, d);
      RowIsRow(d, rows, lng);
      out := out + [RowOf(d, agg, LngOn(lng, d))];
    }
  }

  lemma RowIsRow(d: int, rows: seq<Report>, lng: map<int, Option<real>>)
    ensures IsRow(RowOf(d, AggOn(rows, d), LngOn(lng, d)), d, rows, lng)
  {
    hide AggOn, LngOn;
  }

  lemma {:induction false} DatesCover(days: seq<int>, out: seq<SupplyRow>, rows: seq<Report>, lng: map<int,
                                      Option<real>>)
    requires |days| == |out| && Increasing(days) && forall i | 0 <= i < |out| :: IsRow(out[i], days[i], rows, lng)
    ensures forall i | 0 <= i < |out| :: IsRow(out[i], out[i].date, rows, lng)
    ensures forall i, j | 0 <= i < j < |out| :: out[i].date < out[j].date
    ensures forall d :: d in days <==> exists i :: 0 <= i < |out| && out[i].date == d
  {
    hide RowOf, AggOn, LngOn;
    forall d ensures d in days <==> exists i :: 0 <= i < |out| && out[i].date == d {
      if i :| 0 <= i < |out| && out[i].date == d {
        assert days[i] == d;
      }
      if i :| 0 <= i < |days| && days[i] == d {
        assert out[i].date == d;
      }
    }
  }

  lemma GatheredOn(rows: seq<Report>, byDay: map<int, DayAgg>, d: int)
    requires Gathered(byDay, BestOf(rows, |rows|).Keys, BestOf(rows, |rows|))
    ensures AggOn(rows, d) == if d in byDay then byDay[d] else DayAgg(0.0, 0.0, 0.0, 0.0)
  {
    hide BestOf, AggOf;
    AggNone(BestOf(rows, |rows|));
  }

  lemma GatheredDays(rows: seq<Report>, lng: map<int, Option<real>>, byDay: map<int, DayAgg>)
    requires Gathered(byDay, BestOf(rows, |rows|).Keys, BestOf(rows, |rows|))
    ensures byDay.Keys + lng.Keys == SupplyDays(rows, lng)
  {
    hide BestOf, AggOf;
    forall d ensures d in byDay <==> exists r :: r in rows && r.day == d {
      ReportedDays(rows, d);
    }
  }

  // ----- the rows from the reports themselves

  /** A report's flow; a missing one counts as none. */
  function Amount(r: Report): real {
    match r.value
    case None => 0.0
    case Some(v) => v
  }

  /** No report of the same day, physical point and direction is larger, and none as large comes before. */
  ghost predicate Chosen(rows: seq<Report>, i: nat) {
    i < |rows| &&
    forall j | 0 <= j < |rows| && rows[j].day == rows[i].day && rows[j].physical == rows[i].physical &&
               rows[j].direction == rows[i].direction ::
      Abs(Amount(rows[j])) <= Abs(Amount(rows[i])) && (j < i ==> Abs(Amount(rows[j])) < Abs(Amount(rows[i])))
  }

  ghost function ChosenOn(rows: seq<Report>, d: int): set<nat> {
    set i: nat | i < |rows| && rows[i].day == d && Chosen(rows, i)
  }

  ghost function OfClass(rows: seq<Report>, c: PointClass): nat -> real {
    (i: nat) => if i < |rows| && rows[i].pointClass == c then Amount(rows[i]) else 0.0
  }

  /** What flows in from the UK counts up, and what flows out counts down. */
  ghost function FromUk(rows: seq<Report>): nat -> real {
    (i: nat) => if i < |rows| && rows[i].pointClass == InterconnectorUk
         then if rows[i].direction == "entry" then Amount(rows[i]) else -Amount(rows[i])
         else 0.0
  }

  lemma ChosenWins(rows: seq<Report>, i: nat)
    ensures Chosen(rows, i) <==> Wins(rows, |rows|, i)
  {
  }

  ghost function NameIn(rows: seq<Report>): nat -> Key {
    (i: nat) => if i < |rows| then KeyOf(rows[i]) else Key(0, "", "")
  }

  /** The chosen reports of a day are named by the keys that are held for it, each by its own. */
  lemma ChosenAreHeld(rows: seq<Report>, d: int)
    ensures var best, name := BestOf(rows, |rows|), NameIn(rows);
            var s, t := ChosenOn(rows, d), Fibre(best.Keys, DayOf, d);
            && (forall i: nat | i in s :: name(i) in t && best[name(i)] == TagOf(rows[i]))
            && (forall i: nat, j: nat | i in s && j in s && name(i) == name(j) :: i == j)
            && (forall k | k in t :: exists i: nat :: i in s && name(i) == k)
  {
    hide BestOf, Chosen, TagOf, Wins;
    var best, name := BestOf(rows, |rows|), NameIn(rows);
    var s, t := ChosenOn(rows, d), Fibre(best.Keys, DayOf, d);
    forall i: nat | i in s
      ensures name(i) in t && best[name(i)] == TagOf(rows[i]) && Wins(rows, |rows|, i)
    {
      ChosenWins(rows, i);
      WinnerIsBest(rows, |rows|, i);
    }
    forall i: nat, j: nat | i in s && j in s && name(i) == name(j)
      ensures i == j
    {
      OneWinner(rows, |rows|, i, j);
    }
    forall k | k in t
      ensures exists i: nat :: i in s && name(i) == k
    {
      var i := BestIsWinner(rows, |rows|, k);
      WinnerInRange(rows, i);
      ChosenWins(rows, i);
      assert i in s && name(i) == k;
    }
  }

  lemma WinnerInRange(rows: seq<Report>, i: nat)
    requires Wins(rows, |rows|, i)
    ensures i < |rows|
  {
  }

  lemma {:induction false} HeldSum(rows: seq<Report>, d: int, f: nat -> real, g: Key -> real)
    requires forall i: nat | i in ChosenOn(rows, d) :: f(i) == g(KeyOf(rows[i]))
    ensures Sum(ChosenOn(rows, d), f) == Sum(Fibre(BestOf(rows, |rows|).Keys, DayOf, d), g)
  {
    ChosenAreHeld(rows, d);
    hide Sum, Chosen, BestOf, Fibre;
    var name := NameIn(rows);
    forall i: nat | i in ChosenOn(rows, d)
      ensures f(i) == g(name(i))
    {
      assert name(i) == KeyOf(rows[i]);
    }
    var s, t := ChosenOn(rows, d), Fibre(BestOf(rows, |rows|).Keys, DayOf, d);
    assert forall i: nat | i in s :: name(i) in t;
    assert forall i: nat, j: nat | i in s && j in s && name(i) == name(j) :: i == j;
    assert forall k | k in t :: exists i: nat :: i in s && name(i) == k;
    SumImage(ChosenOn(rows, d), NameIn(rows), Fibre(BestOf(rows, |rows|).Keys, DayOf, d), f, g);
  }

  ghost function NetShare(best: Best): Key -> real {
    k => Share(best, UkEntry)(k) - Share(best, UkExit)(k)
  }

  lemma NetSum(keys: set<Key>, best: Best)
    ensures Sum(keys, Share(best, UkEntry)) - Sum(keys, Share(best, UkExit)) == Sum(keys, NetShare(best))
  {
    hide Sum, Share;
    SumPlus(keys, NetShare(best), Share(best, UkExit), Share(best, UkEntry));
  }

  lemma HeldHere(rows: seq<Report>, d: int, i: nat)
    requires i in ChosenOn(rows, d)
    ensures KeyOf(rows[i]) in BestOf(rows, |rows|) && BestOf(rows, |rows|)[KeyOf(rows[i])] == TagOf(rows[i])
  {
    ChosenWins(rows, i);
    WinnerIsBest(rows, |rows|, i);
  }

  /** A day's sums, from its reports: pipelines, production, and what the UK sends less what it takes. */
  lemma DayFromReports(rows: seq<Report>, d: int)
    ensures var agg, chosen := AggOn(rows, d), ChosenOn(rows, d);
            && agg.pipeline == Sum(chosen, OfClass(rows, ImportPipeline))
            && agg.production == Sum(chosen, OfClass(rows, ProductionEntry))
            && agg.ukEntry - agg.ukExit == Sum(chosen, FromUk(rows))
  {
    ChosenAreHeld(rows, d);
    hide Sum, Chosen, BestOf, Wins;
    var best := BestOf(rows, |rows|);
    forall i: nat | i in ChosenOn(rows, d)
      ensures OfClass(rows, ImportPipeline)(i) == Share(best, Pipeline)(KeyOf(rows[i]))
      ensures OfClass(rows, ProductionEntry)(i) == Share(best, Production)(KeyOf(rows[i]))
      ensures FromUk(rows)(i) == NetShare(best)(KeyOf(rows[i]))
    {
      HeldHere(rows, d, i);
      var k := KeyOf(rows[i]);
      assert NetShare(best)(k) == Share(best, UkEntry)(k) - Share(best, UkExit)(k);
    }
    HeldSum(rows, d, OfClass(rows, ImportPipeline), Share(best, Pipeline));
    HeldSum(rows, d, OfClass(rows, ProductionEntry), Share(best, Production));
    HeldSum(rows, d, FromUk(rows), NetShare(best));
    NetSum(Fibre(best.Keys, DayOf, d), best);
  }

  /** LNG counts as none where it is missing. */
  function LngAmount(lng: map<int, Option<real>>, d: int): real {
    if d in lng && lng[d].Some? then lng[d].value else 0.0
  }

  predicate Near(x: real, y: real) {
    y - 0.05 <= x <= y + 0.05
  }

  /**
   Every number of a day's row, from the reports: within 0.05, each is the sum over the chosen reports of its class,
   the UK's signed by direction, and supply is their total with the UK counted only when it delivers.
   */
  lemma RowFromReports(row: SupplyRow, d: int, rows: seq<Report>, lng: map<int, Option<real>>)
    requires IsRow(row, d, rows, lng)
    ensures var chosen := ChosenOn(rows, d);
            var pipeline, production := Sum(chosen, OfClass(rows, ImportPipeline)), Sum(chosen, OfClass(rows, ProductionEntry));
            var uk, gas := Sum(chosen, FromUk(rows)), LngAmount(lng, d);
            && Near(row.pipeline, pipeline) && Near(row.production, production) && Near(row.lng, gas) && Near(row.ukNet, uk)
            && Near(row.supply, pipeline + production + gas + if uk > 0.0 then uk else 0.0)
  {
    DayFromReports(rows, d);
    hide AggOn, Sum, ChosenOn, Round1, OfClass, FromUk;
  }

  // ----- ISO weeks

  /** The ISO week of a day, by its Monday: day 0, 1 January of year 1, was one. */
  function WeekOf(day: int): int {
    day / 7
  }

  type Weekly = map<int, real>

  function ValueAt(weekly: Weekly): int -> real {
    w => if w in weekly then weekly[w] else 0.0
  }

  function AddDay(weekly: Weekly, row: SupplyRow): Weekly {
    var w := WeekOf(row.date);
    weekly[w := (if w in weekly then weekly[w] else 0.0) + row.supply]
  }

  function WeeklyOf(daily: seq<SupplyRow>, n: nat): Weekly
    requires n <= |daily|
  {
    if n == 0 then map[] else AddDay(WeeklyOf(daily, n - 1), daily[n - 1])
  }

  method WeeklySupply(daily: seq<SupplyRow>) returns (weekly: Weekly)
    ensures weekly == WeeklyOf(daily, |daily|)
  {
    hide WeekOf;
    weekly := map[];
    for i := 0 to |daily|
      invariant weekly == WeeklyOf(daily, i)
    {
      var w := WeekOf(daily[i].date);
      weekly := weekly[w := (if w in weekly then weekly[w] else 0.0) + daily[i].supply];
    }
  }

  function SupplyTotal(daily: seq<SupplyRow>, n: nat): real
    requires n <= |daily|
  {
    if n == 0 then 0.0 else SupplyTotal(daily, n - 1) + daily[n - 1].supply
  }

  /** The supply of the days from Monday to Sunday. */
  function WeekTotal(daily: seq<SupplyRow>, n: nat, monday: int): real
    requires n <= |daily|
  {
    if n == 0 then 0.0
    else
      WeekTotal(daily, n - 1, monday)
      + if monday <= daily[n - 1].date < monday + 7 then daily[n - 1].supply else 0.0
  }

  lemma {:induction false} WeekIsMondayToSunday(daily: seq<SupplyRow>, n: nat, w: int)
    requires n <= |daily|
    ensures w in WeeklyOf(daily, n) <==> exists i :: 0 <= i < n && 7 * w <= daily[i].date < 7 * w + 7
    ensures ValueAt(WeeklyOf(daily, n))(w) == WeekTotal(daily, n, 7 * w)
  {
    if n > 0 {
      WeekIsMondayToSunday(daily, n - 1, w);
      WeekBounds(daily[n - 1].date, w);
    }
  }

  lemma WeekBounds(d: int, w: int)
    ensures WeekOf(d) == w <==> 7 * w <= d < 7 * w + 7
  {
  }

  /** Weeks lose nothing: their totals add up to the daily supply. */
  lemma {:induction false} WeeksConserve(daily: seq<SupplyRow>, n: nat)
    requires n <= |daily|
    ensures Sum(WeeklyOf(daily, n).Keys, ValueAt(WeeklyOf(daily, n))) == SupplyTotal(daily, n)
  {
    hide Sum, WeekOf, AddDay;
    if n == 0 {
      SumEmpty(ValueAt(WeeklyOf(daily, n)));
      assert WeeklyOf(daily, n).Keys == {};
    } else {
      WeeksConserve(daily, n - 1);
      AddDayConserves(WeeklyOf(daily, n - 1), daily[n - 1]);
    }
  }

  lemma AddDayConserves(weekly: Weekly, row: SupplyRow)
    ensures Sum(AddDay(weekly, row).Keys, ValueAt(AddDay(weekly, row))) == Sum(weekly.Keys, ValueAt(weekly)) + row.supply
  {
    hide Sum, WeekOf;
    var after, w := AddDay(weekly, row), WeekOf(row.date);
    var others := weekly.Keys - {w};
    assert after.Keys - {w} == others;
    SumPick(after.Keys, ValueAt(after), w);
    forall v: int | v in others ensures ValueAt(after)(v) == ValueAt(weekly)(v) {
    }
    SumSame(others, ValueAt(after), ValueAt(weekly));
    if w in weekly {
      SumPick(weekly.Keys, ValueAt(weekly), w);
    } else {
      assert others == weekly.Keys;
    }
  }
}
