/**
 Border statistics: the nearest-rank percentile in Python and its SQL twin, and the counts of one border over the
 hours that are priced on both sides.
 */
module Borders {
  import FiniteSums
  import opened Options
  import opened Rounding

  const COUPLED_EPS_EUR := 1.0
  const RAIL_PERCENTILE := 0.95

  type Series = map<int, real>

  // ----- percentile

  function Insert(x: real, s: seq<real>): seq<real> {
    if s == [] || x <= s[0] then [x] + s else [s[0]] + Insert(x, s[1..])
  }

  /** Python's `sorted`. */
  function Sorted(s: seq<real>): seq<real> {
    if s == [] then [] else Insert(s[0], Sorted(s[1..]))
  }

  ghost predicate Ascending(s: seq<real>) {
    forall i, j | 0 <= i < j < |s| :: s[i] <= s[j]
  }

  lemma {:induction false} InsertAscending(x: real, s: seq<real>)
    requires Ascending(s)
    ensures Ascending(Insert(x, s)) && |Insert(x, s)| == |s| + 1
    ensures Insert(x, s)[0] == (if s == [] || x <= s[0] then x else s[0])
  {
    if s != [] && !(x <= s[0]) {
      InsertAscending(x, s[1..]);
    }
  }

  lemma {:induction false} SortedAscending(s: seq<real>)
    ensures Ascending(Sorted(s)) && |Sorted(s)| == |s|
  {
    if s != [] {
      SortedAscending(s[1..]);
      InsertAscending(s[0], Sorted(s[1..]));
    }
  }

  /** How many values are below v, or at most v when `orEqual`. */
  function Below(s: seq<real>, v: real, orEqual: bool): nat {
    if s == [] then 0 else (if s[0] < v || (orEqual && s[0] == v) then 1 else 0) + Below(s[1..], v, orEqual)
  }

  lemma {:induction false} BelowInsert(x: real, s: seq<real>, v: real, orEqual: bool)
    ensures Below(Insert(x, s), v, orEqual) == Below([x], v, orEqual) + Below(s, v, orEqual)
  {
    if s != [] && !(x <= s[0]) {
      BelowInsert(x, s[1..], v, orEqual);
    } else {
      assert ([x] + s)[1..] == s;
    }
  }

  lemma {:induction false} BelowSorted(s: seq<real>, v: real, orEqual: bool)
    ensures Below(Sorted(s), v, orEqual) == Below(s, v, orEqual)
  {
    if s != [] {
      BelowSorted(s[1..], v, orEqual);
      BelowInsert(s[0], Sorted(s[1..]), v, orEqual);
    }
  }

  /** An ascending list holds v at position k exactly when k of its values may be below v and k + 1 at most v. */
  lemma {:induction false} PositionOf(s: seq<real>, k: nat, v: real)
    requires Ascending(s) && k < |s|
    ensures s[k] == v <==> Below(s, v, false) <= k < Below(s, v, true)
  {
    if s[0] >= v {
      NoneBelow(s, v);
    }
    if s[0] <= v && k > 0 {
      PositionOf(s[1..], k - 1, v);
    }
  }

  lemma {:induction false} NoneBelow(s: seq<real>, v: real)
    requires Ascending(s) && s != [] && s[0] >= v
    ensures Below(s, v, false) == 0
    ensures s[0] > v ==> Below(s, v, true) == 0
  {
    if |s| > 1 {
      NoneBelow(s[1..], v);
    }
  }

  lemma {:induction false} BelowSplit(a: seq<real>, b: seq<real>, v: real, orEqual: bool)
    ensures Below(a + b, v, orEqual) == Below(a, v, orEqual) + Below(b, v, orEqual)
  {
    if a == [] {
      assert a + b == b;
    } else {
      assert (a + b)[1..] == a[1..] + b;
      BelowSplit(a[1..], b, v, orEqual);
    }
  }

  lemma TakeOut(b: seq<real>, k: nat, v: real, orEqual: bool)
    requires k < |b|
    ensures var rest := b[..k] + b[k + 1..];
            && multiset(rest) == multiset(b) - multiset{b[k]}
            && Below(b, v, orEqual) == Below(rest, v, orEqual) + Below([b[k]], v, orEqual)
  {
    var l, x, r := b[..k], [b[k]], b[k + 1..];
    assert b == l + (x + r);
    BelowSplit(l, x + r, v, orEqual);
    BelowSplit(x, r, v, orEqual);
    BelowSplit(l, r, v, orEqual);
  }

  lemma {:induction false} BelowPermuted(a: seq<real>, b: seq<real>, v: real, orEqual: bool)
    requires multiset(a) == multiset(b)
    ensures Below(a, v, orEqual) == Below(b, v, orEqual) && |a| == |b|
  {
    hide Below;
    assert |multiset(a)| == |a| && |multiset(b)| == |b|;
    if a != [] {
      assert a[0] in multiset(b);
      var k :| 0 <= k < |b| && b[k] == a[0];
      TakeOut(a, 0, v, orEqual);
      TakeOut(b, k, v, orEqual);
      BelowPermuted(a[..0] + a[1..], b[..k] + b[k + 1..], v, orEqual);
    }
  }

  /** The zero-based position Python picks. */
  function PythonIndex(n: nat): (i: nat)
    requires n > 0
    ensures i < n
  {
    var idx := HalfEven(RAIL_PERCENTILE * (n - 1) as real);
    if idx < n - 1 then idx else n - 1
  }

  function Percentile95(values: seq<real>): Option<real> {
    if values == [] then None
    else
      SortedAscending(values);
      Some(Sorted(values)[PythonIndex(|values|)])
  }

  /** The one-based ROW_NUMBER the SQL picks. */
  function SqlRank(cnt: nat): int
    requires cnt > 0
  {
    HalfAway(RAIL_PERCENTILE * (cnt - 1) as real) + 1
  }

  /** Both ranks in integers: 19 * (n - 1) / 20, rounded in the two ways. */
  lemma RanksInIntegers(n: nat)
    requires n > 0
    ensures var q, r := 19 * (n - 1) / 20, 19 * (n - 1) % 20;
            && HalfAway(RAIL_PERCENTILE * (n - 1) as real) == (if r >= 10 then q + 1 else q)
            && HalfEven(RAIL_PERCENTILE * (n - 1) as real)
               == (if r > 10 || (r == 10 && q % 2 == 1) then q + 1 else q)
  {
    var m, q, r := 19 * (n - 1), 19 * (n - 1) / 20, 19 * (n - 1) % 20;
    var x := RAIL_PERCENTILE * (n - 1) as real;
    assert m == 20 * q + r;
    assert 20.0 * x == 19.0 * (n - 1) as real == m as real;
    assert m as real == 20.0 * q as real + r as real;
    assert x == q as real + r as real / 20.0;
    assert x.Floor == q;
    assert (x + 0.5).Floor == if r >= 10 then q + 1 else q;
  }

  /**
   The SQL rank and the Python index pick the same position, except in lists of n with (n - 1) % 40 == 30, where the
   two ways of rounding a tie put SQL exactly one position higher. Neither ever leaves the list.
   */
  lemma RanksAgree(n: nat)
    requires n > 0
    ensures SqlRank(n) - 1 == PythonIndex(n) + if (n - 1) % 40 == 30 then 1 else 0
    ensures 0 <= PythonIndex(n) <= SqlRank(n) - 1 < n
  {
    RanksInIntegers(n);
    hide HalfEven, HalfAway;
    NineteenTwentieths(n - 1);
  }

  /** Nineteen twentieths of m, in integers: a tie with an even quotient comes up exactly at 30 of each 40. */
  lemma NineteenTwentieths(m: nat)
    ensures var q, r := 19 * m / 20, 19 * m % 20;
            (r == 10 && q % 2 == 0 <==> m % 40 == 30) && q <= m && (r >= 10 ==> q + 1 <= m)
  {
    var j, k := m / 40, m % 40;
    assert m == 40 * j + k;
    TwentyFold(38 * j, 19 * k);
    Residues(k);
    EvenShift(19 * j, 19 * k / 20);
  }

  lemma TwentyFold(a: nat, b: nat)
    ensures (20 * a + b) / 20 == a + b / 20 && (20 * a + b) % 20 == b % 20
  {
  }

  lemma EvenShift(a: nat, b: nat)
    ensures (2 * a + b) % 2 == b % 2
  {
  }

  lemma Residues(k: nat)
    requires k < 40
    ensures 19 * k % 20 == 10 && 19 * k / 20 % 2 == 0 <==> k == 30
  {
    if 19 * k % 20 == 10 {
      assert k == 10 || k == 30;
    }
  }

  /** ROW_NUMBER() OVER (ORDER BY value): any numbering that follows the order; ties fall as they may. */
  ghost predicate IsRowNumbering(values: seq<real>, rn: seq<int>) {
    && |rn| == |values|
    && (forall i | 0 <= i < |rn| :: 1 <= rn[i] <= |rn|)
    && (forall i, j | 0 <= i < j < |rn| :: rn[i] != rn[j])
    && forall i, j | 0 <= i < |rn| && 0 <= j < |rn| && rn[i] < rn[j] :: values[i] <= values[j]
  }

  lemma {:induction false} BelowAsSet(s: seq<real>, v: real, orEqual: bool, hits: set<nat>)
    requires forall i: nat :: i in hits <==> i < |s| && (s[i] < v || (orEqual && s[i] == v))
    ensures Below(s, v, orEqual) == |hits|
  {
    if s == [] {
      assert hits == {};
    } else {
      var n := |s| - 1;
      assert s == s[..n] + [s[n]];
      BelowSplit(s[..n], [s[n]], v, orEqual);
      BelowAsSet(s[..n], v, orEqual, hits - {n});
    }
  }

  /** At most hi - lo + 1 rows have numbers between lo and hi. */
  lemma {:induction false} NumbersFit(rn: seq<int>, rows: set<nat>, lo: int, hi: int)
    requires forall i, j | 0 <= i < j < |rn| :: rn[i] != rn[j]
    requires forall i | i in rows :: 0 <= i < |rn| && lo <= rn[i] <= hi
    requires lo <= hi + 1
    ensures |rows| <= hi - lo + 1
    decreases hi - lo + 1
  {
    if rows != {} {
      var some :| some in rows;
      if i :| i in rows && rn[i] == hi {
        NumbersFit(rn, rows - {i}, lo, hi - 1);
      } else {
        NumbersFit(rn, rows, lo, hi - 1);
      }
    }
  }

  /** However ties are numbered, the row with number k holds the k-th smallest value. */
  lemma RowNumberPicks(values: seq<real>, rn: seq<int>, i: nat)
    requires IsRowNumbering(values, rn) && i < |values|
    ensures |Sorted(values)| == |values| && Sorted(values)[rn[i] - 1] == values[i]
  {
    var v, n := values[i], |values|;
    RowCounts(values, rn, i);
    SortedAscending(values);
    BelowSorted(values, v, false);
    BelowSorted(values, v, true);
    PositionOf(Sorted(values), rn[i] - 1, v);
  }

  lemma RowCounts(values: seq<real>, rn: seq<int>, i: nat)
    requires IsRowNumbering(values, rn) && i < |values|
    ensures Below(values, values[i], false) <= rn[i] - 1 < Below(values, values[i], true)
  {
    hide Below;
    RowsBelow(values, rn, i);
    RowsAtMost(values, rn, i);
  }

  lemma RowsBelow(values: seq<real>, rn: seq<int>, i: nat)
    requires IsRowNumbering(values, rn) && i < |values|
    ensures Below(values, values[i], false) <= rn[i] - 1
  {
    hide Below;
    var v := values[i];
    var below := set j: nat | j < |values| && values[j] < v;
    BelowAsSet(values, v, false, below);
    forall j | j in below ensures 1 <= rn[j] <= rn[i] - 1 {
      assert !(rn[i] < rn[j]);
      assert rn[j] != rn[i];
    }
    NumbersFit(rn, below, 1, rn[i] - 1);
  }

  lemma RowsAtMost(values: seq<real>, rn: seq<int>, i: nat)
    requires IsRowNumbering(values, rn) && i < |values|
    ensures rn[i] - 1 < Below(values, values[i], true)
  {
    hide Below;
    var v, n := values[i], |values|;
    var atMost := set j: nat | j < n && values[j] <= v;
    var above := set j: nat | j < n && values[j] > v;
    BelowAsSet(values, v, true, atMost);
    forall j | j in above ensures rn[i] + 1 <= rn[j] <= n {
      assert !(rn[j] < rn[i]);
      assert rn[j] != rn[i];
    }
    NumbersFit(rn, above, rn[i] + 1, n);
    AtMostOrAbove(values, v, atMost, above);
  }

  lemma AtMostOrAbove(values: seq<real>, v: real, atMost: set<nat>, above: set<nat>)
    requires atMost == set j: nat | j < |values| && values[j] <= v
    requires above == set j: nat | j < |values| && values[j] > v
    ensures |atMost| + |above| == |values|
  {
    var all := Indices(|values|);
    hide Indices;
    assert all == atMost + above && atMost !! above;
  }

  ghost function Indices(n: nat): (all: set<nat>)
    ensures |all| == n && forall j: nat :: j in all <==> j < n
  {
    if n == 0 then {}
    else
      var fewer := Indices(n - 1);
      assert n - 1 !in fewer;
      fewer + {n - 1}
  }

  /** The percentile does not depend on the order of its list. */
  lemma PercentileIgnoresOrder(a: seq<real>, b: seq<real>)
    requires multiset(a) == multiset(b)
    ensures Percentile95(a) == Percentile95(b)
  {
    BelowPermuted(a, b, 0.0, false);
    if a != [] {
      assert b != [];
      SortedAscending(a);
      SortedAscending(b);
      var k := PythonIndex(|a|);
      var v := Sorted(a)[k];
      PositionOf(Sorted(a), k, v);
      BelowSorted(a, v, false);
      BelowSorted(a, v, true);
      BelowPermuted(a, b, v, false);
      BelowPermuted(a, b, v, true);
      BelowSorted(b, v, false);
      BelowSorted(b, v, true);
      PositionOf(Sorted(b), k, v);
    }
  }

  /** The row the SQL selects: the percentile, or for (n - 1) % 40 == 30 the next value up in sorted order. */
  lemma SqlAgainstPython(values: seq<real>, rn: seq<int>, i: nat)
    requires IsRowNumbering(values, rn) && i < |values| && rn[i] == SqlRank(|values|)
    ensures |Sorted(values)| == |values|
    ensures var k := PythonIndex(|values|);
            if (|values| - 1) % 40 == 30 then
              values[i] == Sorted(values)[k + 1] >= Percentile95(values).value
            else
              Percentile95(values) == Some(values[i])
  {
    hide IsRowNumbering, SqlRank, PythonIndex, Sorted;
    RowNumberPicks(values, rn, i);
    RanksAgree(|values|);
    SortedAscending(values);
  }

  // ----- one border

  /** The hours priced on both sides. */
  function Common(a: Series, b: Series): set<int> {
    a.Keys * b.Keys
  }

  function CoupledHours(a: Series, b: Series): set<int> {
    set t | t in Common(a, b) && Abs(a[t] - b[t]) <= COUPLED_EPS_EUR
  }

  function SplitHours(a: Series, b: Series): set<int> {
    set t | t in Common(a, b) && Abs(a[t] - b[t]) > COUPLED_EPS_EUR
  }

  predicate CounterPrice(a: Series, b: Series, flow: Series, t: int)
    requires t in a && t in b
  {
    && Abs(a[t] - b[t]) > COUPLED_EPS_EUR
    && t in flow && flow[t] != 0.0
    && (flow[t] > 0.0 <==> a[t] - b[t] > 0.0)
  }

  function CounterHours(a: Series, b: Series, flow: Series): set<int> {
    set t | t in Common(a, b) && CounterPrice(a, b, flow, t)
  }

  /** No threshold, or a threshold of zero, means no hour is at the rail. */
  function RailHours(a: Series, b: Series, flow: Series, rail: Option<real>): set<int> {
    set t | t in Common(a, b) && t in flow && rail.Some? && rail.value != 0.0 && Abs(flow[t]) >= rail.value
  }

  datatype Metrics = Metrics(hours: nat, convergencePct: Option<real>, splitHours: nat, counterHours: nat,
                             counterPct: Option<real>, atRailHours: nat)

  function Share(part: nat, whole: nat): Option<real> {
    if whole == 0 then None else Some(Round1(100.0 * part as real / whole as real))
  }

  lemma CountersAreSplit(a: Series, b: Series, flow: Series)
    ensures CounterHours(a, b, flow) <= SplitHours(a, b)
    ensures CoupledHours(a, b) !! SplitHours(a, b) && CoupledHours(a, b) + SplitHours(a, b) == Common(a, b)
  {
  }

  lemma CountersAddUp(a: Series, b: Series, flow: Series)
    ensures |CounterHours(a, b, flow)| <= |SplitHours(a, b)| == |Common(a, b)| - |CoupledHours(a, b)|
  {
    CountersAreSplit(a, b, flow);
    hide *;
    FiniteSums.SubsetSize(CounterHours(a, b, flow), SplitHours(a, b));
  }

  /** `flow` is positive when A exports to B. */
  method BorderMetrics(a: Series, b: Series, flow: Series, rail: Option<real>) returns (m: Metrics)
    ensures m.hours == |Common(a, b)|
    ensures m.convergencePct == Share(|CoupledHours(a, b)|, |Common(a, b)|)
    ensures m.splitHours == |SplitHours(a, b)|
    ensures m.counterHours == |CounterHours(a, b, flow)|
    ensures m.counterPct == Share(|CounterHours(a, b, flow)|, |SplitHours(a, b)|)
    ensures m.atRailHours == |RailHours(a, b, flow, rail)|
    ensures m.counterHours <= m.splitHours == m.hours - |CoupledHours(a, b)|
  {
    CountersAddUp(a, b, flow);
    var split := SplitHours(a, b);
    var todo, counter := split, 0;
    while todo != {}
      invariant todo <= split && counter == |CounterHours(a, b, flow) - todo|
      decreases todo
    {
      var t :| t in todo;
      ghost var before := CounterHours(a, b, flow) - todo;
      todo := todo - {t};
      if t in flow && flow[t] != 0.0 {
        var aExports, aExpensive := flow[t] > 0.0, a[t] - b[t] > 0.0;
        if aExports == aExpensive {
          counter := counter + 1;
        }
      }
      assert CounterHours(a, b, flow) - todo == if t in CounterHours(a, b, flow) then before + {t} else before;
    }
    var n := |Common(a, b)|;
    m := Metrics(n, Share(|CoupledHours(a, b)|, n), |split|, counter, Share(counter, |split|), |RailHours(a, b, flow, rail)|);
  }

  /**
   Which hours are counted. Zones are coupled up to one euro apart. A split hour is counter-price when the power flows
   from the dearer zone to the cheaper one, so that its seller loses by it.
   */
  lemma HoursMean(a: Series, b: Series, flow: Series, rail: Option<real>, t: int)
    ensures t in CoupledHours(a, b) <==> t in a && t in b && -1.0 <= a[t] - b[t] <= 1.0
    ensures t in SplitHours(a, b) <==> t in a && t in b && (a[t] > b[t] + 1.0 || b[t] > a[t] + 1.0)
    ensures t in CounterHours(a, b, flow)
       <==> t in SplitHours(a, b) && t in flow && flow[t] * (b[t] - a[t]) < 0.0
    ensures t in RailHours(a, b, flow, rail)
       <==> t in a && t in b && t in flow && rail.Some? && rail.value != 0.0 && (flow[t] >= rail.value || -flow[t] >= rail.value)
  {
    if t in a && t in b && t in flow {
      SignsDiffer(flow[t], a[t] - b[t]);
    }
  }

  /** A share is a percentage, to one decimal. */
  lemma ShareIsPercentage(part: nat, whole: nat)
    ensures Share(part, whole).Some? <==> whole > 0
    ensures whole > 0 ==> RoundedShare(Share(part, whole).value, part as real, whole as real)
  {
    hide Round1, RoundedShare;
    if whole > 0 {
      ShareScalars(100.0 * part as real / whole as real, Share(part, whole).value, part as real, whole as real);
    }
  }

  predicate RoundedShare(share: real, part: real, whole: real) {
    100.0 * part - 0.05 * whole <= share * whole <= 100.0 * part + 0.05 * whole
  }

  lemma ShareScalars(x: real, share: real, part: real, whole: real)
    requires whole > 0.0 && x == 100.0 * part / whole && x - 0.05 <= share <= x + 0.05
    ensures RoundedShare(share, part, whole)
  {
    assert x * whole == 100.0 * part;
    FiniteSums.ScaledBetween(share, x, 0.05, whole);
  }

  lemma SignsDiffer(x: real, y: real)
    ensures x * (-y) < 0.0 <==> (x > 0.0 && y > 0.0) || (x < 0.0 && y < 0.0)
  {
    if x == 0.0 || y == 0.0 {
    } else if (x > 0.0) == (y > 0.0) {
      FiniteSums.ProductPositive(Abs(x), Abs(y));
    } else {
      FiniteSums.ProductPositive(Abs(x), Abs(y));
    }
  }

  function Negated(flow: Series): Series {
    map t | t in flow :: -flow[t]
  }

  /**
   Which zone is called A makes no difference: swap the prices, turn the flow round, and every hour counts
   as before.
   */
  lemma SidesAreSymmetric(a: Series, b: Series, flow: Series, rail: Option<real>)
    ensures Common(b, a) == Common(a, b) && CoupledHours(b, a) == CoupledHours(a, b)
    ensures CounterHours(b, a, Negated(flow)) == CounterHours(a, b, flow)
    ensures RailHours(b, a, Negated(flow), rail) == RailHours(a, b, flow, rail)
  {
    assert Common(b, a) == Common(a, b);
    forall t | t in Common(a, b)
      ensures t in CoupledHours(a, b) <==> t in CoupledHours(b, a)
      ensures t in CounterHours(a, b, flow) <==> t in CounterHours(b, a, Negated(flow))
      ensures t in RailHours(a, b, flow, rail) <==> t in RailHours(b, a, Negated(flow), rail)
    {
      assert b[t] - a[t] == -(a[t] - b[t]);
    }
  }
}
