/**
 The ENTSOG point registry and the flow table: one operator is kept active per physical point and direction, and
 short gaps in the flows are filled by carrying a value forward.
 */
module Entsog {
  import opened Options
  import opened Ascending

  const MAX_GAP := 2

  // ----- Python's order of strings

  predicate Before(a: string, b: string) {
    if b == [] then false
    else if a == [] then true
    else a[0] < b[0] || (a[0] == b[0] && Before(a[1..], b[1..]))
  }

  lemma {:induction false} BeforeIsTotal(a: string, b: string)
    ensures Before(a, b) || Before(b, a) || a == b
    ensures Before(a, b) ==> !Before(b, a)
    ensures !Before(a, a)
    decreases |a|
  {
    if a != [] && b != [] {
      BeforeIsTotal(a[1..], b[1..]);
      assert a == [a[0]] + a[1..] && b == [b[0]] + b[1..];
    }
    if a != [] {
      BeforeIsTotal(a[1..], a[1..]);
    }
  }

  lemma {:induction false} BeforeIsTransitive(a: string, b: string, c: string)
    requires Before(a, b) && Before(b, c)
    ensures Before(a, c)
    decreases |a|
  {
    if a != [] && a[0] == b[0] && b[0] == c[0] {
      BeforeIsTransitive(a[1..], b[1..], c[1..]);
    }
  }

  // ----- the registry

  datatype PointId = PointId(operatorKey: string, pointKey: string, directionKey: string)

  datatype Phys = Phys(pointKey: string, directionKey: string)

  datatype PointClass = PointClass(pointClass: string, counterparty: string)

  /** A registry row, with what `classify_point` says of it. */
  datatype RegistryRow = RegistryRow(id: PointId, hasData: bool, pointLabel: string, operatorLabel: string,
                                     classified: Option<PointClass>)

  datatype GasPoint = GasPoint(name: string, operator: string, pointClass: Option<PointClass>, active: bool)

  type Unique = map<PointId, RegistryRow>

  function PhysOf(id: PointId): Phys {
    Phys(id.pointKey, id.directionKey)
  }

  /** The last row of each point. */
  function UniqueOf(rows: seq<RegistryRow>, n: nat): Unique
    requires n <= |rows|
  {
    if n == 0 then map[] else UniqueOf(rows, n - 1)[rows[n - 1].id := rows[n - 1]]
  }

  /** The sort key (not hasData, operatorKey). */
  predicate Preferred(unique: Unique, p: PointId, q: PointId)
    requires p in unique && q in unique
  {
    (unique[p].hasData && !unique[q].hasData) ||
    (unique[p].hasData == unique[q].hasData && Before(p.operatorKey, q.operatorKey))
  }

  predicate IsClassified(unique: Unique, p: PointId) {
    p in unique && unique[p].classified.Some?
  }

  /** Classified, and first in the sort of its physical point. */
  ghost predicate IsKeeper(unique: Unique, p: PointId) {
    IsClassified(unique, p) &&
    forall q | IsClassified(unique, q) && PhysOf(q) == PhysOf(p) && q != p :: Preferred(unique, p, q)
  }

  function PointFrom(existing: Option<GasPoint>, row: RegistryRow, active: bool): GasPoint {
    var name := if row.pointLabel == "" && existing.Some? then existing.value.name else row.pointLabel;
    var operator := if row.operatorLabel == "" && existing.Some? then existing.value.operator else row.operatorLabel;
    GasPoint(name, operator, row.classified, active)
  }

  function Find<K, V>(m: map<K, V>, k: K): Option<V> {
    if k in m then Some(m[k]) else None
  }

  /** What one sync makes of the point table. */
  ghost predicate Synced(before: map<PointId, GasPoint>, after: map<PointId, GasPoint>, unique: Unique) {
    forall p ::
      && (p in after <==> p in before || p in unique)
      && (p in after ==> after[p] == if p in unique then PointFrom(Find(before, p), unique[p], IsKeeper(unique, p)) else before[p])
  }

  method Collapse(rows: seq<RegistryRow>) returns (unique: Unique)
    ensures unique == UniqueOf(rows, |rows|)
  {
    unique := map[];
    for i := 0 to |rows|
      invariant unique == UniqueOf(rows, i)
    {
      unique := unique[rows[i].id := rows[i]];
    }
  }

  /** The classified points of one physical point. */
  function Members(unique: Unique, phys: Phys): set<PointId> {
    set p | p in unique && IsClassified(unique, p) && PhysOf(p) == phys
  }

  lemma PreferredIsTotal(unique: Unique, p: PointId, q: PointId)
    requires p in unique && q in unique && PhysOf(p) == PhysOf(q) && p != q
    ensures Preferred(unique, p, q) <==> !Preferred(unique, q, p)
  {
    hide Before;
    BeforeIsTotal(p.operatorKey, q.operatorKey);
    BeforeIsTotal(q.operatorKey, p.operatorKey);
  }

  lemma PreferredIsTransitive(unique: Unique, p: PointId, q: PointId, r: PointId)
    requires p in unique && q in unique && r in unique && Preferred(unique, p, q) && Preferred(unique, q, r)
    ensures Preferred(unique, p, r)
  {
    hide Before;
    if Before(p.operatorKey, q.operatorKey) && Before(q.operatorKey, r.operatorKey) {
      BeforeIsTransitive(p.operatorKey, q.operatorKey, r.operatorKey);
    }
  }

  /** `members.sort(...)`, then the first of them. */
  method FirstMember(unique: Unique, members: set<PointId>) returns (first: PointId)
    requires members != {} && members <= unique.Keys && forall p, q | p in members && q in members :: PhysOf(p) == PhysOf(q)
    ensures first in members && forall q | q in members && q != first :: Preferred(unique, first, q)
  {
    hide Preferred;
    first :| first in members;
    var todo := members - {first};
    while todo != {}
      invariant first in members && first !in todo && todo <= members
      invariant forall q | q in members - todo && q != first :: Preferred(unique, first, q)
      decreases todo
    {
      var p :| p in todo;
      PreferredIsTotal(unique, first, p);
      if Preferred(unique, p, first) {
        forall q | q in members - todo && q != first ensures Preferred(unique, p, q) {
          PreferredIsTransitive(unique, p, first, q);
        }
        first := p;
      }
      todo := todo - {p};
    }
  }

  lemma {:induction false} KeeperIsFirst(unique: Unique, phys: Phys, first: PointId)
    requires first in Members(unique, phys)
    requires forall q | q in Members(unique, phys) && q != first :: Preferred(unique, first, q)
    ensures forall p | PhysOf(p) == phys :: IsKeeper(unique, p) <==> p == first
  {
    hide Preferred;
    forall p | PhysOf(p) == phys && IsKeeper(unique, p) ensures p == first {
      if p != first {
        PreferredIsTotal(unique, p, first);
      }
    }
    forall q | IsClassified(unique, q) && PhysOf(q) == PhysOf(first) && q != first ensures Preferred(unique, first, q) {
      assert q in Members(unique, phys);
    }
  }

  method Keepers(unique: Unique) returns (keepers: set<PointId>)
    ensures forall p :: p in keepers <==> IsKeeper(unique, p)
  {
    hide IsKeeper, Preferred;
    var groups := set p | p in unique && IsClassified(unique, p) :: PhysOf(p);
    var todo := groups;
    keepers := {};
    while todo != {}
      invariant todo <= groups
      invariant forall p :: p in keepers <==> IsKeeper(unique, p) && PhysOf(p) in groups - todo
      decreases todo
    {
      var phys :| phys in todo;
      var first := FirstMember(unique, Members(unique, phys));
      KeeperIsFirst(unique, phys, first);
      keepers := keepers + {first};
      todo := todo - {phys};
    }
    forall p | IsKeeper(unique, p) ensures PhysOf(p) in groups {
      KeepersAreClassified(unique, p);
    }
  }

  lemma KeepersAreClassified(unique: Unique, p: PointId)
    requires IsKeeper(unique, p)
    ensures IsClassified(unique, p)
  {
  }

  class PointTable {
    var points: map<PointId, GasPoint>

    constructor ()
      ensures points == map[]
    {
      points := map[];
    }

    /** `sync_points` on the rows of the registry. */
    method SyncPoints(rows: seq<RegistryRow>) returns (total: nat)
      modifies this
      ensures Synced(old(points), points, UniqueOf(rows, |rows|)) && total == |rows|
    {
      hide IsKeeper, UniqueOf, PointFrom;
      var unique := Collapse(rows);
      var keepers := Keepers(unique);
      var todo := unique.Keys;
      while todo != {}
        invariant todo <= unique.Keys
        invariant forall p ::
          && (p in points <==> p in old(points) || p in unique.Keys - todo)
          && (p in points ==>
                points[p] == if p in unique.Keys - todo then PointFrom(Find(old(points), p), unique[p], IsKeeper(unique, p))
                             else old(points)[p])
        decreases todo
      {
        var p :| p in todo;
        var row := unique[p];
        var active := row.classified.Some? && p in keepers;
        KeeperClassified(unique, p);
        points := points[p := PointFrom(Find(points, p), row, active)];
        todo := todo - {p};
      }
      return |rows|;
    }
  }

  lemma KeeperClassified(unique: Unique, p: PointId)
    requires p in unique
    ensures IsKeeper(unique, p) ==> unique[p].classified.Some?
  {
    hide Preferred;
  }

  lemma {:induction false} LeastMember(unique: Unique, members: set<PointId>) returns (first: PointId)
    requires members != {} && members <= unique.Keys && forall p, q | p in members && q in members :: PhysOf(p) == PhysOf(q)
    ensures first in members && forall q | q in members && q != first :: Preferred(unique, first, q)
    decreases |members|
  {
    hide Preferred;
    first :| first in members;
    var rest := members - {first};
    if rest != {} {
      var least := LeastMember(unique, rest);
      assert forall q | q in members :: q == first || q in rest;
      PreferredIsTotal(unique, first, least);
      if Preferred(unique, least, first) {
        first := least;
      } else {
        forall q | q in rest && q != least ensures Preferred(unique, first, q) {
          PreferredIsTransitive(unique, first, least, q);
        }
      }
    }
  }

  /** Among the points the registry lists, exactly one classified operator is active at each physical point. */
  lemma OneActivePerPoint(before: map<PointId, GasPoint>, after: map<PointId, GasPoint>, unique: Unique, p: PointId)
    returns (keeper: PointId)
    requires Synced(before, after, unique) && IsClassified(unique, p)
    ensures keeper in unique && PhysOf(keeper) == PhysOf(p) && unique[keeper].classified.Some?
    ensures forall q | q in unique && PhysOf(q) == PhysOf(p) :: after[q].active <==> q == keeper
    ensures forall q | q in unique && !IsClassified(unique, q) :: !after[q].active
  {
    hide Preferred, Find;
    assert p in Members(unique, PhysOf(p));
    keeper := LeastMember(unique, Members(unique, PhysOf(p)));
    KeeperIsFirst(unique, PhysOf(p), keeper);
  }

  /** Python's order of strings: they agree up to a place, where one ends or has the smaller character. */
  lemma {:induction false} BeforeMeans(a: string, b: string)
    ensures Before(a, b) <==>
            exists k :: 0 <= k <= |a| && k < |b| && a[..k] == b[..k] && (k == |a| || a[k] < b[k])
    decreases |a|
  {
    if b != [] && a != [] && a[0] == b[0] {
      BeforeMeans(a[1..], b[1..]);
      if k :| 0 <= k <= |a| && k < |b| && a[..k] == b[..k] && (k == |a| || a[k] < b[k]) {
        assert k > 0;
        assert a[1..][..k - 1] == a[..k][1..] && b[1..][..k - 1] == b[..k][1..];
        assert k < |a| ==> a[1..][k - 1] == a[k] && b[1..][k - 1] == b[k];
      }
      if k :| 0 <= k <= |a[1..]| && k < |b[1..]| && a[1..][..k] == b[1..][..k] && (k == |a[1..]| || a[1..][k] < b[1..][k]) {
        assert a[..k + 1] == [a[0]] + a[1..][..k] && b[..k + 1] == [b[0]] + b[1..][..k];
      }
    } else if b != [] {
      assert a[..0] == b[..0] == [];
      forall k: nat | 0 < k <= |a| && k < |b|
        ensures a[..k] != b[..k]
      {
        HeadsDiffer(a, b, k);
      }
    }
  }

  lemma HeadsDiffer(a: string, b: string, k: nat)
    requires 0 < k <= |a| && k <= |b| && a[0] != b[0]
    ensures a[..k] != b[..k]
  {
    assert a[..k][0] == a[0] && b[..k][0] == b[0];
  }

  /** Two rows of the registry, both classified, for one physical point and direction. */
  ghost predicate Rivals(unique: Unique, p: PointId, q: PointId) {
    && p in unique && q in unique && unique[p].classified.Some? && unique[q].classified.Some?
    && p.pointKey == q.pointKey && p.directionKey == q.directionKey && p != q
  }

  /**
   Which listed points a sync leaves active: a classified one that has data if any rival has, and whose operator key
   comes before those of the rivals that are like it in that.
   */
  lemma ActiveExactly(before: map<PointId, GasPoint>, after: map<PointId, GasPoint>, unique: Unique, p: PointId)
    requires Synced(before, after, unique) && p in unique
    ensures p in after
    ensures after[p].active <==>
            unique[p].classified.Some? &&
            forall q | Rivals(unique, p, q) ::
              (unique[q].hasData ==> unique[p].hasData) &&
              (unique[q].hasData == unique[p].hasData ==> Before(p.operatorKey, q.operatorKey))
  {
    hide Before;
    forall q | Rivals(unique, p, q)
      ensures Before(p.operatorKey, q.operatorKey) <==> !Before(q.operatorKey, p.operatorKey)
    {
      BeforeIsTotal(p.operatorKey, q.operatorKey);
      BeforeIsTotal(q.operatorKey, p.operatorKey);
    }
  }

  /** What a sync writes to a listed point besides: its class, and the labels unless they are empty. */
  lemma SyncedFields(before: map<PointId, GasPoint>, after: map<PointId, GasPoint>, unique: Unique, p: PointId)
    requires Synced(before, after, unique) && p in unique
    ensures p in after && after[p].pointClass == unique[p].classified
    ensures unique[p].pointLabel != "" || p !in before ==> after[p].name == unique[p].pointLabel
    ensures unique[p].pointLabel == "" && p in before ==> after[p].name == before[p].name
    ensures unique[p].operatorLabel != "" || p !in before ==> after[p].operator == unique[p].operatorLabel
    ensures unique[p].operatorLabel == "" && p in before ==> after[p].operator == before[p].operator
  {
    hide IsKeeper;
  }

  /** Active at a physical point, in the whole table. */
  ghost predicate ActiveAt(points: map<PointId, GasPoint>, phys: Phys, p: PointId) {
    p in points && PhysOf(p) == phys && points[p].active
  }

  /**
   In the whole table a listed physical point has one active operator exactly when no active point that the registry
   has dropped sits there: a sync never switches such a point off.
   */
  lemma OneActiveUnlessDropped(before: map<PointId, GasPoint>, after: map<PointId, GasPoint>, unique: Unique,
                               p: PointId)
    requires Synced(before, after, unique) && IsClassified(unique, p)
    ensures (exists k :: ActiveAt(after, PhysOf(p), k) && forall q | ActiveAt(after, PhysOf(p), q) :: q == k)
       <==> !exists q :: q !in unique && ActiveAt(before, PhysOf(p), q)
  {
    var keeper := OneActivePerPoint(before, after, unique, p);
    hide Preferred, Find, IsKeeper, IsClassified;
    var phys := PhysOf(p);
    assert ActiveAt(after, phys, keeper);
    forall q ensures q !in unique ==> (ActiveAt(after, phys, q) <==> ActiveAt(before, phys, q)) {
    }
  }

  /** No point is listed twice. */
  ghost predicate DistinctPoints(rows: seq<RegistryRow>) {
    forall i, j | 0 <= i < j < |rows| :: rows[i].id != rows[j].id
  }

  lemma {:induction false} UniqueIsLast(rows: seq<RegistryRow>, n: nat, p: PointId)
    requires n <= |rows|
    ensures p in UniqueOf(rows, n) <==> exists i :: 0 <= i < n && rows[i].id == p
    ensures p in UniqueOf(rows, n) ==>
              exists i :: 0 <= i < n && rows[i].id == p && UniqueOf(rows, n)[p] == rows[i] && forall j | i < j < n :: rows[j].id != p
  {
    if n > 0 {
      UniqueIsLast(rows, n - 1, p);
      if rows[n - 1].id == p {
        assert UniqueOf(rows, n)[p] == rows[n - 1];
      } else if p in UniqueOf(rows, n) {
        var i :| 0 <= i < n - 1 && rows[i].id == p && UniqueOf(rows, n - 1)[p] == rows[i] && forall j | i < j < n - 1 :: rows[j].id != p;
        assert rows[i].id == p && UniqueOf(rows, n)[p] == rows[i] && forall j | i < j < n :: rows[j].id != p;
      }
    }
  }

  /** The order in which the registry lists distinct points does not matter to a sync. */
  lemma RegistryOrderDoesNotMatter(rows: seq<RegistryRow>, again: seq<RegistryRow>)
    requires multiset(rows) == multiset(again) && DistinctPoints(rows) && DistinctPoints(again)
    ensures UniqueOf(again, |again|) == UniqueOf(rows, |rows|)
  {
    hide UniqueOf;
    var x, y := UniqueOf(rows, |rows|), UniqueOf(again, |again|);
    SameRows(rows, again);
    forall p ensures (p in x <==> p in y) && (p in x ==> x[p] == y[p]) {
      UniqueIsLast(rows, |rows|, p);
      UniqueIsLast(again, |again|, p);
      UniqueHolds(rows, p);
      UniqueHolds(again, p);
    }
  }

  lemma SameRows(rows: seq<RegistryRow>, again: seq<RegistryRow>)
    requires multiset(rows) == multiset(again)
    ensures forall r :: r in rows <==> r in again
  {
    forall r ensures r in rows <==> r in again {
      assert r in multiset(rows) <==> r in multiset(again);
    }
  }

  /** With distinct points, the map holds exactly the rows. */
  lemma UniqueHolds(rows: seq<RegistryRow>, p: PointId)
    requires DistinctPoints(rows)
    ensures forall r | r in rows && r.id == p :: p in UniqueOf(rows, |rows|) && UniqueOf(rows, |rows|)[p] == r
    ensures p in UniqueOf(rows, |rows|) ==> UniqueOf(rows, |rows|)[p] in rows && UniqueOf(rows, |rows|)[p].id == p
  {
    hide UniqueOf;
    UniqueIsLast(rows, |rows|, p);
    forall r | r in rows && r.id == p ensures p in UniqueOf(rows, |rows|) && UniqueOf(rows, |rows|)[p] == r {
      var i :| 0 <= i < |rows| && rows[i] == r;
      assert rows[i].id == p;
    }
  }

  // ----- flows and their gaps

  datatype FlowKey = FlowKey(day: int, point: PointId, direction: string)

  datatype Flow = Flow(value: real, provisional: bool, interpolated: bool)

  type Flows = map<FlowKey, Flow>

  datatype Line = Line(point: PointId, direction: string)

  function KeyAt(day: int, line: Line): FlowKey {
    FlowKey(day, line.point, line.direction)
  }

  function LineOf(k: FlowKey): Line {
    Line(k.point, k.direction)
  }

  /** A reported value, not a filled one. */
  predicate IsReal(flows: Flows, k: FlowKey) {
    k in flows && !flows[k].interpolated
  }

  datatype Last = Last(day: int, value: real)

  /** `last_day` and `last_val` after the first n days. */
  function Carry(flows: Flows, days: seq<int>, line: Line, n: nat): Option<Last>
    requires n <= |days|
  {
    if n == 0 then None
    else
      var k := KeyAt(days[n - 1], line);
      if IsReal(flows, k) then Some(Last(days[n - 1], flows[k].value)) else Carry(flows, days, line, n - 1)
  }

  /** Whether day number n of a line is filled. */
  predicate Fills(flows: Flows, days: seq<int>, active: set<PointId>, line: Line, n: nat)
    requires n < |days|
  {
    line.point in active && KeyAt(days[n], line) !in flows &&
    var last := Carry(flows, days, line, n);
    last.Some? && 1 <= days[n] - last.value.day <= MAX_GAP
  }

  /** What one key holds after the pass, the first n days of it, over the lines in `lines`. */
  ghost predicate KeyFilled(before: Flows, after: Flows, days: seq<int>, active: set<PointId>, k: FlowKey, i: nat,
                            reached: bool)
    requires i < |days|
  {
    if reached && Fills(before, days, active, LineOf(k), i)
    then k in after && after[k] == Flow(Carry(before, days, LineOf(k), i).value.value, true, true)
    else Same(before, after, k)
  }

  ghost predicate Same(before: Flows, after: Flows, k: FlowKey) {
    (k in after <==> k in before) && (k in before ==> after[k] == before[k])
  }

  /** The pass, up to day n, over some lines. */
  ghost predicate FilledUpTo(before: Flows, after: Flows, days: seq<int>, active: set<PointId>, line: Line, n: nat)
    requires n <= |days|
  {
    forall i | 0 <= i < |days| :: KeyFilled(before, after, days, active, KeyAt(days[i], line), i, i < n)
  }

  ghost predicate OutOfRange(before: Flows, after: Flows, days: seq<int>) {
    forall k: FlowKey | k.day !in days :: Same(before, after, k)
  }

  /** The whole pass, line by line. */
  ghost predicate Filled(before: Flows, after: Flows, days: seq<int>, active: set<PointId>) {
    OutOfRange(before, after, days) && forall line :: FilledUpTo(before, after, days, active, line, |days|)
  }

  /** The query's result: reported values by key. */
  function Existing(flows: Flows, days: seq<int>): map<FlowKey, real> {
    map k | k in flows && !flows[k].interpolated && k.day in days :: flows[k].value
  }

  lemma ExistingIsReal(flows: Flows, days: seq<int>, line: Line, n: nat)
    requires n < |days|
    ensures var k := KeyAt(days[n], line);
            (k in Existing(flows, days) <==> IsReal(flows, k)) &&
            (k in Existing(flows, days) ==> Existing(flows, days)[k] == flows[k].value)
  {
    assert days[n] in days;
  }

  class FlowTable {
    var flows: Flows

    constructor ()
      ensures flows == map[]
    {
      flows := map[];
    }

    /** `_forward_fill` over chronological days; returns how many rows it added. */
    method ForwardFill(days: seq<int>, active: set<PointId>) returns (filled: nat)
      requires Increasing(days)
      modifies this
      ensures Filled(old(flows), flows, days, active)
      ensures |flows| == |old(flows)| + filled
    {
      hide *;
      ghost var was := flows;
      var existing := Existing(flows, days);
      var lines := set k | k in existing :: LineOf(k);
      var todo := lines;
      filled := 0;
      NothingFilled(flows, days, active);
      while todo != {}
        invariant todo <= lines && |flows| == |was| + filled
        invariant OutOfRange(was, flows, days)
        invariant forall line :: LineState(was, flows, days, active, line, lines - todo)
        decreases todo
      {
        var line :| line in todo;
        ghost var mid := flows;
        LineUntouched(was, flows, days, active, line, lines - todo);
        if line.point in active {
          var n := FillLine(days, active, line, existing, was);
          filled := filled + n;
        } else {
          InactiveLine(was, flows, days, active, line);
          ElsewhereSame(flows, days, line);
        }
        LineDone(was, mid, flows, days, active, line, lines - todo);
        assert lines - (todo - {line}) == (lines - todo) + {line};
        todo := todo - {line};
      }
      assert lines - todo == lines;
      AllLines(was, flows, days, active, lines);
    }

    /** One line: `last` is carried over the days. */
    method FillLine(days: seq<int>, active: set<PointId>, line: Line, existing: map<FlowKey, real>, ghost was: Flows)
      returns (filled: nat)
      requires Increasing(days) && line.point in active && existing == Existing(was, days)
      requires FilledUpTo(was, flows, days, active, line, 0)
      modifies this
      ensures FilledUpTo(was, flows, days, active, line, |days|)
      ensures Elsewhere(old(flows), flows, days, line)
      ensures |flows| == |old(flows)| + filled
    {
      hide *;
      filled := 0;
      var last: Option<Last> := None;
      CarryNone(was, days, line);
      ElsewhereSame(flows, days, line);
      for n := 0 to |days|
        invariant last == Carry(was, days, line, n)
        invariant FilledUpTo(was, flows, days, active, line, n)
        invariant Elsewhere(old(flows), flows, days, line)
        invariant |flows| == |old(flows)| + filled
      {
        var k := KeyAt(days[n], line);
        ExistingIsReal(was, days, line, n);
        DayStep(was, flows, days, active, line, n);
        if k in existing {
          last := Some(Last(days[n], existing[k]));
        } else if last.Some? {
          var gap := days[n] - last.value.day;
          if 1 <= gap <= MAX_GAP && k !in flows {
            ElsewhereAdd(old(flows), flows, days, line, n, Flow(last.value.value, true, true));
            flows := flows[k := Flow(last.value.value, true, true)];
            filled := filled + 1;
          }
        }
      }
    }
  }

  /** Only keys of this line, on days in range, may differ. */
  ghost predicate Elsewhere(before: Flows, after: Flows, days: seq<int>, line: Line) {
    forall k: FlowKey | LineOf(k) != line || k.day !in days :: Same(before, after, k)
  }

  lemma ElsewhereSame(flows: Flows, days: seq<int>, line: Line)
    ensures Elsewhere(flows, flows, days, line)
  {
  }

  lemma ElsewhereAdd(before: Flows, flows: Flows, days: seq<int>, line: Line, n: nat, flow: Flow)
    requires n < |days| && Elsewhere(before, flows, days, line)
    ensures Elsewhere(before, flows[KeyAt(days[n], line) := flow], days, line)
  {
  }

  lemma CarryNone(flows: Flows, days: seq<int>, line: Line)
    ensures Carry(flows, days, line, 0) == None
  {
  }

  lemma NothingFilled(flows: Flows, days: seq<int>, active: set<PointId>)
    ensures OutOfRange(flows, flows, days)
    ensures forall line, none: set<Line> :: none == {} ==> LineState(flows, flows, days, active, line, none)
  {
    hide Fills;
  }

  /** Lines that are finished, and lines not begun. */
  ghost predicate LineState(was: Flows, flows: Flows, days: seq<int>, active: set<PointId>, line: Line,
                            finished: set<Line>) {
    FilledUpTo(was, flows, days, active, line, if line in finished then |days| else 0)
  }

  lemma LineUntouched(was: Flows, flows: Flows, days: seq<int>, active: set<PointId>, line: Line, finished: set<Line>)
    requires LineState(was, flows, days, active, line, finished) && line !in finished
    ensures FilledUpTo(was, flows, days, active, line, 0)
  {
  }

  lemma {:induction false} LineDone(was: Flows, mid: Flows, after: Flows, days: seq<int>, active: set<PointId>,
                                    line: Line,
                 finished: set<Line>)
    requires OutOfRange(was, mid, days) && forall l :: LineState(was, mid, days, active, l, finished)
    requires Elsewhere(mid, after, days, line) && FilledUpTo(was, after, days, active, line, |days|)
    ensures OutOfRange(was, after, days)
    ensures forall l :: LineState(was, after, days, active, l, finished + {line})
  {
    hide FilledUpTo, Elsewhere, OutOfRange;
    StillOutOfRange(was, mid, after, days, line);
    forall l ensures LineState(was, after, days, active, l, finished + {line}) {
      assert LineState(was, mid, days, active, l, finished);
      if l != line {
        OtherLine(was, mid, after, days, active, line, l, if l in finished then |days| else 0);
      }
    }
  }

  /** One day of one line. */
  lemma DayStep(was: Flows, flows: Flows, days: seq<int>, active: set<PointId>, line: Line, n: nat)
    requires Increasing(days) && n < |days| && line.point in active && FilledUpTo(was, flows, days, active, line, n)
    ensures var k, last := KeyAt(days[n], line), Carry(was, days, line, n);
            && (k in flows <==> k in was)
            && Carry(was, days, line, n + 1) == (if IsReal(was, k) then Some(Last(days[n], was[k].value)) else last)
            && (Fills(was, days, active, line, n) <==>
                  !IsReal(was, k) && last.Some? && 1 <= days[n] - last.value.day <= MAX_GAP && k !in flows)
            && (Fills(was, days, active, line, n) ==>
                  FilledUpTo(was, flows[k := Flow(last.value.value, true, true)], days, active, line, n + 1))
            && (!Fills(was, days, active, line, n) ==> FilledUpTo(was, flows, days, active, line, n + 1))
  {
    hide Carry, Fills;
    var k := KeyAt(days[n], line);
    assert KeyFilled(was, flows, days, active, KeyAt(days[n], line), n, n < n);
    CarryStep(was, days, line, n);
    FillsMeans(was, days, active, line, n);
    StepFilled(was, flows, days, active, line, n);
  }

  lemma CarryStep(was: Flows, days: seq<int>, line: Line, n: nat)
    requires n < |days|
    ensures var k := KeyAt(days[n], line);
            Carry(was, days, line, n + 1) == if IsReal(was, k) then Some(Last(days[n], was[k].value)) else Carry(was, days, line, n)
  {
  }

  lemma FillsMeans(was: Flows, days: seq<int>, active: set<PointId>, line: Line, n: nat)
    requires n < |days| && line.point in active
    ensures var k, last := KeyAt(days[n], line), Carry(was, days, line, n);
            Fills(was, days, active, line, n) <==> k !in was && last.Some? && 1 <= days[n] - last.value.day <= MAX_GAP
  {
  }

  lemma StepFilled(was: Flows, flows: Flows, days: seq<int>, active: set<PointId>, line: Line, n: nat)
    requires Increasing(days) && n < |days| && FilledUpTo(was, flows, days, active, line, n)
    ensures var k, last := KeyAt(days[n], line), Carry(was, days, line, n);
            && (Fills(was, days, active, line, n) ==>
                  (last.Some? && FilledUpTo(was, flows[k := Flow(last.value.value, true, true)], days, active, line, n + 1)))
            && (!Fills(was, days, active, line, n) ==> FilledUpTo(was, flows, days, active, line, n + 1))
  {
    hide Carry;
    var k, last := KeyAt(days[n], line), Carry(was, days, line, n);
    if Fills(was, days, active, line, n) {
      hide Fills;
      var after := flows[k := Flow(last.value.value, true, true)];
      forall i | 0 <= i < |days| ensures KeyFilled(was, after, days, active, KeyAt(days[i], line), i, i < n + 1) {
        assert KeyFilled(was, flows, days, active, KeyAt(days[i], line), i, i < n);
        if i != n {
          assert days[i] != days[n];
        }
      }
    } else {
      forall i | 0 <= i < |days| ensures KeyFilled(was, flows, days, active, KeyAt(days[i], line), i, i < n + 1) {
        assert KeyFilled(was, flows, days, active, KeyAt(days[i], line), i, i < n);
      }
    }
  }

  lemma OtherLine(was: Flows, mid: Flows, after: Flows, days: seq<int>, active: set<PointId>, line: Line,
                  other: Line, n: nat)
    requires n <= |days| && other != line && Elsewhere(mid, after, days, line)
    requires FilledUpTo(was, mid, days, active, other, n)
    ensures FilledUpTo(was, after, days, active, other, n)
  {
    hide Fills, Carry;
    forall i | 0 <= i < |days| ensures KeyFilled(was, after, days, active, KeyAt(days[i], other), i, i < n) {
      assert KeyFilled(was, mid, days, active, KeyAt(days[i], other), i, i < n);
      assert Same(mid, after, KeyAt(days[i], other));
    }
  }

  lemma StillOutOfRange(was: Flows, mid: Flows, after: Flows, days: seq<int>, line: Line)
    requires OutOfRange(was, mid, days) && Elsewhere(mid, after, days, line)
    ensures OutOfRange(was, after, days)
  {
    forall k: FlowKey | k.day !in days ensures Same(was, after, k) {
      assert Same(was, mid, k) && Same(mid, after, k);
    }
  }

  lemma {:induction false} NeverFills(was: Flows, after: Flows, days: seq<int>, active: set<PointId>, line: Line)
    requires FilledUpTo(was, after, days, active, line, 0)
    requires forall i | 0 <= i < |days| :: !Fills(was, days, active, line, i)
    ensures FilledUpTo(was, after, days, active, line, |days|)
  {
    hide Fills, Carry;
    forall i | 0 <= i < |days| ensures KeyFilled(was, after, days, active, KeyAt(days[i], line), i, i < |days|) {
      assert KeyFilled(was, after, days, active, KeyAt(days[i], line), i, i < 0);
    }
  }

  lemma InactiveLine(was: Flows, after: Flows, days: seq<int>, active: set<PointId>, line: Line)
    requires FilledUpTo(was, after, days, active, line, 0) && line.point !in active
    ensures FilledUpTo(was, after, days, active, line, |days|)
  {
    hide FilledUpTo;
    NeverFills(was, after, days, active, line);
  }

  lemma LineWithoutValues(was: Flows, after: Flows, days: seq<int>, active: set<PointId>, line: Line, lines: set<Line>)
    requires FilledUpTo(was, after, days, active, line, 0) && line !in lines
    requires lines == set k | k in Existing(was, days) :: LineOf(k)
    ensures FilledUpTo(was, after, days, active, line, |days|)
  {
    hide FilledUpTo;
    forall i | 0 <= i < |days| ensures !Fills(was, days, active, line, i) {
      CarriesNothing(was, days, line, i, lines);
    }
    NeverFills(was, after, days, active, line);
  }

  lemma {:induction false} CarriesNothing(was: Flows, days: seq<int>, line: Line, n: nat, lines: set<Line>)
    requires n <= |days| && line !in lines && lines == set k | k in Existing(was, days) :: LineOf(k)
    ensures Carry(was, days, line, n) == None
  {
    if n > 0 {
      CarriesNothing(was, days, line, n - 1, lines);
      ExistingIsReal(was, days, line, n - 1);
      assert LineOf(KeyAt(days[n - 1], line)) == line;
    }
  }

  lemma {:induction false} AllLines(was: Flows, after: Flows, days: seq<int>, active: set<PointId>, lines: set<Line>)
    requires OutOfRange(was, after, days) && forall line :: LineState(was, after, days, active, line, lines)
    requires lines == set k | k in Existing(was, days) :: LineOf(k)
    ensures Filled(was, after, days, active)
  {
    hide FilledUpTo, OutOfRange, Existing;
    forall line ensures FilledUpTo(was, after, days, active, line, |days|) {
      assert LineState(was, after, days, active, line, lines);
      if line !in lines {
        LineWithoutValues(was, after, days, active, line, lines);
      }
    }
  }

  // ----- what a fill means

  /** The last reported value in range is the newest before the day, and no value in range lies between. */
  lemma {:induction false} CarryIsNewest(flows: Flows, days: seq<int>, line: Line, n: nat)
    requires Increasing(days) && n <= |days|
    ensures var last := Carry(flows, days, line, n);
            if last.Some?
            then last.value.day in days[..n] && IsReal(flows, KeyAt(last.value.day, line)) &&
                 flows[KeyAt(last.value.day, line)].value == last.value.value &&
                 forall i | 0 <= i < n && days[i] > last.value.day :: !IsReal(flows, KeyAt(days[i], line))
            else forall i | 0 <= i < n :: !IsReal(flows, KeyAt(days[i], line))
  {
    if n > 0 {
      CarryIsNewest(flows, days, line, n - 1);
      assert days[..n] == days[..n - 1] + [days[n - 1]];
    }
  }

  /** A reported value in range, one or two days before. */
  ghost predicate Recent(flows: Flows, days: seq<int>, line: Line, day: int, back: int) {
    day - back in days && IsReal(flows, KeyAt(day - back, line))
  }

  /**
   A missing day is filled exactly when its active line has a reported value one or two days before, in range; with
   a gap of three days nothing is filled. The value is yesterday's if reported, else that of the day before.
   */
  lemma FillsExactlyShortGaps(flows: Flows, days: seq<int>, active: set<PointId>, line: Line, n: nat)
    requires Increasing(days) && n < |days|
    ensures Fills(flows, days, active, line, n) <==>
              line.point in active && KeyAt(days[n], line) !in flows &&
              (Recent(flows, days, line, days[n], 1) || Recent(flows, days, line, days[n], 2))
    ensures Fills(flows, days, active, line, n) ==>
              Carry(flows, days, line, n).value.value ==
              flows[KeyAt(days[n] - if Recent(flows, days, line, days[n], 1) then 1 else 2, line)].value
  {
    hide Carry;
    CarryIsNewest(flows, days, line, n);
    forall d | d in days && d < days[n] ensures exists i :: 0 <= i < n && days[i] == d {
      var i :| 0 <= i < |days| && days[i] == d;
      assert i < n;
    }
  }

  /** The pass only adds rows, and every row it adds is marked as interpolated and provisional. */
  lemma FillingOnlyAdds(before: Flows, after: Flows, days: seq<int>, active: set<PointId>, k: FlowKey)
    requires Filled(before, after, days, active)
    ensures k in before ==> k in after && after[k] == before[k]
    ensures k in after && k !in before ==>
              exists i :: 0 <= i < |days| && days[i] == k.day && Fills(before, days, active, LineOf(k), i) &&
                          after[k] == Flow(Carry(before, days, LineOf(k), i).value.value, true, true)
  {
    hide Carry;
    if k.day in days {
      var i :| 0 <= i < |days| && days[i] == k.day;
      assert FilledUpTo(before, after, days, active, LineOf(k), |days|);
      assert KeyFilled(before, after, days, active, KeyAt(days[i], LineOf(k)), i, i < |days|);
      assert KeyAt(days[i], LineOf(k)) == k;
    } else {
      assert Same(before, after, k);
    }
  }

  /** The table holds a reported value of the line so many days before, on a day of the pass. */
  ghost predicate ReportedBack(flows: Flows, days: seq<int>, k: FlowKey, back: int) {
    var l := k.(day := k.day - back);
    l.day in days && l in flows && !flows[l].interpolated
  }

  /**
   Every row a pass adds, and no other: an active point's, on a day of the pass without a row, with a reported value one
   or two days before on a day of the pass; it carries the nearer of these and is marked provisional and interpolated.
   */
  lemma NewRowsExactly(before: Flows, after: Flows, days: seq<int>, active: set<PointId>, k: FlowKey)
    requires Increasing(days) && Filled(before, after, days, active) && k !in before
    ensures k in after <==>
            k.day in days && k.point in active && (ReportedBack(before, days, k, 1) || ReportedBack(before, days, k, 2))
    ensures k in after ==>
              after[k] == Flow(before[k.(day := k.day - if ReportedBack(before, days, k, 1) then 1 else 2)].value, true, true)
  {
    hide Carry, Filled, Fills;
    FillingOnlyAdds(before, after, days, active, k);
    assert forall back :: Recent(before, days, LineOf(k), k.day, back) <==> ReportedBack(before, days, k, back);
    if k.day in days {
      var i :| 0 <= i < |days| && days[i] == k.day;
      FillsExactlyShortGaps(before, days, active, LineOf(k), i);
      FilledAt(before, after, days, active, k, i);
      forall j | 0 <= j < |days| && days[j] == k.day
        ensures j == i
      {
      }
    }
  }

  lemma FilledAt(before: Flows, after: Flows, days: seq<int>, active: set<PointId>, k: FlowKey, i: nat)
    requires Filled(before, after, days, active) && i < |days| && days[i] == k.day && k !in before
    ensures k in after <==> Fills(before, days, active, LineOf(k), i)
  {
    hide Fills, Carry;
    assert FilledUpTo(before, after, days, active, LineOf(k), |days|);
    assert KeyFilled(before, after, days, active, KeyAt(days[i], LineOf(k)), i, i < |days|);
    assert KeyAt(days[i], LineOf(k)) == k;
  }

  lemma {:induction false} CarryUnchanged(before: Flows, after: Flows, days: seq<int>, active: set<PointId>,
                                          line: Line, n: nat)
    requires n <= |days| && Filled(before, after, days, active)
    ensures Carry(after, days, line, n) == Carry(before, days, line, n)
  {
    hide Filled;
    if n > 0 {
      CarryUnchanged(before, after, days, active, line, n - 1);
      FillingOnlyAdds(before, after, days, active, KeyAt(days[n - 1], line));
    }
  }

  /** Repeating the pass adds nothing. */
  lemma FillingTwiceAddsNothing(before: Flows, after: Flows, again: Flows, days: seq<int>, active: set<PointId>)
    requires Filled(before, after, days, active) && Filled(after, again, days, active)
    ensures again == after
  {
    hide Carry, Filled, Fills;
    forall k ensures (k in again <==> k in after) && (k in after ==> again[k] == after[k]) {
      FillingOnlyAdds(after, again, days, active, k);
      if i :| 0 <= i < |days| && days[i] == k.day && Fills(after, days, active, LineOf(k), i) {
        NoSecondFill(before, after, days, active, LineOf(k), i);
      }
    }
  }

  lemma NoSecondFill(before: Flows, after: Flows, days: seq<int>, active: set<PointId>, line: Line, n: nat)
    requires n < |days| && Filled(before, after, days, active)
    ensures !Fills(after, days, active, line, n)
  {
    CarryUnchanged(before, after, days, active, line, n);
    assert FilledUpTo(before, after, days, active, line, |days|);
    assert KeyFilled(before, after, days, active, KeyAt(days[n], line), n, n < |days|);
    assert LineOf(KeyAt(days[n], line)) == line;
    FillingOnlyAdds(before, after, days, active, KeyAt(days[n], line));
    hide Carry, Filled, FilledUpTo;
  }

  /** A filled row carries the nearest reported value: yesterday's, else that of the day before. */
  ghost predicate Nearest(flows: Flows, days: seq<int>, k: FlowKey)
    requires k in flows
  {
    if Recent(flows, days, LineOf(k), k.day, 1) then flows[k].value == flows[KeyAt(k.day - 1, LineOf(k))].value
    else
      Recent(flows, days, LineOf(k), k.day, 2) && flows[k].value == flows[KeyAt(k.day - 2, LineOf(k))].value
  }

  predicate IsFilled(flows: Flows, days: seq<int>, k: FlowKey) {
    k in flows && flows[k].interpolated && k.day in days
  }

  ghost predicate AllNearest(flows: Flows, days: seq<int>) {
    forall k | IsFilled(flows, days, k) :: Nearest(flows, days, k)
  }

  /** The pass changes nothing about reported rows. */
  lemma ReportedStay(before: Flows, after: Flows, days: seq<int>, active: set<PointId>, k: FlowKey)
    requires Filled(before, after, days, active)
    ensures IsReal(after, k) <==> IsReal(before, k)
    ensures IsReal(after, k) ==> after[k].value == before[k].value
  {
    hide Filled, Fills, Carry;
    FillingOnlyAdds(before, after, days, active, k);
  }

  lemma NearestStays(before: Flows, after: Flows, days: seq<int>, active: set<PointId>, k: FlowKey)
    requires Filled(before, after, days, active) && k in before
    ensures k in after && (Nearest(after, days, k) <==> Nearest(before, days, k))
  {
    hide Filled, IsReal;
    FillingOnlyAdds(before, after, days, active, k);
    ReportedStay(before, after, days, active, KeyAt(k.day - 1, LineOf(k)));
    ReportedStay(before, after, days, active, KeyAt(k.day - 2, LineOf(k)));
    RealIsIn(before, KeyAt(k.day - 1, LineOf(k)));
    RealIsIn(before, KeyAt(k.day - 2, LineOf(k)));
  }

  lemma RealIsIn(flows: Flows, k: FlowKey)
    ensures IsReal(flows, k) ==> k in flows
  {
  }

  lemma NewIsNearest(before: Flows, after: Flows, days: seq<int>, active: set<PointId>, k: FlowKey)
    requires Increasing(days) && Filled(before, after, days, active) && k in after && k !in before
    ensures Nearest(after, days, k)
  {
    hide Filled, IsReal, Carry;
    FillingOnlyAdds(before, after, days, active, k);
    var i :| 0 <= i < |days| && days[i] == k.day && Fills(before, days, active, LineOf(k), i) &&
             after[k] == Flow(Carry(before, days, LineOf(k), i).value.value, true, true);
    FillsExactlyShortGaps(before, days, active, LineOf(k), i);
    ReportedStay(before, after, days, active, KeyAt(k.day - 1, LineOf(k)));
    ReportedStay(before, after, days, active, KeyAt(k.day - 2, LineOf(k)));
    RealIsIn(before, KeyAt(k.day - 1, LineOf(k)));
    RealIsIn(before, KeyAt(k.day - 2, LineOf(k)));
  }

  /**
   After a pass every filled row carries the nearest reported value exactly when every row filled earlier
   still did.
   */
  lemma PassKeepsNearestExactly(before: Flows, after: Flows, days: seq<int>, active: set<PointId>)
    requires Increasing(days) && Filled(before, after, days, active)
    ensures AllNearest(after, days) <==> AllNearest(before, days)
  {
    hide Filled, Nearest;
    forall k
      ensures k in before ==> k in after && after[k] == before[k] && (Nearest(after, days, k) <==> Nearest(before, days, k))
      ensures k in after && k !in before ==> Nearest(after, days, k)
    {
      FillingOnlyAdds(before, after, days, active, k);
      if k in before {
        NearestStays(before, after, days, active, k);
      } else if k in after {
        NewIsNearest(before, after, days, active, k);
      }
    }
  }

  /**
   Reported anew, day r is the nearest report for this filled row: it is the next day's, or the one after's
   across a gap.
   */
  ghost predicate LeansOn(flows: Flows, days: seq<int>, k: FlowKey, r: FlowKey) {
    IsFilled(flows, days, k) && k != r && LineOf(k) == LineOf(r) &&
    (k.day == r.day + 1 || (k.day == r.day + 2 && !Recent(flows, days, LineOf(k), k.day, 1)))
  }

  function Upsert(flows: Flows, r: FlowKey, v: real, provisional: bool): Flows {
    flows[r := Flow(v, provisional, false)]
  }

  lemma UpsertAt(flows: Flows, days: seq<int>, r: FlowKey, v: real, provisional: bool, k: FlowKey)
    requires r.day in days && IsFilled(flows, days, k) && k != r && Nearest(flows, days, k)
    ensures var after := Upsert(flows, r, v, provisional);
            IsFilled(after, days, k) &&
            (Nearest(after, days, k) <==> (LeansOn(flows, days, k, r) ==> flows[k].value == v))
  {
    var after := Upsert(flows, r, v, provisional);
    var line := LineOf(k);
    var one, two := KeyAt(k.day - 1, line), KeyAt(k.day - 2, line);
    assert r == one <==> LineOf(r) == line && k.day == r.day + 1;
    assert r == two <==> LineOf(r) == line && k.day == r.day + 2;
    assert one != r ==> (IsReal(after, one) <==> IsReal(flows, one));
    assert two != r ==> (IsReal(after, two) <==> IsReal(flows, two));
  }

  /**
   A reported value that comes late or is revised leaves every filled row nearest if and only if the rows that lean on
   it already carry that value. Filled rows are never rewritten, so a pass over the revised table repairs none of them.
   */
  lemma RevisionKeepsNearestExactly(flows: Flows, days: seq<int>, r: FlowKey, v: real, provisional: bool)
    requires r.day in days && AllNearest(flows, days)
    ensures AllNearest(Upsert(flows, r, v, provisional), days) <==>
            forall k | LeansOn(flows, days, k, r) :: flows[k].value == v
  {
    hide Nearest, Recent;
    var after := Upsert(flows, r, v, provisional);
    forall k
      ensures IsFilled(flows, days, k) && k != r ==>
                Nearest(flows, days, k) && IsFilled(after, days, k) &&
                (Nearest(after, days, k) <==> (LeansOn(flows, days, k, r) ==> flows[k].value == v))
      ensures IsFilled(after, days, k) ==> IsFilled(flows, days, k) && k != r
    {
      if IsFilled(flows, days, k) && k != r {
        UpsertAt(flows, days, r, v, provisional, k);
      }
    }
  }
}
