/**
 The alert-rule runner: every tick scans the active rules in id order, skips those that cool down, and stops once
 `cap` rules have fired. Times are seconds.
 */
module AlertRunner {
  import opened Options
  import FiniteSums

  const DEFAULT_COOLDOWN := 6 * 3600

  datatype EvaluatorResult = EvaluatorResult(title: string, detail: string)

  datatype Evaluation = Raises | Returns(result: Option<EvaluatorResult>)

  /** What one tick finds for one rule: is the rule type known, do the params parse, what the evaluator does. */
  datatype Probe = Probe(known: bool, paramsParse: bool, evaluation: Evaluation)

  /** One run of the scheduler: its clock and what it finds for each rule id. */
  datatype Tick = Tick(now: int, probes: int -> Probe)

  datatype Row = Row(id: nat, active: bool, cooldownUntil: Option<int>,
                     lastEvaluatedAt: Option<int>, lastTriggeredAt: Option<int>)

  datatype Event = Event(ruleId: nat, triggeredAt: int, title: string, detail: string)

  datatype Counters = Counters(evaluated: nat, triggered: nat, skippedCooldown: nat)

  function EvalOne(p: Probe): Option<EvaluatorResult> {
    if !p.paramsParse then None
    else match p.evaluation
      case Raises => None
      case Returns(result) => result
  }

  predicate Cooling(row: Row, now: int) {
    row.cooldownUntil.Some? && row.cooldownUntil.value > now
  }

  // ----- one tick, on values

  datatype Visit = Visit(row: Row, events: seq<Event>, evaluated: nat, skipped: nat)

  function VisitRule(row: Row, tick: Tick): Visit {
    var p := tick.probes(row.id);
    if Cooling(row, tick.now) then Visit(row, [], 0, 1)
    else if !p.known then Visit(row, [], 0, 0)
    else
      var seen := row.(lastEvaluatedAt := Some(tick.now));
      match EvalOne(p)
      case None => Visit(seen, [], 1, 0)
      case Some(r) =>
        Visit(seen.(lastTriggeredAt := Some(tick.now), cooldownUntil := Some(tick.now + DEFAULT_COOLDOWN)),
              [Event(row.id, tick.now, r.title, r.detail)], 1, 0)
  }

  // A tick sees the rules as rows in id order and one probe a row. The rule in position i is reached when it is
  // active and fewer than `cap` of the rules before it have fired.

  predicate Reaches(rows: seq<Row>, tick: Tick, cap: int, i: nat)
    requires i < |rows|
    decreases i, 1
  {
    rows[i].active && |EventsBefore(rows, tick, cap, i)| < cap
  }

  /** The events the rules before position i log. */
  function EventsBefore(rows: seq<Row>, tick: Tick, cap: int, i: nat): seq<Event>
    requires i <= |rows|
    decreases i, 0
  {
    if i == 0 then []
    else EventsBefore(rows, tick, cap, i - 1) +
         if Reaches(rows, tick, cap, i - 1) then VisitRule(rows[i - 1], tick).events else []
  }

  /** How often a rule before position i was counted as evaluated, or as skipped. */
  function CountBefore(rows: seq<Row>, tick: Tick, cap: int, i: nat, evaluated: bool): nat
    requires i <= |rows|
  {
    if i == 0 then 0
    else CountBefore(rows, tick, cap, i - 1, evaluated) +
         if !Reaches(rows, tick, cap, i - 1) then 0
         else if evaluated then VisitRule(rows[i - 1], tick).evaluated
         else VisitRule(rows[i - 1], tick).skipped
  }

  function RowAfter(rows: seq<Row>, tick: Tick, cap: int, i: nat): Row
    requires i < |rows|
  {
    if Reaches(rows, tick, cap, i) then VisitRule(rows[i], tick).row else rows[i]
  }

  function RowsAfter(rows: seq<Row>, tick: Tick, cap: int): seq<Row> {
    seq(|rows|, i requires 0 <= i < |rows| => RowAfter(rows, tick, cap, i))
  }

  /** Once `cap` rules have fired the scan is over: nothing later is reached. */
  lemma {:induction false} CappedIsOver(rows: seq<Row>, tick: Tick, cap: int, i: nat, j: nat)
    requires i <= j <= |rows| && |EventsBefore(rows, tick, cap, i)| >= cap
    ensures EventsBefore(rows, tick, cap, j) == EventsBefore(rows, tick, cap, i)
    ensures forall evaluated ::
              CountBefore(rows, tick, cap, j, evaluated) == CountBefore(rows, tick, cap, i, evaluated)
  {
    if i < j {
      CappedIsOver(rows, tick, cap, i, j - 1);
    }
  }

  lemma ScanStart(rows: seq<Row>, tick: Tick, cap: int)
    ensures EventsBefore(rows, tick, cap, 0) == []
    ensures forall evaluated :: CountBefore(rows, tick, cap, 0, evaluated) == 0
  {
  }

  /** What the loop body does to the row in position i. */
  lemma ScanStep(rows: seq<Row>, tick: Tick, cap: int, i: nat)
    requires i < |rows| && (rows[i].active ==> |EventsBefore(rows, tick, cap, i)| < cap)
    ensures var v := if rows[i].active then VisitRule(rows[i], tick) else Visit(rows[i], [], 0, 0);
            && RowAfter(rows, tick, cap, i) == v.row
            && EventsBefore(rows, tick, cap, i + 1) == EventsBefore(rows, tick, cap, i) + v.events
            && CountBefore(rows, tick, cap, i + 1, true) == CountBefore(rows, tick, cap, i, true) + v.evaluated
            && CountBefore(rows, tick, cap, i + 1, false) == CountBefore(rows, tick, cap, i, false) + v.skipped
  {
  }

  lemma CappedRest(rows: seq<Row>, tick: Tick, cap: int, i: nat)
    requires i == |rows| || (i < |rows| && |EventsBefore(rows, tick, cap, i)| >= cap)
    ensures EventsBefore(rows, tick, cap, |rows|) == EventsBefore(rows, tick, cap, i)
    ensures forall evaluated ::
              CountBefore(rows, tick, cap, |rows|, evaluated) == CountBefore(rows, tick, cap, i, evaluated)
    ensures forall j | i <= j < |rows| :: RowAfter(rows, tick, cap, j) == rows[j]
  {
    if i < |rows| {
      CappedIsOver(rows, tick, cap, i, |rows|);
      forall j | i <= j < |rows| ensures RowAfter(rows, tick, cap, j) == rows[j] {
        CappedIsOver(rows, tick, cap, i, j);
      }
    }
  }

  // ----- the tables and the runner

  class AlertRule {
    const id: nat
    var isActive: bool
    var cooldownUntil: Option<int>
    var lastEvaluatedAt: Option<int>
    var lastTriggeredAt: Option<int>

    constructor (id: nat, isActive: bool)
      ensures ToRow() == Row(id, isActive, None, None, None)
    {
      this.id, this.isActive := id, isActive;
      cooldownUntil, lastEvaluatedAt, lastTriggeredAt := None, None, None;
    }

    ghost function ToRow(): Row
      reads this
    {
      Row(id, isActive, cooldownUntil, lastEvaluatedAt, lastTriggeredAt)
    }

    /** The loop body for one active rule below the cap. */
    method Visit(tick: Tick) returns (event: seq<Event>, evaluated: nat, skipped: nat)
      modifies this
      ensures var v := VisitRule(old(ToRow()), tick);
              ToRow() == v.row && event == v.events && evaluated == v.evaluated && skipped == v.skipped
    {
      event, evaluated, skipped := [], 0, 0;
      if cooldownUntil.Some? && cooldownUntil.value > tick.now {
        skipped := 1;
        return;
      }
      var p := tick.probes(id);
      if !p.known {
        return;
      }
      evaluated := 1;
      lastEvaluatedAt := Some(tick.now);
      var result := EvalOne(p);
      if result.Some? {
        event := [Event(id, tick.now, result.value.title, result.value.detail)];
        lastTriggeredAt := Some(tick.now);
        cooldownUntil := Some(tick.now + DEFAULT_COOLDOWN);
      }
    }
  }

  class AlertTables {
    var rules: seq<AlertRule>  // in id order
    var events: seq<Event>

    ghost predicate Valid()
      reads this, rules
    {
      forall i, j | 0 <= i < j < |rules| :: rules[i].id < rules[j].id
    }

    ghost function Rows(): seq<Row>
      reads this, rules
    {
      seq(|rules|, i requires 0 <= i < |rules| reads this, rules => rules[i].ToRow())
    }

    method ProcessAlertRules(tick: Tick, cap: int) returns (counters: Counters)
      requires Valid()
      modifies this`events, rules
      ensures Valid()
      ensures var before := old(Rows());
              var logged := EventsBefore(before, tick, cap, |before|);
              Rows() == RowsAfter(before, tick, cap) && events == old(events) + logged &&
              counters == Counters(CountBefore(before, tick, cap, |before|, true), |logged|,
                                   CountBefore(before, tick, cap, |before|, false))
    {
      hide EventsBefore, CountBefore, RowAfter, VisitRule;
      ghost var before := Rows();
      ScanStart(before, tick, cap);
      var triggered, evaluated, skipped, i := 0, 0, 0, 0;
      while i < |rules|
        invariant 0 <= i <= |rules| == |before|
        invariant forall j | 0 <= j < i :: rules[j].ToRow() == RowAfter(before, tick, cap, j)
        invariant forall j | i <= j < |rules| :: rules[j].ToRow() == before[j]
        invariant events == old(events) + EventsBefore(before, tick, cap, i)
        invariant triggered == |EventsBefore(before, tick, cap, i)|
        invariant evaluated == CountBefore(before, tick, cap, i, true)
        invariant skipped == CountBefore(before, tick, cap, i, false)
      {
        var rule := rules[i];
        assert rule.ToRow() == before[i];
        if rule.isActive {
          if triggered >= cap {
            break;
          }
          ScanStep(before, tick, cap, i);
          var event, e, s := rule.Visit(tick);
          events := events + event;
          triggered, evaluated, skipped := triggered + |event|, evaluated + e, skipped + s;
        } else {
          ScanStep(before, tick, cap, i);
        }
        i := i + 1;
      }
      CappedRest(before, tick, cap, i);
      assert Rows() == RowsAfter(before, tick, cap);
      counters := Counters(evaluated, triggered, skipped);
    }
  }

  // ----- what a tick logs, counts and writes

  /** Six hours. */
  const SIX_HOURS := 21600

  /** No cooldown is on record, or the one on record is over. */
  predicate Due(row: Row, now: int) {
    row.cooldownUntil.None? || row.cooldownUntil.value <= now
  }

  /** The rule type is known, the params parse, and the evaluator returns a result. */
  predicate Answers(p: Probe) {
    p.known && p.paramsParse && p.evaluation.Returns? && p.evaluation.result.Some?
  }

  /** The scan gets to an active rule with fewer than `cap` events logged. */
  predicate GetsTo(rows: seq<Row>, tick: Tick, cap: int, i: nat)
    requires i < |rows|
  {
    rows[i].active && |EventsBefore(rows, tick, cap, i)| < cap
  }

  ghost predicate DistinctIds(rows: seq<Row>) {
    forall i, j | 0 <= i < j < |rows| :: rows[i].id != rows[j].id
  }

  function AnswerEvent(row: Row, tick: Tick): Event
    requires Answers(tick.probes(row.id))
  {
    var result := tick.probes(row.id).evaluation.result.value;
    Event(row.id, tick.now, result.title, result.detail)
  }

  lemma VisitExactly(row: Row, tick: Tick)
    ensures var v, p := VisitRule(row, tick), tick.probes(row.id);
            && v.events == (if Due(row, tick.now) && Answers(p) then [AnswerEvent(row, tick)] else [])
            && v.evaluated == (if Due(row, tick.now) && p.known then 1 else 0)
            && v.skipped == (if Due(row, tick.now) then 0 else 1)
            && v.row == (if !Due(row, tick.now) || !p.known then row
                         else if !Answers(p) then row.(lastEvaluatedAt := Some(tick.now))
                         else row.(lastEvaluatedAt := Some(tick.now), lastTriggeredAt := Some(tick.now),
                                   cooldownUntil := Some(tick.now + SIX_HOURS)))
  {
  }

  lemma {:induction false} LogMembers(rows: seq<Row>, tick: Tick, cap: int, n: nat, e: Event)
    requires n <= |rows|
    ensures e in EventsBefore(rows, tick, cap, n)
       <==> exists i :: 0 <= i < n && Reaches(rows, tick, cap, i) && e in VisitRule(rows[i], tick).events
  {
    hide VisitRule, Reaches;
    if n > 0 {
      LogMembers(rows, tick, cap, n - 1, e);
    }
  }

  /**
   When a rule fires: a tick logs an event of the rule if and only if the scan gets to it, its cooldown is absent or
   over, its type is known, its params parse and its evaluator returns a result; and the event is that result.
   */
  lemma FiresExactly(rows: seq<Row>, tick: Tick, cap: int, i: nat)
    requires i < |rows| && DistinctIds(rows)
    ensures var row, logged := rows[i], EventsBefore(rows, tick, cap, |rows|);
            && ((exists e :: e in logged && e.ruleId == row.id) <==>
                GetsTo(rows, tick, cap, i) && Due(row, tick.now) && Answers(tick.probes(row.id)))
            && (forall e | e in logged && e.ruleId == row.id ::
                  Answers(tick.probes(row.id)) && e == AnswerEvent(row, tick))
  {
    hide VisitRule, EventsBefore, AnswerEvent, Due, Answers;
    var row, logged := rows[i], EventsBefore(rows, tick, cap, |rows|);
    VisitExactly(row, tick);
    EventIds(row, tick);
    forall e | e in logged && e.ruleId == row.id
      ensures Reaches(rows, tick, cap, i) && e in VisitRule(row, tick).events
    {
      LogMembers(rows, tick, cap, |rows|, e);
      var j :| 0 <= j < |rows| && Reaches(rows, tick, cap, j) && e in VisitRule(rows[j], tick).events;
      EventIds(rows[j], tick);
    }
    if GetsTo(rows, tick, cap, i) && Due(row, tick.now) && Answers(tick.probes(row.id)) {
      var e := AnswerEvent(row, tick);
      assert e in VisitRule(row, tick).events;
      LogMembers(rows, tick, cap, |rows|, e);
    }
  }

  lemma EventIds(row: Row, tick: Tick)
    ensures forall e | e in VisitRule(row, tick).events :: e.ruleId == row.id
  {
  }

  /** A rule that answers is written as fired, one that is only evaluated as evaluated; any other stays as it is. */
  lemma RowExactly(rows: seq<Row>, tick: Tick, cap: int, i: nat)
    requires i < |rows|
    ensures var row, p := rows[i], tick.probes(rows[i].id);
            RowsAfter(rows, tick, cap)[i]
            == if !GetsTo(rows, tick, cap, i) || !Due(row, tick.now) || !p.known then row
               else if !Answers(p) then row.(lastEvaluatedAt := Some(tick.now))
               else row.(lastEvaluatedAt := Some(tick.now), lastTriggeredAt := Some(tick.now),
                         cooldownUntil := Some(tick.now + SIX_HOURS))
  {
    VisitExactly(rows[i], tick);
    hide VisitRule, EventsBefore, Due, Answers;
  }

  ghost function Evaluated(rows: seq<Row>, tick: Tick, cap: int, n: nat): set<nat>
    requires n <= |rows|
  {
    set i: nat | i < n && GetsTo(rows, tick, cap, i) && Due(rows[i], tick.now) && tick.probes(rows[i].id).known
  }

  ghost function Answered(rows: seq<Row>, tick: Tick, cap: int, n: nat): set<nat>
    requires n <= |rows|
  {
    set i: nat | i < n && GetsTo(rows, tick, cap, i) && Due(rows[i], tick.now) && Answers(tick.probes(rows[i].id))
  }

  ghost function Skipped(rows: seq<Row>, tick: Tick, cap: int, n: nat): set<nat>
    requires n <= |rows|
  {
    set i: nat | i < n && GetsTo(rows, tick, cap, i) && !Due(rows[i], tick.now)
  }

  /** The three counters: rules that were due and known, rules that answered, and rules that were still cooling down. */
  lemma {:induction false} CountersExactly(rows: seq<Row>, tick: Tick, cap: int, n: nat)
    requires n <= |rows|
    ensures CountBefore(rows, tick, cap, n, true) == |Evaluated(rows, tick, cap, n)|
    ensures |EventsBefore(rows, tick, cap, n)| == |Answered(rows, tick, cap, n)|
    ensures CountBefore(rows, tick, cap, n, false) == |Skipped(rows, tick, cap, n)|
  {
    if n > 0 {
      CountersExactly(rows, tick, cap, n - 1);
      VisitExactly(rows[n - 1], tick);
      CountedSets(rows, tick, cap, n);
      hide VisitRule, Due, Answers, Evaluated, Answered, Skipped;
    }
  }

  lemma CountedSets(rows: seq<Row>, tick: Tick, cap: int, n: nat)
    requires 0 < n <= |rows|
    ensures var row, reached := rows[n - 1], GetsTo(rows, tick, cap, n - 1);
            var p, due := tick.probes(row.id), Due(row, tick.now);
            && |Evaluated(rows, tick, cap, n)|
               == |Evaluated(rows, tick, cap, n - 1)| + (if reached && due && p.known then 1 else 0)
            && |Answered(rows, tick, cap, n)| == |Answered(rows, tick, cap, n - 1)| + (if reached && due && Answers(p) then 1 else 0)
            && |Skipped(rows, tick, cap, n)| == |Skipped(rows, tick, cap, n - 1)| + (if reached && !due then 1 else 0)
  {
    hide GetsTo, Due, Answers;
    OneMore(Evaluated(rows, tick, cap, n - 1), Evaluated(rows, tick, cap, n), n - 1);
    OneMore(Answered(rows, tick, cap, n - 1), Answered(rows, tick, cap, n), n - 1);
    OneMore(Skipped(rows, tick, cap, n - 1), Skipped(rows, tick, cap, n), n - 1);
  }

  lemma {:induction false} OneMore(a: set<nat>, b: set<nat>, n: nat)
    requires n !in a && forall i | i != n :: i in a <==> i in b
    ensures |b| == |a| + if n in b then 1 else 0
  {
    assert b == if n in b then a + {n} else a;
  }

  // ----- firing again

  /** The rows after the first n ticks. */
  function RowsThrough(rows: seq<Row>, ticks: seq<Tick>, cap: int, n: nat): (after: seq<Row>)
    requires n <= |ticks|
    ensures |after| == |rows|
  {
    if n == 0 then rows else RowsAfter(RowsThrough(rows, ticks, cap, n - 1), ticks[n - 1], cap)
  }

  /** Tick n logs an event of the rule in position r. */
  ghost predicate LogsAt(rows: seq<Row>, ticks: seq<Tick>, cap: int, n: nat, r: nat)
    requires n < |ticks| && r < |rows|
  {
    var before := RowsThrough(rows, ticks, cap, n);
    exists e :: e in EventsBefore(before, ticks[n], cap, |before|) && e.ruleId == rows[r].id
  }

  lemma {:induction false} IdsStay(rows: seq<Row>, ticks: seq<Tick>, cap: int, n: nat)
    requires n <= |ticks|
    ensures forall i | 0 <= i < |rows| :: RowsThrough(rows, ticks, cap, n)[i].id == rows[i].id
  {
    hide EventsBefore;
    if n > 0 {
      IdsStay(rows, ticks, cap, n - 1);
    }
  }

  /** The rule waits after tick m: each tick up to n comes within six hours of it or does not get to the rule. */
  ghost predicate Waits(rows: seq<Row>, ticks: seq<Tick>, cap: int, m: nat, n: nat, r: nat)
    requires m < n <= |ticks| && r < |rows|
  {
    forall j | m < j < n ::
      ticks[j].now < ticks[m].now + SIX_HOURS || !GetsTo(RowsThrough(rows, ticks, cap, j), ticks[j], cap, r)
  }

  /** One tick of a run, for the rule in position r. */
  lemma CooldownStep(rows: seq<Row>, ticks: seq<Tick>, cap: int, n: nat, r: nat)
    requires n < |ticks| && r < |rows| && DistinctIds(rows)
    ensures var row, tick := RowsThrough(rows, ticks, cap, n)[r], ticks[n];
            && (LogsAt(rows, ticks, cap, n, r) <==>
                GetsTo(RowsThrough(rows, ticks, cap, n), tick, cap, r) && Due(row, tick.now)
                && Answers(tick.probes(rows[r].id)))
            && RowsThrough(rows, ticks, cap, n + 1)[r].cooldownUntil
               == if LogsAt(rows, ticks, cap, n, r) then Some(tick.now + SIX_HOURS) else row.cooldownUntil
  {
    var before, tick := RowsThrough(rows, ticks, cap, n), ticks[n];
    IdsStay(rows, ticks, cap, n);
    RowExactly(before, tick, cap, r);
    FiresExactly(before, tick, cap, r);
    hide RowsAfter, GetsTo, EventsBefore, AnswerEvent, Due;
  }

  /** While it waits it does not fire, and its cooldown ends six hours after the tick that fired. */
  lemma {:induction false} WaitsQuietly(rows: seq<Row>, ticks: seq<Tick>, cap: int, m: nat, n: nat, r: nat)
    requires m < n <= |ticks| && r < |rows| && DistinctIds(rows)
    requires LogsAt(rows, ticks, cap, m, r) && Waits(rows, ticks, cap, m, n, r)
    ensures RowsThrough(rows, ticks, cap, n)[r].cooldownUntil == Some(ticks[m].now + SIX_HOURS)
    ensures forall j | m < j < n :: !LogsAt(rows, ticks, cap, j, r)
    decreases n
  {
    CooldownStep(rows, ticks, cap, n - 1, r);
    hide RowsThrough, LogsAt, GetsTo, Answers;
    if m < n - 1 {
      WaitsQuietly(rows, ticks, cap, m, n - 1, r);
    }
  }

  /**
   A rule that has fired fires again, if its evaluator then returns a result, at the first tick that gets to it once
   six hours have passed, and at none before.
   */
  lemma FiresAgain(rows: seq<Row>, ticks: seq<Tick>, cap: int, m: nat, n: nat, r: nat)
    requires m < n < |ticks| && r < |rows| && DistinctIds(rows)
    requires LogsAt(rows, ticks, cap, m, r) && Waits(rows, ticks, cap, m, n, r)
    requires ticks[n].now >= ticks[m].now + SIX_HOURS && GetsTo(RowsThrough(rows, ticks, cap, n), ticks[n], cap, r)
    ensures LogsAt(rows, ticks, cap, n, r) <==> Answers(ticks[n].probes(rows[r].id))
    ensures forall j | m < j < n :: !LogsAt(rows, ticks, cap, j, r)
  {
    WaitsQuietly(rows, ticks, cap, m, n, r);
    CooldownStep(rows, ticks, cap, n, r);
    hide RowsThrough, LogsAt, GetsTo, Answers;
  }

  // ----- no starvation

  predicate Fires(rows: seq<Row>, tick: Tick, cap: int, i: nat)
    requires i < |rows|
  {
    Reaches(rows, tick, cap, i) && VisitRule(rows[i], tick).events != []
  }

  ghost function FiredBefore(rows: seq<Row>, tick: Tick, cap: int, n: nat): set<nat>
    requires n <= |rows|
  {
    set i: nat | i < n && Fires(rows, tick, cap, i)
  }

  lemma {:induction false} FiredCount(rows: seq<Row>, tick: Tick, cap: int, n: nat)
    requires n <= |rows|
    ensures |FiredBefore(rows, tick, cap, n)| == |EventsBefore(rows, tick, cap, n)|
  {
    hide Reaches, VisitRule, FiredBefore;
    FiredStep(rows, tick, cap, n);
    if n > 0 {
      FiredCount(rows, tick, cap, n - 1);
      OneEvent(rows[n - 1], tick);
    }
  }

  lemma OneEvent(row: Row, tick: Tick)
    ensures |VisitRule(row, tick).events| <= 1
  {
  }

  lemma FiredStep(rows: seq<Row>, tick: Tick, cap: int, n: nat)
    requires n <= |rows|
    ensures if n == 0 then FiredBefore(rows, tick, cap, n) == {}
            else
              var fewer := FiredBefore(rows, tick, cap, n - 1);
              FiredBefore(rows, tick, cap, n)
              == (if Reaches(rows, tick, cap, n - 1) && VisitRule(rows[n - 1], tick).events != [] then fewer + {n - 1} else fewer)
              && n - 1 !in fewer
  {
    hide Reaches, VisitRule;
  }

  ghost function ActiveRules(rows: seq<Row>): set<nat> {
    set i: nat | i < |rows| && rows[i].active
  }

  /** The active rules that do not cool down until `horizon`. */
  ghost function Pending(rows: seq<Row>, horizon: int): set<nat> {
    set i: nat | i < |rows| && rows[i].active && !(rows[i].cooldownUntil.Some? && rows[i].cooldownUntil.value >= horizon)
  }

  /** The scan gets to rule r in one of the ticks. */
  predicate ReachedIn(rows: seq<Row>, ticks: seq<Tick>, cap: int, r: nat)
    requires r < |rows|
    decreases |ticks|
  {
    ticks != [] &&
    (Reaches(rows, ticks[0], cap, r) || ReachedIn(RowsAfter(rows, ticks[0], cap), ticks[1..], cap, r))
  }

  /** A tick that does not get to an active rule takes `cap` other rules out of the running. */
  lemma UnreachedTick(rows: seq<Row>, tick: Tick, cap: nat, start: int, r: nat)
    requires r < |rows| && rows[r].active && !Reaches(rows, tick, cap, r)
    requires start <= tick.now < start + DEFAULT_COOLDOWN
    ensures var horizon := start + DEFAULT_COOLDOWN;
            |Pending(RowsAfter(rows, tick, cap), horizon) - {r}| + cap <= |Pending(rows, horizon) - {r}|
  {
    var horizon := start + DEFAULT_COOLDOWN;
    var before, after := Pending(rows, horizon) - {r}, Pending(RowsAfter(rows, tick, cap), horizon) - {r};
    var fired := FiredBefore(rows, tick, cap, r);
    FiredCount(rows, tick, cap, r);
    forall i: nat | i < |rows| ensures i in after ==> i in before && i !in fired {
      PendingAfter(rows, tick, cap, start, i);
    }
    forall i | i in fired ensures i in before {
      PendingAfter(rows, tick, cap, start, i);
    }
    hide *;
    assert after <= before - fired;
    FiniteSums.SubsetSize(after, before - fired);
  }

  /** A tick only ever takes rules out of the pending ones, and takes out each rule that fires. */
  lemma PendingAfter(rows: seq<Row>, tick: Tick, cap: nat, start: int, i: nat)
    requires i < |rows| && start <= tick.now < start + DEFAULT_COOLDOWN
    ensures var horizon := start + DEFAULT_COOLDOWN;
            && (i in Pending(RowsAfter(rows, tick, cap), horizon) ==>
                  i in Pending(rows, horizon) && !Fires(rows, tick, cap, i))
            && (Fires(rows, tick, cap, i) ==> i in Pending(rows, horizon))
  {
    hide EventsBefore;
  }

  lemma MulStep(n: nat, m: nat)
    requires n > 0
    ensures n * m == (n - 1) * m + m
  {
  }

  lemma ActiveStays(rows: seq<Row>, tick: Tick, cap: int, r: nat)
    requires r < |rows|
    ensures |RowsAfter(rows, tick, cap)| == |rows|
    ensures RowsAfter(rows, tick, cap)[r].active == rows[r].active
  {
    hide EventsBefore;
  }

  lemma {:induction false} NoStarvationFrom(rows: seq<Row>, ticks: seq<Tick>, cap: nat, start: int, r: nat)
    requires r < |rows| && rows[r].active
    requires forall k | 0 <= k < |ticks| :: start <= ticks[k].now < start + DEFAULT_COOLDOWN
    requires |Pending(rows, start + DEFAULT_COOLDOWN) - {r}| < |ticks| * cap
    ensures ReachedIn(rows, ticks, cap, r)
    decreases |ticks|
  {
    hide RowAfter, EventsBefore, Pending;
    assert |ticks| > 0;
    if !Reaches(rows, ticks[0], cap, r) {
      UnreachedTick(rows, ticks[0], cap, start, r);
      MulStep(|ticks|, cap);
      ActiveStays(rows, ticks[0], cap, r);
      NoStarvationFrom(RowsAfter(rows, ticks[0], cap), ticks[1..], cap, start, r);
    }
  }

  /** K ticks within one cooldown reach every one of at most K * cap active rules, whatever the rules do. */
  lemma {:induction false} NoStarvation(rows: seq<Row>, ticks: seq<Tick>, cap: nat, start: int, r: nat)
    requires r in ActiveRules(rows)
    requires forall k | 0 <= k < |ticks| :: start <= ticks[k].now < start + DEFAULT_COOLDOWN
    requires |ActiveRules(rows)| <= |ticks| * cap
    ensures ReachedIn(rows, ticks, cap, r)
  {
    var pending := Pending(rows, start + DEFAULT_COOLDOWN) - {r};
    FiniteSums.SubsetSize(pending, ActiveRules(rows) - {r});
    NoStarvationFrom(rows, ticks, cap, start, r);
  }

  // ----- rate

  /**
   Between ticks users switch rules on and off, delete them and add new ones. A new id exceeds all that are there, so
   it can be one that a deleted rule had.
   */
  datatype Move =
    | Run(tick: Tick, cap: int)
    | SetActive(position: nat, active: bool)
    | DeleteRule(position: nat)
    | AddRule(id: nat, active: bool)

  datatype State = State(rows: seq<Row>, events: seq<Event>)

  predicate IsNewId(rows: seq<Row>, id: nat) {
    forall i | 0 <= i < |rows| :: rows[i].id < id
  }

  function Apply(s: State, m: Move): State {
    match m
    case Run(tick, cap) =>
      State(RowsAfter(s.rows, tick, cap), s.events + EventsBefore(s.rows, tick, cap, |s.rows|))
    case SetActive(i, active) =>
      if i < |s.rows| then s.(rows := s.rows[i := s.rows[i].(active := active)]) else s
    case DeleteRule(i) =>
      if i < |s.rows| then s.(rows := s.rows[..i] + s.rows[i + 1..]) else s
    case AddRule(id, active) =>
      if IsNewId(s.rows, id) then s.(rows := s.rows + [Row(id, active, None, None, None)]) else s
  }

  function RunAll(s: State, moves: seq<Move>): State
    decreases |moves|
  {
    if moves == [] then s else RunAll(Apply(s, moves[0]), moves[1..])
  }

  /** Two events of one rule id are at least one cooldown apart. */
  ghost predicate Spaced(events: seq<Event>) {
    forall i, j | 0 <= i < j < |events| && events[i].ruleId == events[j].ruleId ::
      events[j].triggeredAt - events[i].triggeredAt >= DEFAULT_COOLDOWN
  }

  ghost predicate Covers(row: Row, e: Event) {
    row.cooldownUntil.Some? && row.cooldownUntil.value >= e.triggeredAt + DEFAULT_COOLDOWN
  }

  /** A rule cools down at least until each event logged under its id allows another. */
  ghost predicate RateInv(s: State) {
    && (forall i, j | 0 <= i < j < |s.rows| :: s.rows[i].id < s.rows[j].id)
    && (forall e, i | e in s.events && 0 <= i < |s.rows| && s.rows[i].id == e.ruleId :: Covers(s.rows[i], e))
    && Spaced(s.events)
  }

  /** The move gives a new rule an id that events are logged under. */
  ghost predicate ReusesId(s: State, m: Move) {
    m.AddRule? && IsNewId(s.rows, m.id) && exists e :: e in s.events && e.ruleId == m.id
  }

  ghost predicate NeverReuses(s: State, moves: seq<Move>)
    decreases |moves|
  {
    moves == [] || (!ReusesId(s, moves[0]) && NeverReuses(Apply(s, moves[0]), moves[1..]))
  }

  lemma VisitKeepsRate(s: State, i: nat, tick: Tick)
    requires RateInv(s) && i < |s.rows|
    ensures var v := VisitRule(s.rows[i], tick);
            RateInv(State(s.rows[i := v.row], s.events + v.events))
  {
    var v := VisitRule(s.rows[i], tick);
    VisitFacts(s.rows[i], tick);
    hide VisitRule;
    var rows, events := s.rows[i := v.row], s.events + v.events;
    forall e, k | e in events && 0 <= k < |rows| && rows[k].id == e.ruleId ensures Covers(rows[k], e) {
      if e in s.events {
        assert Covers(s.rows[k], e);
      } else {
        assert e in v.events && k == i;
      }
    }
    forall a, b | 0 <= a < b < |events| && events[a].ruleId == events[b].ruleId
      ensures events[b].triggeredAt - events[a].triggeredAt >= DEFAULT_COOLDOWN
    {
      if b == |s.events| {
        assert s.events[a] in s.events && Covers(s.rows[i], s.events[a]);
      }
    }
  }

  /** A visit that fires finds the cooldown over and starts the next; any other leaves it alone. */
  lemma VisitFacts(row: Row, tick: Tick)
    ensures var v := VisitRule(row, tick);
            && v.row.id == row.id
            && (v.events == [] ==> v.row.cooldownUntil == row.cooldownUntil)
            && (v.events != [] ==>
                  && |v.events| == 1 && v.events[0].ruleId == row.id && v.events[0].triggeredAt == tick.now
                  && (row.cooldownUntil.Some? ==> row.cooldownUntil.value <= tick.now)
                  && v.row.cooldownUntil == Some(tick.now + DEFAULT_COOLDOWN))
  {
  }

  lemma {:induction false} TickKeepsRate(s: State, tick: Tick, cap: int, n: nat)
    requires RateInv(s) && n <= |s.rows|
    ensures RateInv(State(RowsAfter(s.rows, tick, cap)[..n] + s.rows[n..],
                          s.events + EventsBefore(s.rows, tick, cap, n)))
  {
    hide RateInv, VisitRule, Reaches;
    var after := RowsAfter(s.rows, tick, cap);
    if n == 0 {
      assert State(after[..0] + s.rows[0..], s.events + EventsBefore(s.rows, tick, cap, 0)) == s;
    } else {
      TickKeepsRate(s, tick, cap, n - 1);
      var mid := State(after[..n - 1] + s.rows[n - 1..], s.events + EventsBefore(s.rows, tick, cap, n - 1));
      assert mid.rows[n - 1] == s.rows[n - 1];
      if Reaches(s.rows, tick, cap, n - 1) {
        VisitKeepsRate(mid, n - 1, tick);
      } else {
        assert mid == State(mid.rows[n - 1 := after[n - 1]], mid.events + []);
      }
      assert after[..n] + s.rows[n..] == mid.rows[n - 1 := after[n - 1]];
      assert s.events + EventsBefore(s.rows, tick, cap, n)
          == mid.events + if Reaches(s.rows, tick, cap, n - 1) then VisitRule(s.rows[n - 1], tick).events else [];
    }
  }

  lemma ApplyKeepsRate(s: State, m: Move)
    requires RateInv(s) && !ReusesId(s, m)
    ensures RateInv(Apply(s, m))
  {
    hide RateInv;
    match m
    case Run(tick, cap) =>
      TickKeepsRate(s, tick, cap, |s.rows|);
      hide RowsAfter, EventsBefore;
      var after := RowsAfter(s.rows, tick, cap);
      assert after[..|s.rows|] + s.rows[|s.rows|..] == after;
    case SetActive(i, active) =>
      if i < |s.rows| {
        SwitchKeepsRate(s, i, active);
      }
    case DeleteRule(i) =>
      if i < |s.rows| {
        DeleteKeepsRate(s, i);
      }
    case AddRule(id, active) =>
      if IsNewId(s.rows, id) {
        AddKeepsRate(s, id, active);
      }
  }

  lemma SwitchKeepsRate(s: State, i: nat, active: bool)
    requires RateInv(s) && i < |s.rows|
    ensures RateInv(s.(rows := s.rows[i := s.rows[i].(active := active)]))
  {
    var rows := s.rows[i := s.rows[i].(active := active)];
    forall e, k | e in s.events && 0 <= k < |rows| && rows[k].id == e.ruleId ensures Covers(rows[k], e) {
      assert Covers(s.rows[k], e);
    }
  }

  lemma DeleteKeepsRate(s: State, i: nat)
    requires RateInv(s) && i < |s.rows|
    ensures RateInv(s.(rows := s.rows[..i] + s.rows[i + 1..]))
  {
    var rows := s.rows[..i] + s.rows[i + 1..];
    assert forall k | 0 <= k < |rows| :: rows[k] == s.rows[if k < i then k else k + 1];
    forall e, k | e in s.events && 0 <= k < |rows| && rows[k].id == e.ruleId ensures Covers(rows[k], e) {
      assert Covers(s.rows[if k < i then k else k + 1], e);
    }
  }

  lemma {:induction false} AddKeepsRate(s: State, id: nat, active: bool)
    requires RateInv(s) && IsNewId(s.rows, id) && forall e | e in s.events :: e.ruleId != id
    ensures RateInv(s.(rows := s.rows + [Row(id, active, None, None, None)]))
  {
    var rows := s.rows + [Row(id, active, None, None, None)];
    forall e, k | e in s.events && 0 <= k < |rows| && rows[k].id == e.ruleId ensures Covers(rows[k], e) {
      assert Covers(s.rows[k], e);
    }
  }

  /**
   Over every run in which no new rule is given an id that events are logged under, and whatever the clock does, two
   events of one rule are at least six hours apart.
   */
  lemma {:induction false} EventsAreSpaced(s: State, moves: seq<Move>)
    requires RateInv(s) && NeverReuses(s, moves)
    ensures RateInv(RunAll(s, moves)) && Spaced(RunAll(s, moves).events)
    decreases |moves|
  {
    if moves != [] {
      ApplyKeepsRate(s, moves[0]);
      EventsAreSpaced(Apply(s, moves[0]), moves[1..]);
    }
  }

  /** A tick in which one rule raises and no other is known. */
  function OnlyRule(id: nat, now: int): Tick {
    Tick(now, i => if i == id then Probe(true, true, Returns(Some(EvaluatorResult("", ""))))
                   else Probe(false, true, Returns(None)))
  }

  lemma {:induction false} OthersAreSilent(rows: seq<Row>, id: nat, now: int, n: nat)
    requires n <= |rows| && forall i | 0 <= i < n :: rows[i].id != id
    ensures EventsBefore(rows, OnlyRule(id, now), 1, n) == []
  {
    if n > 0 {
      OthersAreSilent(rows, id, now, n - 1);
    }
  }

  /** Of a new rule and the others, only the new one fires. */
  lemma OnlyNewFires(rows: seq<Row>, id: nat, now: int)
    requires IsNewId(rows, id)
    ensures var more := rows + [Row(id, true, None, None, None)];
            EventsBefore(more, OnlyRule(id, now), 1, |more|) == [Event(id, now, "", "")]
  {
    var more := rows + [Row(id, true, None, None, None)];
    OthersAreSilent(more, id, now, |rows|);
    NewFires(id, now);
    hide VisitRule, OnlyRule;
  }

  lemma NewFires(id: nat, now: int)
    ensures VisitRule(Row(id, true, None, None, None), OnlyRule(id, now)).events == [Event(id, now, "", "")]
  {
  }

  lemma TwoMoves(s: State, a: Move, b: Move)
    ensures RunAll(s, [a, b]) == Apply(Apply(s, a), b)
  {
    hide Apply;
    assert [a, b][1..] == [b] && [b][1..] == [];
    assert RunAll(Apply(s, a), [b]) == RunAll(Apply(Apply(s, a), b), []);
  }

  lemma Unspaced(events: seq<Event>, e: Event, n: nat)
    requires n < |events| && events[n].ruleId == e.ruleId && e.triggeredAt < events[n].triggeredAt + DEFAULT_COOLDOWN
    ensures !Spaced(events + [e])
  {
    var more := events + [e];
    assert more[n] == events[n] && more[|events|] == e;
  }

  /** And one reuse is enough: the new rule does not cool down, and the next tick may raise under the old events' id. */
  lemma ReuseBreaksSpacing(s: State, id: nat, n: nat, now: int)
    requires IsNewId(s.rows, id) && n < |s.events| && s.events[n].ruleId == id
    requires now < s.events[n].triggeredAt + DEFAULT_COOLDOWN
    ensures ReusesId(s, AddRule(id, true))
    ensures !Spaced(RunAll(s, [AddRule(id, true), Run(OnlyRule(id, now), 1)]).events)
  {
    hide Spaced, OnlyRule, EventsBefore, RowsAfter, RunAll;
    assert s.events[n] in s.events;
    TwoMoves(s, AddRule(id, true), Run(OnlyRule(id, now), 1));
    OnlyNewFires(s.rows, id, now);
    Unspaced(s.events, Event(id, now, "", ""), n);
  }

  /** A run from empty tables that gets there: the newest rule raises, is deleted, and its id is given out again. */
  lemma ReuseHappens()
    ensures var moves := [AddRule(1, true), Run(OnlyRule(1, 0), 1), DeleteRule(0)];
            var again := [AddRule(1, true), Run(OnlyRule(1, 3600), 1)];
            !Spaced(RunAll(RunAll(State([], []), moves), again).events)
  {
    hide Spaced, OnlyRule, RunAll, EventsBefore, RowAfter;
    var add, tick := AddRule(1, true), Run(OnlyRule(1, 0), 1);
    var e, row := Event(1, 0, "", ""), Row(1, true, None, None, None);
    var added := Apply(State([], []), add);
    OnlyNewFires([], 1, 0);
    assert [] + [row] == [row] && [] + [e] == [e];
    assert added == State([row], []);
    var fired := Apply(added, tick);
    assert fired.events == [e] && |fired.rows| == 1;
    var gone := Apply(fired, DeleteRule(0));
    assert fired.rows[..0] + fired.rows[1..] == [];
    ThreeMoves(State([], []), add, tick, DeleteRule(0));
    ReuseBreaksSpacing(gone, 1, 0, 3600);
  }

  lemma ThreeMoves(s: State, a: Move, b: Move, c: Move)
    ensures RunAll(s, [a, b, c]) == Apply(Apply(Apply(s, a), b), c)
  {
    hide Apply;
    assert [a, b, c][1..] == [b, c];
    TwoMoves(Apply(s, a), b, c);
  }
}
