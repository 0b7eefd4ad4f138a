/**
 Usage metering: counters recorded in memory under a lock, drained by a flush that upserts them into the ledger
 row by row in one transaction. Recorders, other flushes and failures interleave with the steps of a flush.
 */
module Metering {
  import opened Options
  import opened FiniteSums

  datatype Key = Key(day: string, keyId: nat)

  datatype Tally = Tally(requests: nat, points: nat)

  function Plus(a: Tally, b: Tally): Tally {
    Tally(a.requests + b.requests, a.points + b.points)
  }

  type Ledger = map<Key, Tally>

  function Get(l: Ledger, k: Key): Tally {
    if k in l then l[k] else Tally(0, 0)
  }

  /** A counter bumped in memory, and INSERT ... ON CONFLICT DO UPDATE SET x = x + excluded.x on the ledger. */
  function Add(l: Ledger, k: Key, t: Tally): Ledger {
    l[k := Plus(Get(l, k), t)]
  }

  function Without(l: Ledger, k: Key): Ledger {
    map j | j in l && j != k :: l[j]
  }

  function Merge(a: Ledger, b: Ledger): Ledger {
    map k | k in a.Keys + b.Keys :: Plus(Get(a, k), Get(b, k))
  }

  // ----- the counters on the heap

  /** The two-element list a counter is. */
  class Slot {
    var requests: nat
    var points: nat

    constructor (requests: nat, points: nat)
      ensures ToTally() == Tally(requests, points)
    {
      this.requests, this.points := requests, points;
    }

    function ToTally(): Tally
      reads this
    {
      Tally(requests, points)
    }
  }

  class Meter {
    var counters: map<Key, Slot>

    /** No two keys share a list. */
    ghost predicate Valid()
      reads this
    {
      forall j, k | j in counters && k in counters && j != k :: counters[j] != counters[k]
    }

    ghost function Memory(): Ledger
      reads this, counters.Values
    {
      map k | k in counters :: counters[k].ToTally()
    }

    constructor ()
      ensures Valid() && Memory() == map[]
    {
      counters := map[];
    }

    /** Only the lists in `counters` and new ones are written: what a flush has drained stays as it was. */
    method Record(k: Key, requests: nat, points: nat)
      requires Valid()
      modifies this, counters.Values
      ensures Valid() && Memory() == Add(old(Memory()), k, Tally(requests, points))
      ensures fresh(counters.Values - old(counters.Values))
    {
      if k in counters {
        var slot := counters[k];
        slot.requests := slot.requests + requests;
        slot.points := slot.points + points;
      } else {
        var slot := new Slot(requests, points);
        counters := counters[k := slot];
      }
    }

    method UsageToday(k: Key) returns (t: Tally)
      requires Valid()
      ensures t == Get(Memory(), k)
    {
      if k in counters {
        return Tally(counters[k].requests, counters[k].points);
      }
      return Tally(0, 0);
    }

    /** The locked part of a flush: the lists themselves change hands, so nothing in memory refers to them. */
    method Drain() returns (drained: map<Key, Slot>)
      requires Valid()
      modifies this
      ensures Valid() && Memory() == map[]
      ensures drained == old(counters) && counters.Values !! drained.Values
      ensures (map k | k in drained :: drained[k].ToTally()) == old(Memory())
    {
      drained := counters;
      counters := map[];
    }
  }

  // ----- interleavings

  /** A flush between its drain and its commit: rows still to be executed, rows executed and not yet committed. */
  datatype Flush = Flush(todo: Ledger, done: Ledger)

  /** The one SQLite writer: which flush it belongs to, and the ledger as that transaction sees it. */
  datatype Writer = Writer(owner: nat, view: Ledger)

  datatype State = State(memory: Ledger, flights: map<nat, Flush>, writer: Option<Writer>, ledger: Ledger,
                         recorded: Ledger,  // all that was ever recorded
                         lost: Ledger)      // drained by flushes that failed, or in memory at a restart

  function Init(): State {
    State(map[], map[], None, map[], map[], map[])
  }

  datatype Step =
    | Record(k: Key, t: Tally)
    | Drain(id: nat)
    | Execute(id: nat, k: Key)
    | Commit(id: nat)
    | Fail(id: nat)
    | LoseMemory  // a restart; the flushes it interrupts fail one by one

  /** One atomic step. A step that is not enabled changes nothing. */
  function Apply(s: State, step: Step): State {
    match step
    case Record(k, t) => s.(memory := Add(s.memory, k, t), recorded := Add(s.recorded, k, t))
    case Drain(id) =>
      if s.memory == map[] || id in s.flights then s
      else s.(memory := map[], flights := s.flights[id := Flush(s.memory, map[])])
    case Execute(id, k) =>
      if id !in s.flights || k !in s.flights[id].todo || (s.writer.Some? && s.writer.value.owner != id) then s
      else
        var f := s.flights[id];
        var view := if s.writer.Some? then s.writer.value.view else s.ledger;
        s.(flights := s.flights[id := Flush(Without(f.todo, k), Add(f.done, k, f.todo[k]))],
           writer := Some(Writer(id, Add(view, k, f.todo[k]))))
    case Commit(id) =>
      if id !in s.flights || s.flights[id].todo != map[] || s.writer.None? || s.writer.value.owner != id then s
      else s.(flights := s.flights - {id}, writer := None, ledger := s.writer.value.view)
    case Fail(id) =>
      if id !in s.flights then s
      else s.(flights := s.flights - {id}, lost := Merge(s.lost, InFlight(s.flights[id])),
              writer := if s.writer.Some? && s.writer.value.owner == id then None else s.writer)
    case LoseMemory => s.(memory := map[], lost := Merge(s.lost, s.memory))
  }

  function InFlight(f: Flush): Ledger {
    Merge(f.todo, f.done)
  }

  function Run(s: State, steps: seq<Step>): State
    decreases |steps|
  {
    if steps == [] then s else Run(Apply(s, steps[0]), steps[1..])
  }

  // ----- conservation

  /** Either axis of a tally, as a number to sum. */
  function Amount(t: Tally, points: bool): real {
    if points then t.points as real else t.requests as real
  }

  function At(l: Ledger, k: Key, points: bool): real {
    Amount(Get(l, k), points)
  }

  lemma AtAdd(l: Ledger, j: Key, t: Tally, k: Key, points: bool)
    ensures At(Add(l, j, t), k, points) == At(l, k, points) + if j == k then Amount(t, points) else 0.0
  {
  }

  lemma AtMerge(a: Ledger, b: Ledger, k: Key, points: bool)
    ensures At(Merge(a, b), k, points) == At(a, k, points) + At(b, k, points)
  {
  }

  lemma AtWithout(l: Ledger, j: Key, k: Key, points: bool)
    requires j in l
    ensures At(Without(l, j), k, points) == At(l, k, points) - if j == k then Amount(l[j], points) else 0.0
  {
  }

  lemma AtEmpty(k: Key, points: bool)
    ensures At(map[], k, points) == 0.0
  {
  }

  ghost function FlightAmount(flights: map<nat, Flush>, k: Key, points: bool): nat -> real {
    id => if id in flights then At(flights[id].todo, k, points) + At(flights[id].done, k, points) else 0.0
  }

  /** What all drained and uncommitted flushes hold for one key. */
  ghost function Flying(flights: map<nat, Flush>, k: Key, points: bool): real {
    Sum(flights.Keys, FlightAmount(flights, k, points))
  }

  ghost predicate Conserved(s: State, k: Key, points: bool) {
    At(s.recorded, k, points)
    == At(s.memory, k, points) + Flying(s.flights, k, points) + At(s.ledger, k, points) + At(s.lost, k, points)
  }

  /** Only the writer has executed rows, and its view is the ledger with exactly those rows added. */
  ghost predicate WriterInv(s: State, k: Key, points: bool) {
    && (s.writer.Some? ==>
          s.writer.value.owner in s.flights &&
          At(s.writer.value.view, k, points)
          == At(s.ledger, k, points) + At(s.flights[s.writer.value.owner].done, k, points))
    && forall id | id in s.flights && !(s.writer.Some? && s.writer.value.owner == id) ::
         At(s.flights[id].done, k, points) == 0.0
  }

  lemma FlyingUpdate(flights: map<nat, Flush>, id: nat, f: Flush, k: Key, points: bool)
    ensures Flying(flights[id := f], k, points)
         == Flying(flights - {id}, k, points) + At(f.todo, k, points) + At(f.done, k, points)
  {
    hide Sum, At;
    var after := flights[id := f];
    assert after.Keys - {id} == (flights - {id}).Keys;
    SumPick(after.Keys, FlightAmount(after, k, points), id);
    SumSame((flights - {id}).Keys, FlightAmount(after, k, points), FlightAmount(flights - {id}, k, points));
  }

  lemma FlyingRemove(flights: map<nat, Flush>, id: nat, k: Key, points: bool)
    requires id in flights
    ensures Flying(flights, k, points)
         == Flying(flights - {id}, k, points) + At(flights[id].todo, k, points) + At(flights[id].done, k, points)
  {
    assert flights[id := flights[id]] == flights;
    FlyingUpdate(flights, id, flights[id], k, points);
  }

  lemma StepKeepsWriter(s: State, step: Step, k: Key, points: bool)
    requires WriterInv(s, k, points)
    ensures WriterInv(Apply(s, step), k, points)
  {
    hide Add, Merge, Without, At;
    AtEmpty(k, points);
    if step.Execute? && step.id in s.flights && step.k in s.flights[step.id].todo {
      var f := s.flights[step.id];
      AtAdd(f.done, step.k, f.todo[step.k], k, points);
      AtAdd(if s.writer.Some? then s.writer.value.view else s.ledger, step.k, f.todo[step.k], k, points);
    }
  }

  lemma StepConserves(s: State, step: Step, k: Key, points: bool)
    requires WriterInv(s, k, points) && Conserved(s, k, points)
    ensures Conserved(Apply(s, step), k, points)
  {
    hide Flying, Add, Merge, Without, At;
    AtEmpty(k, points);
    match step
    case Record(j, t) =>
      AtAdd(s.memory, j, t, k, points);
      AtAdd(s.recorded, j, t, k, points);
    case LoseMemory =>
      AtMerge(s.lost, s.memory, k, points);
    case Drain(id) =>
      if id !in s.flights {
        FlyingUpdate(s.flights, id, Flush(s.memory, map[]), k, points);
        assert s.flights - {id} == s.flights;
      }
    case Execute(id, j) =>
      if id in s.flights && j in s.flights[id].todo {
        var f := s.flights[id];
        FlyingRemove(s.flights, id, k, points);
        FlyingUpdate(s.flights, id, Flush(Without(f.todo, j), Add(f.done, j, f.todo[j])), k, points);
        AtWithout(f.todo, j, k, points);
        AtAdd(f.done, j, f.todo[j], k, points);
      }
    case Commit(id) =>
      if id in s.flights {
        FlyingRemove(s.flights, id, k, points);
      }
    case Fail(id) =>
      if id in s.flights {
        FlyingRemove(s.flights, id, k, points);
        AtMerge(s.lost, InFlight(s.flights[id]), k, points);
        AtMerge(s.flights[id].todo, s.flights[id].done, k, points);
      }
  }

  lemma {:induction false} RunConserves(s: State, steps: seq<Step>, k: Key, points: bool)
    requires WriterInv(s, k, points) && Conserved(s, k, points)
    ensures Conserved(Run(s, steps), k, points)
    decreases |steps|
  {
    if steps != [] {
      StepKeepsWriter(s, steps[0], k, points);
      StepConserves(s, steps[0], k, points);
      hide WriterInv, Conserved, Apply;
      RunConserves(Apply(s, steps[0]), steps[1..], k, points);
    }
  }

  lemma FlyingNonNegative(flights: map<nat, Flush>, k: Key, points: bool)
    ensures Flying(flights, k, points) >= 0.0
    ensures flights == map[] ==> Flying(flights, k, points) == 0.0
  {
    hide Sum;
    if flights == map[] {
      assert flights.Keys == {};
      SumEmpty(FlightAmount(flights, k, points));
    }
    SumZero(flights.Keys, id => 0.0);
    SumMonotone(flights.Keys, id => 0.0, FlightAmount(flights, k, points));
  }

  /** In every interleaving, what was recorded is in memory, drained in flight, committed or lost. */
  lemma UsageIsConserved(steps: seq<Step>, k: Key, points: bool)
    ensures Conserved(Run(Init(), steps), k, points)
  {
    FlyingNonNegative(map[], k, points);
    RunConserves(Init(), steps, k, points);
  }

  /** The ledger, with or without what is in memory, never shows more than was recorded. */
  lemma LedgerNeverOvercounts(steps: seq<Step>, k: Key, points: bool)
    ensures var s := Run(Init(), steps);
            At(s.ledger, k, points) + At(s.memory, k, points) <= At(s.recorded, k, points)
  {
    UsageIsConserved(steps, k, points);
    FlyingNonNegative(Run(Init(), steps).flights, k, points);
  }

  /** What a step loses: a failing flush all it had drained, a restart what is in memory, and no other step anything. */
  function LossOf(s: State, step: Step, k: Key, points: bool): real {
    match step
    case Fail(id) => if id in s.flights then At(s.flights[id].todo, k, points) + At(s.flights[id].done, k, points) else 0.0
    case LoseMemory => At(s.memory, k, points)
    case _ => 0.0
  }

  function Losses(s: State, steps: seq<Step>, k: Key, points: bool): real
    decreases |steps|
  {
    if steps == [] then 0.0 else LossOf(s, steps[0], k, points) + Losses(Apply(s, steps[0]), steps[1..], k, points)
  }

  lemma StepLoses(s: State, step: Step, k: Key, points: bool)
    ensures At(Apply(s, step).lost, k, points) == At(s.lost, k, points) + LossOf(s, step, k, points)
  {
    hide Merge, At;
    match step
    case Fail(id) =>
      if id in s.flights {
        AtMerge(s.lost, InFlight(s.flights[id]), k, points);
        AtMerge(s.flights[id].todo, s.flights[id].done, k, points);
      }
    case LoseMemory =>
      AtMerge(s.lost, s.memory, k, points);
    case _ =>
  }

  lemma {:induction false} RunLoses(s: State, steps: seq<Step>, k: Key, points: bool)
    ensures At(Run(s, steps).lost, k, points) == At(s.lost, k, points) + Losses(s, steps, k, points)
    decreases |steps|
  {
    hide Apply, At, LossOf;
    if steps != [] {
      StepLoses(s, steps[0], k, points);
      RunLoses(Apply(s, steps[0]), steps[1..], k, points);
    }
  }

  /**
   With no flush under way, ledger and memory together are what was recorded less exactly what failing flushes had
   drained and restarts found in memory; without either they are what was recorded.
   */
  lemma QuietLedgerIsExact(steps: seq<Step>, k: Key, points: bool)
    requires Run(Init(), steps).flights == map[]
    ensures var s := Run(Init(), steps);
            At(s.ledger, k, points) + At(s.memory, k, points) == At(s.recorded, k, points) - Losses(Init(), steps, k, points)
    ensures (forall i | 0 <= i < |steps| :: !steps[i].Fail? && !steps[i].LoseMemory?) ==>
              Losses(Init(), steps, k, points) == 0.0
  {
    UsageIsConserved(steps, k, points);
    RunLoses(Init(), steps, k, points);
    AtEmpty(k, points);
    FlyingNonNegative(Run(Init(), steps).flights, k, points);
    hide At, Losses;
    if forall i | 0 <= i < |steps| :: !steps[i].Fail? && !steps[i].LoseMemory? {
      NothingLost(Init(), steps, k, points);
    }
  }

  lemma {:induction false} NothingLost(s: State, steps: seq<Step>, k: Key, points: bool)
    requires forall i | 0 <= i < |steps| :: !steps[i].Fail? && !steps[i].LoseMemory?
    ensures Losses(s, steps, k, points) == 0.0
    decreases |steps|
  {
    hide At, Apply;
    if steps != [] {
      NothingLost(Apply(s, steps[0]), steps[1..], k, points);
    }
  }

  // ----- a flush that nobody disturbs

  ghost predicate AllOf(steps: seq<Step>, id: nat) {
    forall i | 0 <= i < |steps| :: steps[i].Drain? || steps[i].Execute? || steps[i].Commit? ==> steps[i].id == id
  }

  lemma {:induction false} RunMore(s: State, a: seq<Step>, step: Step)
    ensures Run(s, a + [step]) == Apply(Run(s, a), step)
    decreases |a|
  {
    hide Apply;
    var more := a + [step];
    if a == [] {
      assert more[0] == step && more[1..] == [];
    } else {
      assert more[0] == a[0] && more[1..] == a[1..] + [step];
      RunMore(Apply(s, a[0]), a[1..], step);
    }
  }

  /** The state of a flush that has executed some of its rows, as its own transaction sees the ledger. */
  ghost predicate Flushing(s: State, start: State, id: nat) {
    && id in s.flights && s.memory == map[] && s.lost == start.lost && s.recorded == start.recorded
    && s.flights - {id} == start.flights && s.ledger == start.ledger
    && (s.writer.None? ==> s.flights[id].todo == start.memory)
    && (s.writer.Some? ==> s.writer.value.owner == id)
    && forall k, points ::
         At(start.memory, k, points) + At(start.ledger, k, points)
         == At(s.flights[id].todo, k, points) + At(if s.writer.Some? then s.writer.value.view else s.ledger, k, points)
  }

  lemma {:induction false} ExecutesAll(start: State, steps: seq<Step>, id: nat) returns (all: seq<Step>)
    requires Flushing(Run(start, steps), start, id) && AllOf(steps, id)
    requires Run(start, steps).writer.Some? || start.memory != map[]
    ensures AllOf(all, id) && Flushing(Run(start, all), start, id)
    ensures Run(start, all).flights[id].todo == map[] && Run(start, all).writer.Some?
    decreases |Run(start, steps).flights[id].todo.Keys|
  {
    hide At, Add, Merge, Without, Run, AllOf;
    var s := Run(start, steps);
    var f := s.flights[id];
    all := steps;
    if f.todo != map[] {
      var k := Pick(f.todo.Keys);
      RunMore(start, steps, Execute(id, k));
      OneMoreStep(steps, Execute(id, k), id);
      FewerRows(f.todo, k);
      ExecuteKeeps(s, start, id, k);
      all := ExecutesAll(start, steps + [Execute(id, k)], id);
    }
  }

  lemma OneMoreStep(steps: seq<Step>, step: Step, id: nat)
    requires AllOf(steps, id) && (step.Drain? || step.Execute? || step.Commit?) && step.id == id
    ensures AllOf(steps + [step], id)
  {
  }

  lemma FewerRows(l: Ledger, k: Key)
    requires k in l
    ensures |Without(l, k).Keys| < |l.Keys|
  {
    assert Without(l, k).Keys == l.Keys - {k};
  }

  lemma ExecuteKeeps(s: State, start: State, id: nat, k: Key)
    requires Flushing(s, start, id) && k in s.flights[id].todo
    ensures var after := Apply(s, Execute(id, k));
            && Flushing(after, start, id) && after.writer.Some? && after.flights[id].todo == Without(s.flights[id].todo, k)
  {
    hide At, Add, Without;
    var f, after := s.flights[id], Apply(s, Execute(id, k));
    var view := if s.writer.Some? then s.writer.value.view else s.ledger;
    assert after.flights - {id} == s.flights - {id};
    forall j, points
      ensures At(start.memory, j, points) + At(start.ledger, j, points)
           == At(after.flights[id].todo, j, points) + At(after.writer.value.view, j, points)
    {
      AtWithout(f.todo, k, j, points);
      AtAdd(view, k, f.todo[k], j, points);
    }
  }

  /** A flush that runs through, with no other in the writer's way, moves all that is in memory into the ledger. */
  lemma FlushMovesAll(s: State, id: nat) returns (steps: seq<Step>)
    requires s.memory != map[] && id !in s.flights && s.writer.None?
    ensures AllOf(steps, id)
    ensures var after := Run(s, steps);
            && after.memory == map[] && after.flights == s.flights && after.writer.None?
            && after.recorded == s.recorded && after.lost == s.lost
            && forall k, points :: At(after.ledger, k, points) == At(s.ledger, k, points) + At(s.memory, k, points)
  {
    hide At, Add, Merge, Without, Run;
    steps := [Drain(id)];
    assert [] + [Drain(id)] == [Drain(id)];
    RunMore(s, [], Drain(id));
    NoSteps(s);
    DrainStarts(s, id);
    steps := ExecutesAll(s, steps, id);
    RunMore(s, steps, Commit(id));
    forall k, points
      ensures At(map[], k, points) == 0.0
    {
      AtEmpty(k, points);
    }
    OneMoreStep(steps, Commit(id), id);
    steps := steps + [Commit(id)];
  }

  lemma NoSteps(s: State)
    ensures Run(s, []) == s
  {
  }

  lemma DrainStarts(s: State, id: nat)
    requires s.memory != map[] && id !in s.flights && s.writer.None?
    ensures Flushing(Apply(s, Drain(id)), s, id)
  {
    hide At;
    assert s.flights[id := Flush(s.memory, map[])] - {id} == s.flights;
  }
}
