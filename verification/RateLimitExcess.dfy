/**
 How far overlapping calls do take a window over its limit: runs that reach the bound of RateLimitThreads.OverlapBound
 for every limit, every window and every number of calls.
 */
module RateLimitExcess {
  import opened RateLimit
  import opened RateLimitThreads
  import FiniteSums

  // ----- runs of calls that all have one rule

  ghost predicate Uses(steps: seq<Step>, r: Rule) {
    forall step | step in steps :: step.Enter? ==> step.rules == [r]
  }

  ghost predicate Plan(steps: seq<Step>, s: State, r: Rule, calls: nat) {
    Uses(steps, r) && AtMost(Init(0.0), steps, calls) && Run(Init(0.0), steps) == s
  }

  ghost predicate Path(s: State, r: Rule, calls: nat) {
    exists steps :: Plan(steps, s, r, calls)
  }

  lemma {:induction false} RunMore(s: State, steps: seq<Step>, step: Step, calls: nat)
    requires AtMost(s, steps, calls) && |Apply(Run(s, steps), step).pending| <= calls
    ensures AtMost(s, steps + [step], calls) && Run(s, steps + [step]) == Apply(Run(s, steps), step)
    decreases |steps|
  {
    hide Apply;
    var more := steps + [step];
    if steps == [] {
      assert more[0] == step && more[1..] == [];
    } else {
      assert more[0] == steps[0] && more[1..] == steps[1..] + [step];
      RunMore(Apply(s, steps[0]), steps[1..], step, calls);
    }
  }

  lemma PathStart(r: Rule, calls: nat)
    ensures Path(Init(0.0), r, calls)
  {
    assert Plan([], Init(0.0), r, calls);
  }

  lemma PathStep(s: State, step: Step, r: Rule, calls: nat)
    requires Path(s, r, calls) && (step.Enter? ==> step.rules == [r]) && |Apply(s, step).pending| <= calls
    ensures Path(Apply(s, step), r, calls)
  {
    hide AtMost, Run, Apply;
    var steps :| Plan(steps, s, r, calls);
    RunMore(Init(0.0), steps, step, calls);
    assert Plan(steps + [step], Apply(s, step), r, calls);
  }

  // ----- scenes: the calls under way are those of threads 0, 1, 2, ...

  datatype Scene = Scene(ats: seq<real>, phases: seq<Phase>, deque: seq<real>, recorded: seq<real>, now: real)

  ghost predicate Shows(s: State, sc: Scene, r: Rule) {
    && |sc.ats| == |sc.phases| == |s.pending| && s.now == sc.now
    && Get(s.hits, r.key) == sc.deque && Get(s.recorded, r.key) == sc.recorded
    && (forall th: Thread :: th in s.pending <==> th < |sc.ats|)
    && (forall th | th in s.pending :: s.pending[th] == Pending([r], sc.ats[th], sc.phases[th]))
  }

  ghost predicate Reached(sc: Scene, r: Rule, calls: nat) {
    |sc.ats| == |sc.phases| <= calls && exists s :: Path(s, r, calls) && Shows(s, sc, r)
  }

  function Put(sc: Scene, i: nat, phase: Phase): Scene
    requires i < |sc.phases|
  {
    sc.(phases := sc.phases[i := phase])
  }

  /** Thread i has gone on to another phase. */
  lemma Gone(s: State, after: State, sc: Scene, i: nat, phase: Phase, deque: seq<real>, r: Rule, calls: nat)
    requires |sc.ats| <= calls && Shows(s, sc, r) && Path(after, r, calls) && i < |sc.ats|
    requires after.pending == s.pending[i := Pending([r], sc.ats[i], phase)] && after.now == s.now
    requires Get(after.hits, r.key) == deque && after.recorded == s.recorded
    ensures Reached(Put(sc.(deque := deque), i, phase), r, calls)
  {
    hide Path;
    assert Shows(after, Put(sc.(deque := deque), i, phase), r);
  }

  /** The state that shows a scene, and its next one. */
  lemma Unfold(sc: Scene, i: nat, r: Rule, calls: nat) returns (s: State, after: State)
    requires Reached(sc, r, calls) && i < |sc.ats|
    ensures Path(s, r, calls) && Shows(s, sc, r) && after == Apply(s, Go(i)) == Advance(s, i) && |s.pending| == |sc.ats|
    ensures i in s.pending && s.pending[i] == Pending([r], sc.ats[i], sc.phases[i]) && Get(s.hits, r.key) == sc.deque
  {
    s :| Path(s, r, calls) && Shows(s, sc, r);
    after := Apply(s, Go(i));
  }

  lemma Tests(sc: Scene, i: nat, r: Rule, calls: nat) returns (after: Scene)
    requires Reached(sc, r, calls) && i < |sc.ats| && sc.phases[i] == Checking(0)
    requires sc.deque != [] && sc.deque[0] <= sc.ats[i] - r.window
    ensures Reached(after, r, calls) && after == Put(sc, i, Popping(0))
  {
    after := Put(sc, i, Popping(0));
    var s, next := Unfold(sc, i, r, calls);
    hide Path, Shows, Reached;
    PathStep(s, Go(i), r, calls);
    Gone(s, next, sc, i, Popping(0), sc.deque, r, calls);
  }

  lemma Pops(sc: Scene, i: nat, r: Rule, calls: nat) returns (after: Scene)
    requires Reached(sc, r, calls) && i < |sc.ats| && sc.phases[i] == Popping(0) && sc.deque != []
    ensures Reached(after, r, calls) && after == Put(sc.(deque := sc.deque[1..]), i, Checking(0))
  {
    after := Put(sc.(deque := sc.deque[1..]), i, Checking(0));
    var s, next := Unfold(sc, i, r, calls);
    hide Path, Shows, Reached;
    PathStep(s, Go(i), r, calls);
    Gone(s, next, sc, i, Checking(0), sc.deque[1..], r, calls);
  }

  lemma Passes(sc: Scene, i: nat, r: Rule, calls: nat) returns (after: Scene)
    requires Reached(sc, r, calls) && i < |sc.ats| && sc.phases[i] == Checking(0)
    requires |sc.deque| < r.limit && (sc.deque != [] ==> sc.deque[0] > sc.ats[i] - r.window)
    ensures Reached(after, r, calls) && after == Put(sc, i, Checking(1))
  {
    after := Put(sc, i, Checking(1));
    var s, next := Unfold(sc, i, r, calls);
    hide Path, Shows, Reached;
    PathStep(s, Go(i), r, calls);
    Gone(s, next, sc, i, Checking(1), sc.deque, r, calls);
  }

  lemma Enters(sc: Scene, t: real, r: Rule, calls: nat) returns (after: Scene)
    requires Reached(sc, r, calls) && |sc.ats| < calls && t >= sc.now
    ensures Reached(after, r, calls) && after == sc.(ats := sc.ats + [t], phases := sc.phases + [Checking(0)], now := t)
  {
    after := sc.(ats := sc.ats + [t], phases := sc.phases + [Checking(0)], now := t);
    hide Path, Get, Apply;
    var s :| Path(s, r, calls) && Shows(s, sc, r);
    EnterTurn(s, |sc.ats|, r, t);
    PathStep(s, Enter(|sc.ats|, [r], t), r, calls);
    ShowsMore(s, sc, r, t);
  }

  lemma EnterTurn(s: State, th: Thread, r: Rule, t: real)
    requires th !in s.pending && t >= s.now
    ensures Apply(s, Enter(th, [r], t)) == s.(pending := s.pending[th := Pending([r], t, Checking(0))], now := t)
    ensures |s.pending[th := Pending([r], t, Checking(0))]| == |s.pending| + 1
  {
  }

  lemma ShowsMore(s: State, sc: Scene, r: Rule, t: real)
    requires Shows(s, sc, r)
    ensures Shows(s.(pending := s.pending[|sc.ats| := Pending([r], t, Checking(0))], now := t),
                  sc.(ats := sc.ats + [t], phases := sc.phases + [Checking(0)], now := t), r)
  {
    hide Get;
  }

  /** The call appends and is over; its thread calls again at t. */
  function Again(sc: Scene, i: nat, t: real): Scene
    requires i < |sc.ats| == |sc.phases|
  {
    Scene(sc.ats[i := t], sc.phases[i := Checking(0)], sc.deque + [sc.ats[i]], sc.recorded + [sc.ats[i]], t)
  }

  lemma Records(sc: Scene, i: nat, t: real, r: Rule, calls: nat) returns (after: Scene)
    requires Reached(sc, r, calls) && i < |sc.ats| && sc.phases[i] == Checking(1) && t >= sc.now
    ensures Reached(after, r, calls) && after == Again(sc, i, t)
  {
    after := Again(sc, i, t);
    hide Path, Apply, Append, Get;
    var s :| Path(s, r, calls) && Shows(s, sc, r);
    RecordTurns(s, i, r, sc.ats[i], t);
    var a := Apply(s, Go(i));
    PathStep(s, Go(i), r, calls);
    var b := Apply(a, Go(i));
    PathStep(a, Go(i), r, calls);
    var c := Apply(b, Go(i));
    PathStep(b, Go(i), r, calls);
    PathStep(c, Enter(i, [r], t), r, calls);
    ShowsAgain(s, sc, i, t, r);
  }

  lemma ShowsAgain(s: State, sc: Scene, i: nat, t: real, r: Rule)
    requires Shows(s, sc, r) && i < |sc.ats|
    ensures Shows(State(Append(s.hits, r.key, sc.ats[i]), s.pending[i := Pending([r], t, Checking(0))], t,
                        Append(s.recorded, r.key, sc.ats[i])), Again(sc, i, t), r)
  {
    AppendGet(s.hits, r.key, sc.ats[i]);
    AppendGet(s.recorded, r.key, sc.ats[i]);
    hide Get, Append;
  }

  lemma AppendGet(hits: Hits, key: string, t: real)
    ensures Get(Append(hits, key, t), key) == Get(hits, key) + [t]
  {
  }

  lemma RecordTurns(s: State, i: nat, r: Rule, at: real, t: real)
    requires i in s.pending && s.pending[i] == Pending([r], at, Checking(1)) && t >= s.now
    ensures var a := Apply(s, Go(i));
            var b := Apply(a, Go(i));
            var c := Apply(b, Go(i));
            && |a.pending| == |b.pending| == |s.pending| && |c.pending| == |s.pending| - 1
            && Apply(c, Enter(i, [r], t))
               == State(Append(s.hits, r.key, at), s.pending[i := Pending([r], t, Checking(0))], t, Append(s.recorded, r.key, at))
  {
    hide Append;
    var a := Apply(s, Go(i));
    assert a == s.(pending := s.pending[i := Pending([r], at, Recording(0))]);
    var b := Apply(a, Go(i));
    assert b == State(Append(s.hits, r.key, at), s.pending[i := Pending([r], at, Recording(1))], s.now, Append(s.recorded, r.key, at));
    var c := Apply(b, Go(i));
    hide Advance, Check, Pop;
    assert c == Leave(b, i);
    assert c.pending.Keys == s.pending.Keys - {i};
    assert c.pending[i := Pending([r], t, Checking(0))] == s.pending[i := Pending([r], t, Checking(0))];
  }

  // ----- a run that reaches the bound

  function At(r: Rule, i: nat): real {
    i as real * r.window
  }

  lemma AtOrder(r: Rule, i: nat, j: nat)
    requires i <= j && r.window > 0.0
    ensures At(r, i) <= At(r, j) && At(r, i + 1) == At(r, i) + r.window && At(r, 0) == 0.0
  {
    assert (j as real - i as real) * r.window >= 0.0;
  }

  /** How many recorded hits lie in the window that ends at At(r, calls). */
  function Held(sc: Scene, r: Rule, calls: nat): nat
    requires calls >= 1
  {
    CountIn(sc.recorded, At(r, calls - 1), At(r, calls))
  }

  /** The same scene, but for the phases of thread i and those after it, which are now this one. */
  ghost predicate FromOn(sc: Scene, after: Scene, i: nat, phase: Phase) {
    && after == sc.(phases := after.phases) && |after.phases| == |sc.phases|
    && (forall o: nat | o < i && o < |sc.phases| :: after.phases[o] == sc.phases[o])
    && (forall o: nat | i <= o < |sc.phases| :: after.phases[o] == phase)
  }

  /** All test the same head. */
  lemma {:induction false} TestsFrom(sc: Scene, i: nat, r: Rule, calls: nat) returns (after: Scene)
    requires Reached(sc, r, calls) && |sc.ats| == |sc.phases| && i <= |sc.ats| && sc.deque != []
    requires forall o | i <= o < |sc.ats| :: sc.phases[o] == Checking(0) && sc.deque[0] <= sc.ats[o] - r.window
    ensures Reached(after, r, calls) && FromOn(sc, after, i, Popping(0))
    decreases |sc.ats| - i
  {
    hide Reached;
    after := sc;
    if i < |sc.ats| {
      after := Tests(sc, i, r, calls);
      after := TestsFrom(after, i + 1, r, calls);
    }
  }

  /** All pass on the same deque. */
  lemma {:induction false} PassesFrom(sc: Scene, i: nat, r: Rule, calls: nat) returns (after: Scene)
    requires Reached(sc, r, calls) && |sc.ats| == |sc.phases| && i <= |sc.ats| && |sc.deque| < r.limit
    requires forall o | i <= o < |sc.ats| ::
               sc.phases[o] == Checking(0) && (sc.deque != [] ==> sc.deque[0] > sc.ats[o] - r.window)
    ensures Reached(after, r, calls) && FromOn(sc, after, i, Checking(1))
    decreases |sc.ats| - i
  {
    hide Reached;
    after := sc;
    if i < |sc.ats| {
      after := Passes(sc, i, r, calls);
      after := PassesFrom(after, i + 1, r, calls);
    }
  }

  /** A call of the window's last moment appends. */
  lemma RecordsLast(sc: Scene, i: nat, t: real, r: Rule, calls: nat) returns (after: Scene)
    requires Reached(sc, r, calls) && i < |sc.ats| == |sc.phases| && sc.ats[i] == At(r, calls)
    requires sc.phases[i] == Checking(1)
    requires t >= sc.now && r.window > 0.0 && calls >= 1
    ensures Reached(after, r, calls) && after == Again(sc, i, t) && Held(after, r, calls) == Held(sc, r, calls) + 1
  {
    hide Reached, At, CountIn;
    after := Records(sc, i, t, r, calls);
    AtOrder(r, calls - 1, calls);
    CountPush(sc.recorded, At(r, calls), At(r, calls - 1), At(r, calls));
  }

  /** Every hit in the deque is of the window's last moment. */
  ghost predicate AllLast(sc: Scene, r: Rule, calls: nat) {
    forall i | 0 <= i < |sc.deque| :: sc.deque[i] == At(r, calls)
  }

  /** All append, and call again at t. */
  lemma {:induction false} RecordsFrom(sc: Scene, i: nat, t: real, r: Rule, calls: nat) returns (after: Scene)
    requires Reached(sc, r, calls) && |sc.ats| == |sc.phases| && i <= |sc.ats| && AllLast(sc, r, calls)
    requires forall o | i <= o < |sc.ats| :: sc.ats[o] == At(r, calls) && sc.phases[o] == Checking(1)
    requires t >= sc.now && r.window > 0.0 && calls >= 1
    ensures Reached(after, r, calls) && |after.ats| == |after.phases| == |sc.ats| && AllLast(after, r, calls)
    ensures forall o: nat | o < |sc.ats| ::
              after.ats[o] == (if o < i then sc.ats[o] else t) && after.phases[o] == (if o < i then sc.phases[o] else Checking(0))
    ensures |after.deque| == |sc.deque| + |sc.ats| - i && Held(after, r, calls) == Held(sc, r, calls) + |sc.ats| - i
    ensures after.now == if i < |sc.ats| then t else sc.now
    decreases |sc.ats| - i
  {
    hide Reached, At, Held;
    after := sc;
    if i < |sc.ats| {
      after := RecordsLast(sc, i, t, r, calls);
      after := RecordsFrom(after, i + 1, t, r, calls);
    }
  }

  /** Thread 0 appends hit after hit, and every other thread, having tested an older head, pops one of them. */
  lemma {:induction false} LosesFrom(sc: Scene, i: nat, r: Rule, calls: nat) returns (after: Scene)
    requires Reached(sc, r, calls) && |sc.ats| == |sc.phases| && 1 <= i <= |sc.ats| && sc.deque == []
    requires sc.ats[0] == At(r, calls) && sc.phases[0] == Checking(0) && sc.now == At(r, calls)
    requires forall o | i <= o < |sc.ats| :: sc.phases[o] == Popping(0)
    requires r.window > 0.0 && r.limit >= 1 && calls >= 1
    ensures Reached(after, r, calls) && after == sc.(phases := after.phases, recorded := after.recorded)
    ensures FromOn(sc, after.(recorded := sc.recorded), i, Checking(0))
    ensures Held(after, r, calls) == Held(sc, r, calls) + |sc.ats| - i
    decreases |sc.ats| - i
  {
    hide Reached, At, Held;
    after := sc;
    if i < |sc.ats| {
      var passed := Passes(sc, 0, r, calls);
      SameHeld(sc, passed, r, calls);
      var added := RecordsLast(passed, 0, sc.now, r, calls);
      var popped := Pops(added, i, r, calls);
      SameHeld(added, popped, r, calls);
      after := LosesFrom(popped, i + 1, r, calls);
    }
  }

  lemma SameHeld(sc: Scene, other: Scene, r: Rule, calls: nat)
    requires sc.recorded == other.recorded && calls >= 1
    ensures Held(sc, r, calls) == Held(other, r, calls)
  {
  }

  /** Threads before j call at the window's last moment; thread j and those after it called long ago. */
  ghost predicate Round(sc: Scene, j: nat, r: Rule, calls: nat) {
    && |sc.ats| == |sc.phases| == calls && sc.deque == [] && sc.now <= At(r, calls)
    && (forall o: nat | o < calls :: sc.phases[o] == Checking(0) && sc.ats[o] == if o < j then At(r, calls) else At(r, o))
  }

  /** Thread j appends its late hit. Everybody tests it, thread 0 pops it, and the others pop what thread 0 appends. */
  lemma NextRound(sc: Scene, j: nat, r: Rule, calls: nat) returns (after: Scene)
    requires Reached(sc, r, calls) && Round(sc, j, r, calls) && j < calls && r.window > 0.0 && r.limit >= 1
    ensures Reached(after, r, calls) && Round(after, j + 1, r, calls)
    ensures Held(after, r, calls) == Held(sc, r, calls) + calls - 1
  {
    hide Reached, At;
    var passed := Passes(sc, j, r, calls);
    var late := Records(passed, j, At(r, calls), r, calls);
    AtOrder(r, j, calls - 1);
    CountPush(sc.recorded, At(r, j), At(r, calls - 1), At(r, calls));
    forall o: nat | o < calls
      ensures late.deque[0] <= late.ats[o] - r.window
    {
      AtOrder(r, j, if o <= j then calls - 1 else o - 1);
      AtOrder(r, calls - 1, calls);
      if o > j {
        AtOrder(r, o - 1, o);
      }
    }
    var tested := TestsFrom(late, 0, r, calls);
    var popped := Pops(tested, 0, r, calls);
    after := LosesFrom(popped, 1, r, calls);
  }

  lemma {:induction false} Rounds(sc: Scene, j: nat, r: Rule, calls: nat) returns (after: Scene)
    requires Reached(sc, r, calls) && Round(sc, j, r, calls) && j <= calls && calls >= 1 && r.window > 0.0
    requires r.limit >= 1
    ensures Reached(after, r, calls) && Round(after, calls, r, calls)
    ensures Held(after, r, calls) == Held(sc, r, calls) + Turns(calls, calls - j)
    decreases calls - j
  {
    hide Reached, Round, Held;
    after := sc;
    if j < calls {
      after := NextRound(sc, j, r, calls);
      TurnsGrow(calls, calls - j - 1, calls - j);
      after := Rounds(after, j + 1, r, calls);
    }
  }

  lemma {:induction false} EntersAll(n: nat, r: Rule, calls: nat) returns (sc: Scene)
    requires n <= calls && r.window > 0.0
    ensures Reached(sc, r, calls) && |sc.ats| == |sc.phases| == n && sc.deque == sc.recorded == []
    ensures sc.now == if n == 0 then 0.0 else At(r, n - 1)
    ensures forall o: nat | o < n :: sc.phases[o] == Checking(0) && sc.ats[o] == At(r, o)
  {
    hide Reached, At, Shows, Path;
    if n == 0 {
      sc := Scene([], [], [], [], 0.0);
      NobodyIn(r, calls);
    } else {
      var before := EntersAll(n - 1, r, calls);
      AtOrder(r, if n == 1 then 0 else n - 2, n - 1);
      sc := Enters(before, At(r, n - 1), r, calls);
    }
  }

  lemma NobodyIn(r: Rule, calls: nat)
    ensures Reached(Scene([], [], [], [], 0.0), r, calls)
  {
    hide Path;
    PathStart(r, calls);
    assert Shows(Init(0.0), Scene([], [], [], [], 0.0), r);
  }

  /** Every thread is about to check a deque of k hits, all of the window's last moment. */
  ghost predicate Idle(sc: Scene, k: nat, r: Rule, calls: nat) {
    && |sc.ats| == |sc.phases| == calls && sc.now <= At(r, calls) && AllLast(sc, r, calls) && |sc.deque| == k
    && forall o: nat | o < calls :: sc.phases[o] == Checking(0) && sc.ats[o] == At(r, calls)
  }

  lemma {:induction false} Fill(sc: Scene, k: nat, r: Rule, calls: nat) returns (after: Scene)
    requires Reached(sc, r, calls) && Idle(sc, k, r, calls) && k < r.limit && calls >= 1 && r.window > 0.0
    ensures Reached(after, r, calls) && Idle(after, r.limit - 1, r, calls)
    ensures Held(after, r, calls) == Held(sc, r, calls) + r.limit - 1 - k
    decreases r.limit - k
  {
    hide Reached, At, Held;
    after := sc;
    if k + 1 < r.limit {
      var passed := Passes(sc, 0, r, calls);
      SameHeld(sc, passed, r, calls);
      after := RecordsLast(passed, 0, At(r, calls), r, calls);
      after := Fill(after, k + 1, r, calls);
    }
  }

  /** Thread 0 pops everything. */
  lemma {:induction false} Prunes(sc: Scene, r: Rule, calls: nat)
    requires Reached(sc, r, calls) && |sc.ats| == |sc.phases| == calls >= 1 && AllLast(sc, r, calls)
    requires sc.phases[0] == Checking(0) && At(r, calls) <= sc.ats[0] - r.window
    ensures Reached(sc.(deque := []), r, calls)
    decreases |sc.deque|
  {
    hide Reached, At;
    if sc.deque != [] {
      var tested := Tests(sc, 0, r, calls);
      var popped := Pops(tested, 0, r, calls);
      assert popped == sc.(deque := sc.deque[1..]) by {
        assert sc.phases[0 := Popping(0)][0 := Checking(0)] == sc.phases;
      }
      Prunes(popped, r, calls);
    }
  }

  /**
   All threads pass on the same nearly full deque and append. Thread 0 calls again a window later and prunes, while the
   others have called again within the window; they pass on the empty deque, and append.
   */
  lemma Finish(sc: Scene, r: Rule, calls: nat) returns (after: Scene)
    requires Reached(sc, r, calls) && r.limit >= 1 && Idle(sc, r.limit - 1, r, calls) && calls >= 1 && r.window > 0.0
    ensures Reached(after, r, calls) && Held(after, r, calls) == Held(sc, r, calls) + 2 * calls - 1
  {
    hide Reached, At, Held;
    AtOrder(r, calls, calls + 1);
    var passed := PassesFrom(sc, 0, r, calls);
    SameHeld(sc, passed, r, calls);
    var one := RecordsFrom(passed, 1, At(r, calls), r, calls);
    var all := RecordsLast(one, 0, At(r, calls + 1), r, calls);
    Prunes(all, r, calls);
    var pruned := all.(deque := []);
    var late := PassesFrom(pruned, 1, r, calls);
    SameHeld(all, late, r, calls);
    after := RecordsFrom(late, 1, At(r, calls + 1), r, calls);
  }

  lemma PlanOf(sc: Scene, r: Rule, calls: nat) returns (steps: seq<Step>)
    requires Reached(sc, r, calls)
    ensures Uses(steps, r) && AtMost(Init(0.0), steps, calls)
    ensures Get(Run(Init(0.0), steps).recorded, r.key) == sc.recorded
  {
    hide Run, AtMost, Uses;
    var s :| Path(s, r, calls) && Shows(s, sc, r);
    steps :| Plan(steps, s, r, calls);
  }

  lemma NothingHeld(sc: Scene, r: Rule, calls: nat)
    requires sc.recorded == [] && calls >= 1
    ensures Held(sc, r, calls) == 0
  {
  }

  lemma HeldIs(steps: seq<Step>, sc: Scene, r: Rule, calls: nat)
    requires Get(Run(Init(0.0), steps).recorded, r.key) == sc.recorded && calls >= 1
    ensures Count(Run(Init(0.0), steps).recorded, Span(r.key, At(r, calls - 1), At(r, calls))) == Held(sc, r, calls)
  {
  }

  /** For every limit, window and number of calls: a run that leaves exactly the bound in one window. */
  lemma BoundIsAttained(r: Rule, calls: nat) returns (steps: seq<Step>)
    requires r.limit >= 1 && r.window > 0.0 && calls >= 1
    ensures Uses(steps, r) && AtMost(Init(0.0), steps, calls)
    ensures Count(Run(Init(0.0), steps).recorded, Span(r.key, At(r, calls - 1), At(r, calls))) == r.limit + Excess(calls)
  {
    hide Held, At, Run, AtMost, Uses, Reached, Turns, Excess;
    var sc := EntersAll(calls, r, calls);
    AtOrder(r, calls - 1, calls);
    NothingHeld(sc, r, calls);
    sc := Rounds(sc, 0, r, calls);
    sc := Fill(sc, 0, r, calls);
    sc := Finish(sc, r, calls);
    ExcessIs(calls);
    steps := PlanOf(sc, r, calls);
    HeldIs(steps, sc, r, calls);
  }

  // ----- how many hits a window can hold, exactly

  /** An interleaving of at most `calls` calls at a time, with one limit and one window for each key. */
  ghost predicate Interleaving(now: real, steps: seq<Step>, limits: string -> int, windows: string -> real,
                               calls: nat) {
    (forall step | step in steps :: Legal(step, limits, windows)) && AtMost(Init(now), steps, calls)
  }

  /** No interleaving leaves more than b hits in an interval that is no longer than the key's window. */
  ghost predicate NeverMore(key: string, limits: string -> int, windows: string -> real, calls: nat, b: int) {
    forall now, steps, w: Span | Interleaving(now, steps, limits, windows, calls) && w.key == key && w.hi <= w.lo + windows(key) ::
      Count(Run(Init(now), steps).recorded, w) <= b
  }

  /** The bound is the least there is. */
  lemma BoundIsExact(key: string, limits: string -> int, windows: string -> real, calls: nat, b: int)
    requires limits(key) >= 1 && windows(key) > 0.0 && calls >= 1
    ensures NeverMore(key, limits, windows, calls, b) <==> limits(key) + Excess(calls) <= b
  {
    hide Excess, Run, At;
    if limits(key) + Excess(calls) <= b {
      forall now, steps, w: Span | Interleaving(now, steps, limits, windows, calls) && w.key == key && w.hi <= w.lo + windows(key)
        ensures Count(Run(Init(now), steps).recorded, w) <= b
      {
        OverlapBound(now, steps, w, limits, windows, calls);
      }
    }
    if NeverMore(key, limits, windows, calls, b) {
      var r := Rule(key, limits(key), windows(key));
      var steps := BoundIsAttained(r, calls);
      AtOrder(r, calls - 1, calls);
      assert Interleaving(0.0, steps, limits, windows, calls);
    }
  }

  /** A key keeps within its limit in every interleaving of so many calls if and only if they cannot overlap. */
  lemma LimitHoldsExactly(key: string, limits: string -> int, windows: string -> real, calls: nat)
    requires limits(key) >= 1 && windows(key) > 0.0 && calls >= 1
    ensures NeverMore(key, limits, windows, calls, limits(key)) <==> calls == 1
  {
    hide NeverMore;
    BoundIsExact(key, limits, windows, calls, limits(key));
    assert calls > 1 ==> Excess(calls) > 0 by {
      ExcessIs(calls);
    }
  }

  // ----- one such run in full

  function One(): Rule {
    Rule("k", 1, 60.0)
  }

  /** Two calls both pass the check before either appends. */
  lemma BothRecord() returns (sc: Scene)
    ensures Reached(sc, One(), 2)
    ensures sc == Scene([60.0, 60.0], [Checking(0), Checking(0)], [0.0, 0.0], [0.0, 0.0], 60.0)
  {
    hide Reached;
    sc := Scene([], [], [], [], 0.0);
    NobodyIn(One(), 2);
    sc := Enters(sc, 0.0, One(), 2);
    sc := Enters(sc, 0.0, One(), 2);
    sc := Passes(sc, 0, One(), 2);
    sc := Passes(sc, 1, One(), 2);
    sc := Records(sc, 0, 60.0, One(), 2);
    sc := Records(sc, 1, 60.0, One(), 2);
  }

  /** Thread 0 stalls before its second pop, and pops the hit that thread 1 has appended since. Both pass. */
  lemma StalePop() returns (sc: Scene)
    ensures Reached(sc, One(), 2)
    ensures sc == Scene([60.0, 61.0], [Checking(1), Checking(1)], [], [0.0, 0.0, 60.0], 61.0)
  {
    hide Reached;
    sc := BothRecord();
    sc := Tests(sc, 0, One(), 2);
    sc := Pops(sc, 0, One(), 2);
    sc := Tests(sc, 0, One(), 2);
    sc := Tests(sc, 1, One(), 2);
    sc := Pops(sc, 1, One(), 2);
    sc := Passes(sc, 1, One(), 2);
    sc := Records(sc, 1, 61.0, One(), 2);
    sc := Pops(sc, 0, One(), 2);
    sc := Passes(sc, 1, One(), 2);
    sc := Passes(sc, 0, One(), 2);
  }

  /** Thread 0 stalls after reading the clock, and checks once thread 1 has pruned. */
  lemma LateCheck() returns (sc: Scene)
    ensures Reached(sc, One(), 2) && sc.recorded == [0.0, 0.0, 60.0, 60.0, 61.0, 119.5]
  {
    hide Reached;
    sc := StalePop();
    sc := Records(sc, 0, 119.5, One(), 2);
    sc := Records(sc, 1, 121.0, One(), 2);
    sc := Tests(sc, 1, One(), 2);
    sc := Pops(sc, 1, One(), 2);
    sc := Tests(sc, 1, One(), 2);
    sc := Pops(sc, 1, One(), 2);
    sc := Passes(sc, 0, One(), 2);
    sc := Records(sc, 0, 121.0, One(), 2);
  }

  /**
   Two threads, a limit of one and a window of 60 seconds: four hits in the window (59.75, 119.75]. The one thread that
   stalls before a pop has popped just before, so this is also a run of an interpreter that lets other threads run
   between a loop's test and its next turn, but not before its first.
   */
  lemma JumpBack() returns (steps: seq<Step>)
    ensures Uses(steps, One()) && AtMost(Init(0.0), steps, 2)
    ensures Count(Run(Init(0.0), steps).recorded, Span("k", 59.75, 119.75)) == 4
  {
    hide Reached, Run, AtMost;
    var sc := LateCheck();
    steps := PlanOf(sc, One(), 2);
    assert sc.recorded == [] + [0.0] + [0.0] + [60.0] + [60.0] + [61.0] + [119.5];
    CountPush([], 0.0, 59.75, 119.75);
    CountPush([] + [0.0], 0.0, 59.75, 119.75);
    CountPush([] + [0.0] + [0.0], 60.0, 59.75, 119.75);
    CountPush([] + [0.0] + [0.0] + [60.0], 60.0, 59.75, 119.75);
    CountPush([] + [0.0] + [0.0] + [60.0] + [60.0], 61.0, 59.75, 119.75);
    CountPush([] + [0.0] + [0.0] + [60.0] + [60.0] + [61.0], 119.5, 59.75, 119.75);
  }
}
