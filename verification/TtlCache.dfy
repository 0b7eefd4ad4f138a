/**
 The keyed TTL cache of the data API. `cached_value` reads without the lock, and on a miss takes the one lock,
 looks again and recomputes under it; `warm_value` recomputes without the lock and takes it only to store.
 Threads interleave between the lock sections, and computations take as long as they like.
 */
module TtlCache {
  import opened Options
  import FiniteSums

  type Key = string
  type Thread = nat

  /** A finished computation: the key, the clock reading its thread took on entry, and that thread's ttl. */
  datatype Computed = Computed(key: Key, sample: real, ttl: real)

  datatype Slot = Slot(value: Computed, expires: real)

  type Slots = map<Key, Slot>

  predicate Fresh(slots: Slots, key: Key, t: real) {
    key in slots && t < slots[key].expires
  }

  function Put(slots: Slots, c: Computed): Slots {
    slots[c.key := Slot(c, c.sample + c.ttl)]
  }

  /** The cache as one thread alone sees it: each method does what its steps do when nobody else takes one. */
  class Cache {
    var slots: Slots

    constructor ()
      ensures slots == map[]
    {
      slots := map[];
    }

    method CachedValue(key: Key, ttl: real, t: real) returns (value: Computed, recomputed: bool)
      modifies this
      ensures recomputed <==> !Fresh(old(slots), key, t)
      ensures recomputed ==> value == Computed(key, t, ttl) && slots == Put(old(slots), value)
      ensures !recomputed ==> slots == old(slots) && key in slots && value == slots[key].value
      ensures ttl > 0.0 ==>
        var want := Computed(key, t, ttl);
        var s := Run(Quiet(old(slots), t), Solo(0, want));
        slots == s.slots && s.answers == [Answer(want, value)] && s.recomputed == if recomputed then [want] else []
    {
      if ttl > 0.0 {
        ReadAlone(slots, Computed(key, t, ttl));
      }
      if key in slots && t < slots[key].expires {
        return slots[key].value, false;
      }
      value := Computed(key, t, ttl);
      slots := slots[key := Slot(value, t + ttl)];
      return value, true;
    }

    method WarmValue(key: Key, ttl: real, t: real) returns (value: Computed)
      modifies this
      ensures value == Computed(key, t, ttl) && slots == Put(old(slots), value)
      ensures forall r :: Fresh(slots, key, r) <==> r < t + ttl
      ensures ttl > 0.0 ==>
        slots == Run(Quiet(old(slots), t), [Move(0, StartWarm(key, ttl, t)), Move(0, StoreWarm)]).slots
    {
      if ttl > 0.0 {
        WarmAlone(slots, Computed(key, t, ttl));
      }
      value := Computed(key, t, ttl);
      slots := slots[key := Slot(value, t + ttl)];
    }
  }

  // ----- threads

  /** Where a thread stands. Every thread past `Idle` carries its key, its ttl and its clock reading. */
  datatype Pc =
    | Idle
    | Entered(want: Computed)     // cached_value: clock read, slot not yet looked at
    | Waiting(want: Computed)     // missed outside the lock
    | Locked(want: Computed)      // has the lock, has not looked again
    | Computing(want: Computed)   // has the lock, missed again, computes
    | Warming(want: Computed)     // warm_value: computes without the lock

  /** What a reader wanted and what it was handed. */
  datatype Answer = Answer(want: Computed, value: Computed)

  datatype State = State(slots: Slots, lock: Option<Thread>, pcs: map<Thread, Pc>,
                         recomputed: seq<Computed>,  // by cached_value, in the order they were stored
                         answers: seq<Answer>,       // what cached_value returned
                         now: real)                  // the last clock reading

  /** A cache that no thread is working on. */
  function Quiet(slots: Slots, now: real): State {
    State(slots, None, map[], [], [], now)
  }

  function Init(now: real): State {
    Quiet(map[], now)
  }

  /** One atomic step of one thread. A step that is not enabled changes nothing. */
  datatype Step =
    | Enter(key: Key, ttl: real, t: real)
    | Look
    | Acquire
    | LookAgain
    | Store
    | Fail          // compute() raises
    | StartWarm(key: Key, ttl: real, t: real)
    | StoreWarm

  function PcOf(s: State, i: Thread): Pc {
    if i in s.pcs then s.pcs[i] else Idle
  }

  function Goto(s: State, i: Thread, pc: Pc): State {
    s.(pcs := s.pcs[i := pc])
  }

  function Return(s: State, i: Thread, want: Computed, value: Computed): State {
    Goto(s, i, Idle).(answers := s.answers + [Answer(want, value)])
  }

  function Apply(s: State, i: Thread, step: Step): State {
    match (step, PcOf(s, i))
    case (Enter(key, ttl, t), Idle) => if ttl > 0.0 then Goto(s, i, Entered(Computed(key, t, ttl))).(now := t) else s
    case (Look, Entered(w)) =>
      if Fresh(s.slots, w.key, w.sample) then Return(s, i, w, s.slots[w.key].value)
      else Goto(s, i, Waiting(w))
    case (Acquire, Waiting(w)) => if s.lock.None? then Goto(s, i, Locked(w)).(lock := Some(i)) else s
    case (LookAgain, Locked(w)) =>
      if Fresh(s.slots, w.key, w.sample) then Return(s, i, w, s.slots[w.key].value).(lock := None)
      else Goto(s, i, Computing(w))
    case (Store, Computing(w)) =>
      Return(s, i, w, w).(slots := Put(s.slots, w), lock := None, recomputed := s.recomputed + [w])
    case (Fail, Computing(w)) => Goto(s, i, Idle).(lock := None)
    case (StartWarm(key, ttl, t), Idle) => if ttl > 0.0 then Goto(s, i, Warming(Computed(key, t, ttl))).(now := t) else s
    case (StoreWarm, Warming(w)) => if s.lock.None? then Goto(s, i, Idle).(slots := Put(s.slots, w)) else s
    case (Fail, Warming(w)) => Goto(s, i, Idle)
    case _ => s
  }

  datatype Move = Move(thread: Thread, step: Step)

  function Run(s: State, moves: seq<Move>): State
    decreases |moves|
  {
    if moves == [] then s else Run(Apply(s, moves[0].thread, moves[0].step), moves[1..])
  }

  function Expiry(c: Computed): real {
    c.sample + c.ttl
  }

  /** A thread in cached_value, which has read its clock. */
  predicate Reads(pc: Pc, key: Key) {
    !pc.Idle? && !pc.Warming? && pc.want.key == key
  }

  /**
   A reading from `lo` on but before `hi` that a reader of the key has taken or, with a clock never set
   back, may take.
   */
  ghost predicate ReadingIn(s: State, key: Key, lo: real, hi: real) {
    lo < hi && (s.now < hi || exists j :: j in s.pcs && Reads(s.pcs[j], key) && lo <= s.pcs[j].want.sample < hi)
  }

  /**
   Thread i is about to store a warmed value, and there may be a reading that finds it expired although a recomputation
   of the key that is already stored has not expired by then: the warmer read its clock first and finished last.
   */
  ghost predicate StoresLate(s: State, i: Thread) {
    PcOf(s, i).Warming? && s.lock.None? &&
    var w := PcOf(s, i).want;
    exists n :: 0 <= n < |s.recomputed| && s.recomputed[n].key == w.key && ReadingIn(s, w.key, Expiry(w), Expiry(s.recomputed[n]))
  }

  /** The step's clock reading, if it takes one, is not before the last. */
  predicate OnTime(s: State, step: Step) {
    step.Enter? || step.StartWarm? ==> step.t >= s.now
  }

  /** The clock is never set back, and no warmer stores late. */
  ghost predicate NoLateStore(s: State, moves: seq<Move>)
    decreases |moves|
  {
    moves == [] ||
    (OnTime(s, moves[0].step) && !(moves[0].step.StoreWarm? && StoresLate(s, moves[0].thread)) &&
     NoLateStore(Apply(s, moves[0].thread, moves[0].step), moves[1..]))
  }

  // ----- invariants

  predicate HoldsLock(pc: Pc) {
    pc.Locked? || pc.Computing?
  }

  /** At most one thread is in the locked part, and it is the one the lock names. */
  ghost predicate Excludes(s: State) {
    && (forall i | i in s.pcs :: HoldsLock(s.pcs[i]) <==> s.lock == Some(i))
    && (s.lock.Some? ==> s.lock.value in s.pcs)
  }

  ghost predicate WantsPositive(s: State) {
    forall i | i in s.pcs && s.pcs[i] != Idle :: s.pcs[i].want.ttl > 0.0
  }

  /** A lock holder that computes has missed. */
  ghost predicate Missed(s: State) {
    forall i | i in s.pcs && s.pcs[i].Computing? :: !Fresh(s.slots, s.pcs[i].want.key, s.pcs[i].want.sample)
  }

  /** Slots expire one ttl after their sample. */
  ghost predicate SlotsInv(s: State) {
    forall k | k in s.slots :: s.slots[k].value.key == k && s.slots[k].value.ttl > 0.0 &&
                               s.slots[k].expires == s.slots[k].value.sample + s.slots[k].value.ttl
  }

  ghost predicate LockInv(s: State) {
    Excludes(s) && WantsPositive(s) && Missed(s) && SlotsInv(s)
  }

  /** The value answers the reader's question and was sampled less than its ttl before the reader. */
  predicate NotStale(a: Answer) {
    a.value.key == a.want.key && a.want.sample - a.value.sample < a.value.ttl
  }

  ghost predicate AnswersInv(s: State) {
    forall i | 0 <= i < |s.answers| :: NotStale(s.answers[i])
  }

  /** Two recomputations of one key are sampled at least the earlier one's ttl apart. */
  ghost predicate Spaced(log: seq<Computed>) {
    forall i, j | 0 <= i < j < |log| && log[i].key == log[j].key :: log[j].sample >= log[i].sample + log[i].ttl
  }

  /** No slot expires before a recomputation of its key does. */
  ghost predicate Outlasts(s: State) {
    forall n | 0 <= n < |s.recomputed| ::
      s.recomputed[n].key in s.slots && Expiry(s.recomputed[n]) <= s.slots[s.recomputed[n].key].expires
  }

  /** A reading before a recomputation's expiry, taken or yet to come, finds the slot fresh. */
  ghost predicate Guards(s: State, c: Computed) {
    && (s.now < Expiry(c) ==> c.key in s.slots && Expiry(c) <= s.slots[c.key].expires)
    && (forall j | j in s.pcs && Reads(s.pcs[j], c.key) && s.pcs[j].want.sample < Expiry(c) ::
          Fresh(s.slots, c.key, s.pcs[j].want.sample))
  }

  ghost predicate Guarded(s: State) {
    Spaced(s.recomputed) && forall n | 0 <= n < |s.recomputed| :: Guards(s, s.recomputed[n])
  }

  lemma StepKeepsLock(s: State, i: Thread, step: Step)
    requires LockInv(s)
    ensures LockInv(Apply(s, i, step))
  {
    StepExcludes(s, i, step);
    StepMisses(s, i, step);
    StepKeepsSlots(s, i, step);
    hide *;
  }

  lemma StepExcludes(s: State, i: Thread, step: Step)
    requires Excludes(s)
    ensures Excludes(Apply(s, i, step))
  {
    hide Fresh, Put;
  }

  /** The slots change only while nobody computes, or by the one who does. */
  lemma StepMisses(s: State, i: Thread, step: Step)
    requires Excludes(s) && Missed(s)
    ensures Missed(Apply(s, i, step))
  {
    hide Fresh, Put;
  }

  lemma StepKeepsSlots(s: State, i: Thread, step: Step)
    requires WantsPositive(s) && SlotsInv(s)
    ensures WantsPositive(Apply(s, i, step)) && SlotsInv(Apply(s, i, step))
  {
    StepKeepsWants(s, i, step);
    hide WantsPositive;
    if (step.Store? && PcOf(s, i).Computing?) || (step.StoreWarm? && PcOf(s, i).Warming? && s.lock.None?) {
      StoredSlot(s, i, step);
      hide Apply, Put;
      PutKeepsSlots(s, PcOf(s, i).want);
    } else {
      OtherSteps(s, i, step);
      hide Apply;
    }
  }

  lemma StepKeepsWants(s: State, i: Thread, step: Step)
    requires WantsPositive(s)
    ensures WantsPositive(Apply(s, i, step))
    ensures !PcOf(s, i).Idle? ==> PcOf(s, i).want.ttl > 0.0
  {
    hide Fresh, Put;
  }

  lemma StoredSlot(s: State, i: Thread, step: Step)
    requires (step.Store? && PcOf(s, i).Computing?) || (step.StoreWarm? && PcOf(s, i).Warming? && s.lock.None?)
    ensures Apply(s, i, step).slots == Put(s.slots, PcOf(s, i).want)
  {
    hide Put;
  }

  lemma PutKeepsSlots(s: State, c: Computed)
    requires SlotsInv(s) && c.ttl > 0.0
    ensures SlotsInv(s.(slots := Put(s.slots, c)))
  {
  }

  lemma StepKeepsAnswers(s: State, i: Thread, step: Step)
    requires LockInv(s) && AnswersInv(s)
    ensures AnswersInv(Apply(s, i, step))
  {
  }

  /** Readers alone keep every slot from expiring before a recomputation of its key does, whatever the clock does. */
  lemma ReaderKeepsSlots(s: State, i: Thread, step: Step)
    requires LockInv(s) && Spaced(s.recomputed) && Outlasts(s) && !step.StoreWarm?
    ensures Spaced(Apply(s, i, step).recomputed) && Outlasts(Apply(s, i, step))
  {
    hide NotStale;
    if step.Store? && PcOf(s, i).Computing? {
      var w := PcOf(s, i).want;
      var after := Apply(s, i, Step.Store);
      assert after.recomputed == s.recomputed + [w] && after.slots == Put(s.slots, w);
      assert !Fresh(s.slots, w.key, w.sample) && w.ttl > 0.0;
      hide Apply, LockInv;
    } else {
      OtherSteps(s, i, step);
    }
  }

  lemma StepKeepsGuarded(s: State, i: Thread, step: Step)
    requires LockInv(s) && Guarded(s) && OnTime(s, step) && !(step.StoreWarm? && StoresLate(s, i))
    ensures Guarded(Apply(s, i, step))
  {
    if step.Store? && PcOf(s, i).Computing? {
      StoreKeepsGuarded(s, i);
    } else {
      var after := Apply(s, i, step);
      StepRecords(s, i, step);
      forall n | 0 <= n < |s.recomputed|
        ensures Guards(after, s.recomputed[n])
      {
        if step.StoreWarm? && PcOf(s, i).Warming? && s.lock.None? {
          WarmKeepsGuard(s, i, n);
        } else {
          OtherKeepsGuard(s, i, step, s.recomputed[n]);
        }
      }
      hide Apply, Guards;
    }
  }

  lemma StepRecords(s: State, i: Thread, step: Step)
    requires !(step.Store? && PcOf(s, i).Computing?)
    ensures Apply(s, i, step).recomputed == s.recomputed
  {
    hide Fresh, Put;
  }

  lemma OtherKeepsGuard(s: State, i: Thread, step: Step, c: Computed)
    requires Guards(s, c) && OnTime(s, step)
    requires !(step.Store? && PcOf(s, i).Computing?) && !(step.StoreWarm? && PcOf(s, i).Warming? && s.lock.None?)
    ensures Guards(Apply(s, i, step), c)
  {
    OtherSteps(s, i, step);
    OtherReaders(s, i, step, c.key);
    hide Apply, Put;
  }

  /** Readers are those from before and one that has just read the clock. */
  lemma OtherReaders(s: State, i: Thread, step: Step, key: Key)
    ensures var after := Apply(s, i, step);
            && (after.now == s.now || ((step.Enter? || step.StartWarm?) && after.now == step.t))
            && forall j | j in after.pcs && Reads(after.pcs[j], key) ::
                 (j in s.pcs && Reads(s.pcs[j], key) && after.pcs[j].want == s.pcs[j].want) ||
                 (step.Enter? && after.pcs[j].want.sample == step.t)
  {
    hide Fresh, Put;
  }

  lemma WarmKeepsGuard(s: State, i: Thread, n: nat)
    requires PcOf(s, i).Warming? && s.lock.None? && !StoresLate(s, i) && SlotsInv(s)
    requires n < |s.recomputed| && Guards(s, s.recomputed[n])
    ensures Guards(Apply(s, i, StoreWarm), s.recomputed[n])
  {
    var w, c := PcOf(s, i).want, s.recomputed[n];
    WarmSlots(s, i);
    OtherReaders(s, i, StoreWarm, c.key);
    hide Apply;
    if c.key == w.key {
      assert !ReadingIn(s, w.key, Expiry(w), Expiry(c));
    }
  }

  /** A reader that computes has missed, so every earlier recomputation has expired at its sample. */
  lemma StoreKeepsGuarded(s: State, i: Thread)
    requires LockInv(s) && Guarded(s) && PcOf(s, i).Computing?
    ensures Guarded(Apply(s, i, Step.Store))
  {
    var w := PcOf(s, i).want;
    var after := Apply(s, i, Step.Store);
    assert after.recomputed == s.recomputed + [w] && after.slots == Put(s.slots, w);
    assert !Fresh(s.slots, w.key, w.sample) && w.ttl > 0.0;
    OtherReaders(s, i, Step.Store, w.key);
  }

  lemma WarmSlots(s: State, i: Thread)
    requires PcOf(s, i).Warming? && s.lock.None?
    ensures var after := Apply(s, i, StoreWarm);
            after.slots == Put(s.slots, PcOf(s, i).want) && after.recomputed == s.recomputed && after.now == s.now && after.lock == None
  {
  }

  lemma OtherSteps(s: State, i: Thread, step: Step)
    requires !(step.Store? && PcOf(s, i).Computing?) && !(step.StoreWarm? && PcOf(s, i).Warming? && s.lock.None?)
    ensures Apply(s, i, step).slots == s.slots && Apply(s, i, step).recomputed == s.recomputed
  {
    hide Fresh, Put;
  }

  lemma {:induction false} RunKeepsInv(s: State, moves: seq<Move>)
    requires LockInv(s) && AnswersInv(s)
    ensures LockInv(Run(s, moves)) && AnswersInv(Run(s, moves))
    ensures Guarded(s) && NoLateStore(s, moves) ==> Guarded(Run(s, moves))
    decreases |moves|
  {
    hide LockInv, AnswersInv, Guarded, Apply;
    if moves != [] {
      var m := moves[0];
      StepKeepsLock(s, m.thread, m.step);
      StepKeepsAnswers(s, m.thread, m.step);
      if Guarded(s) && NoLateStore(s, moves) {
        StepKeepsGuarded(s, m.thread, m.step);
      }
      RunKeepsInv(Apply(s, m.thread, m.step), moves[1..]);
    }
  }

  // ----- theorems

  /** Under a clock that is never set back the spacing holds, warmers included, unless a warmer stores late. */
  lemma SpacedUnlessLate(now: real, moves: seq<Move>)
    requires NoLateStore(Init(now), moves)
    ensures Spaced(Run(Init(now), moves).recomputed)
  {
    InitIsInv(now);
    RunKeepsInv(Init(now), moves);
  }

  ghost predicate NoWarmer(moves: seq<Move>) {
    forall n | 0 <= n < |moves| :: !moves[n].step.StartWarm? && !moves[n].step.StoreWarm?
  }

  /** With readers alone, recomputations of one key are at least one ttl apart, whatever the clock does. */
  lemma RecomputedOncePerTtl(now: real, moves: seq<Move>)
    requires NoWarmer(moves)
    ensures Spaced(Run(Init(now), moves).recomputed)
  {
    InitIsInv(now);
    ReadersKeepSlots(Init(now), moves);
  }

  lemma {:induction false} ReadersKeepSlots(s: State, moves: seq<Move>)
    requires LockInv(s) && Spaced(s.recomputed) && Outlasts(s) && NoWarmer(moves)
    ensures Spaced(Run(s, moves).recomputed) && Outlasts(Run(s, moves))
    decreases |moves|
  {
    hide LockInv, Spaced, Outlasts, Apply;
    if moves != [] {
      var m := moves[0];
      StepKeepsLock(s, m.thread, m.step);
      ReaderKeepsSlots(s, m.thread, m.step);
      ReadersKeepSlots(Apply(s, m.thread, m.step), moves[1..]);
    }
  }

  /** Readers go on from s, under a clock that is never set back, and two of their recomputations are too close. */
  ghost predicate GoesWrong(s: State, moves: seq<Move>) {
    NoWarmer(moves) && NoLateStore(s, moves) && !Spaced(Run(s, moves).recomputed)
  }

  /** A store is late exactly when readers alone can then go on to recompute a key twice within one ttl. */
  lemma LateExactly(s: State, i: Thread)
    requires LockInv(s) && AnswersInv(s) && Guarded(s) && PcOf(s, i).Warming? && s.lock.None?
    ensures StoresLate(s, i) <==> exists moves :: GoesWrong(Apply(s, i, StoreWarm), moves)
  {
    hide LockInv, AnswersInv, Guarded, StoresLate, NoLateStore, Apply;
    var after := Apply(s, i, StoreWarm);
    if StoresLate(s, i) {
      var moves := LateStoreBreaksSpacing(s, i);
    } else if moves :| GoesWrong(after, moves) {
      StepKeepsLock(s, i, StoreWarm);
      StepKeepsAnswers(s, i, StoreWarm);
      StepKeepsGuarded(s, i, StoreWarm);
      RunKeepsInv(after, moves);
      GuardedIsSpaced(Run(after, moves));
    }
  }

  lemma GuardedIsSpaced(s: State)
    requires Guarded(s)
    ensures Spaced(s.recomputed)
  {
  }

  /**
   After a late store, a reader whose clock reading lies between the two expiries, one that waits or a new one, goes on
   to a recomputation less than one ttl after the one that was stored.
   */
  lemma LateStoreBreaksSpacing(s: State, i: Thread) returns (moves: seq<Move>)
    requires LockInv(s) && StoresLate(s, i)
    ensures GoesWrong(Apply(s, i, StoreWarm), moves)
  {
    hide LockInv, Apply, GoesWrong;
    var w := PcOf(s, i).want;
    var n :| 0 <= n < |s.recomputed| && s.recomputed[n].key == w.key && ReadingIn(s, w.key, Expiry(w), Expiry(s.recomputed[n]));
    if s.now < Expiry(s.recomputed[n]) {
      moves := NewReader(s, i, n);
    } else {
      var j :| j in s.pcs && Reads(s.pcs[j], w.key) && Expiry(w) <= s.pcs[j].want.sample < Expiry(s.recomputed[n]);
      moves := WaitingReader(s, i, n, j);
    }
  }

  lemma WaitingReader(s: State, i: Thread, n: nat, j: Thread) returns (moves: seq<Move>)
    requires LockInv(s) && PcOf(s, i).Warming? && s.lock.None? && n < |s.recomputed|
    requires s.recomputed[n].key == PcOf(s, i).want.key && j in s.pcs && Reads(s.pcs[j], PcOf(s, i).want.key)
    requires Expiry(PcOf(s, i).want) <= s.pcs[j].want.sample < Expiry(s.recomputed[n])
    ensures GoesWrong(Apply(s, i, StoreWarm), moves)
  {
    WarmSlots(s, i);
    StillReads(s, i, j);
    hide Apply, NoLateStore, NoWarmer, Run, LockInv, Spaced, Recompute;
    moves := Recompute(j);
    Recomputes(Apply(s, i, StoreWarm), j);
    Unspaced(s.recomputed, s.pcs[j].want, n);
  }

  lemma NewReader(s: State, i: Thread, n: nat) returns (moves: seq<Move>)
    requires PcOf(s, i).Warming? && s.lock.None? && n < |s.recomputed| && s.recomputed[n].key == PcOf(s, i).want.key
    requires s.now < Expiry(s.recomputed[n]) && Expiry(PcOf(s, i).want) < Expiry(s.recomputed[n])
    ensures GoesWrong(Apply(s, i, StoreWarm), moves)
  {
    WarmSlots(s, i);
    hide Apply, NoLateStore, NoWarmer, Run, Spaced, Solo;
    var w := PcOf(s, i).want;
    var j := FreeThread(s.pcs, i);
    StillFree(s, i, j);
    var c := Computed(w.key, if s.now < Expiry(w) then Expiry(w) else s.now, 1.0);
    moves := Solo(j, c);
    RunAlone(Apply(s, i, StoreWarm), j, c);
    Unspaced(s.recomputed, c, n);
  }

  lemma FreeThread(pcs: map<Thread, Pc>, i: Thread) returns (j: Thread)
    ensures j !in pcs && j != i
  {
    j := Above(pcs.Keys + {i});
  }

  lemma {:induction false} Above(s: set<nat>) returns (j: nat)
    ensures forall i | i in s :: i < j
    decreases |s|
  {
    if s == {} {
      j := 0;
    } else {
      var i: nat := FiniteSums.Pick(s);
      var rest := Above(s - {i});
      j := if i < rest then rest else i + 1;
      forall k | k in s
        ensures k < j
      {
        assert k == i || k in s - {i};
      }
    }
  }

  lemma StillReads(s: State, i: Thread, j: Thread)
    requires LockInv(s) && PcOf(s, i).Warming? && s.lock.None? && j in s.pcs && Reads(s.pcs[j], PcOf(s, i).want.key)
    ensures var pc := PcOf(Apply(s, i, StoreWarm), j);
            pc == s.pcs[j] && (pc.Entered? || pc.Waiting?)
  {
  }

  lemma StillFree(s: State, i: Thread, j: Thread)
    requires j !in s.pcs && i != j
    ensures PcOf(Apply(s, i, StoreWarm), j) == Idle
  {
  }

  lemma Unspaced(log: seq<Computed>, c: Computed, n: nat)
    requires n < |log| && log[n].key == c.key && c.sample < Expiry(log[n])
    ensures !Spaced(log + [c])
  {
    var more := log + [c];
    assert more[n] == log[n] && more[|log|] == c;
  }

  /** With readers and warmers, nobody is ever handed a value as old as its ttl, in every interleaving. */
  lemma AnswersAreNeverStale(now: real, moves: seq<Move>)
    ensures forall i | 0 <= i < |Run(Init(now), moves).answers| :: NotStale(Run(Init(now), moves).answers[i])
  {
    RunKeepsInv(Init(now), moves);
  }

  /** At most one reader computes at a time, whatever the keys. */
  lemma OneComputationAtATime(now: real, moves: seq<Move>, i: Thread, j: Thread)
    requires PcOf(Run(Init(now), moves), i).Computing? && PcOf(Run(Init(now), moves), j).Computing?
    ensures i == j
  {
    RunKeepsInv(Init(now), moves);
  }

  /** A late store does come about: a warmer reads its clock at 0, a reader recomputes at 5, and the warmer stores. */
  lemma WarmerStoresLate()
    ensures var moves := [Move(0, StartWarm("k", 10.0, 0.0))] + Solo(1, Computed("k", 5.0, 10.0));
            NoLateStore(Init(0.0), moves) && StoresLate(Run(Init(0.0), moves), 0)
  {
    var c, start := Computed("k", 5.0, 10.0), Move(0, StartWarm("k", 10.0, 0.0));
    WarmerEntered();
    hide Run, Apply, Init, Alone, Solo, Fresh;
    var s := State(map[], None, map[0 := Warming(Computed("k", 0.0, 10.0))], [], [], 0.0);
    RunFirst(Init(0.0), start, Solo(1, c));
    NoSlots(c);
    RunAlone(s, 1, c);
    AloneIsLate(s, c);
  }

  lemma WarmerEntered()
    ensures Apply(Init(0.0), 0, StartWarm("k", 10.0, 0.0))
         == State(map[], None, map[0 := Warming(Computed("k", 0.0, 10.0))], [], [], 0.0)
  {
  }

  lemma InitIsInv(now: real)
    ensures LockInv(Init(now)) && AnswersInv(Init(now)) && Guarded(Init(now)) && Outlasts(Init(now))
  {
  }

  lemma NoSlots(c: Computed)
    ensures !Fresh(map[], c.key, c.sample)
  {
  }

  lemma AloneIsLate(s: State, c: Computed)
    requires s.pcs == map[0 := Warming(Computed("k", 0.0, 10.0))] && s.recomputed == [] && c == Computed("k", 5.0, 10.0)
    ensures StoresLate(Alone(s, 1, c), 0)
  {
    hide Put;
    var after := Alone(s, 1, c);
    assert after.recomputed[0] == c && ReadingIn(after, "k", 10.0, 15.0);
  }

  // ----- threads that are alone

  lemma RunFirst(s: State, m: Move, rest: seq<Move>)
    ensures Run(s, [m] + rest) == Run(Apply(s, m.thread, m.step), rest)
  {
    assert ([m] + rest)[1..] == rest;
  }

  /** The steps in which thread i, having read its clock, looks and recomputes by itself. */
  function Recompute(i: Thread): seq<Move> {
    [Move(i, Look), Move(i, Acquire), Move(i, LookAgain), Move(i, Step.Store)]
  }

  /** The steps in which thread i reads or recomputes a key by itself. */
  function Solo(i: Thread, c: Computed): seq<Move> {
    [Move(i, Enter(c.key, c.ttl, c.sample))] + Recompute(i)
  }

  /** Thread i has recomputed. */
  function Alone(s: State, i: Thread, c: Computed): State {
    State(Put(s.slots, c), None, s.pcs[i := Idle], s.recomputed + [c], s.answers + [Answer(c, c)], c.sample)
  }

  function FourSteps(s: State, i: Thread): State {
    Apply(Apply(Apply(Apply(s, i, Look), i, Acquire), i, LookAgain), i, Step.Store)
  }

  lemma RunFour(s: State, i: Thread)
    ensures Run(s, Recompute(i)) == FourSteps(s, i) && NoWarmer(Recompute(i)) && NoLateStore(s, Recompute(i))
  {
    var m := Recompute(i);
    hide Apply, StoresLate;
    var a := Apply(s, i, Look);
    var b := Apply(a, i, Acquire);
    var c := Apply(b, i, LookAgain);
    assert m[1..] == [m[1], m[2], m[3]] && m[1..][1..] == [m[2], m[3]];
    assert m[1..][1..][1..] == [m[3]] && m[1..][1..][1..][1..] == [];
    assert Run(c, [m[3]]) == Run(Apply(c, i, Step.Store), []);
    assert NoLateStore(c, [m[3]]);
    assert Run(b, [m[2], m[3]]) == Run(c, [m[3]]);
    assert NoLateStore(b, [m[2], m[3]]);
  }

  lemma Recomputes(s: State, i: Thread)
    requires s.lock == None && (PcOf(s, i).Entered? || PcOf(s, i).Waiting?)
    requires !Fresh(s.slots, PcOf(s, i).want.key, PcOf(s, i).want.sample)
    ensures Run(s, Recompute(i)) == Alone(s, i, PcOf(s, i).want).(now := s.now)
    ensures NoWarmer(Recompute(i)) && NoLateStore(s, Recompute(i))
  {
    RunFour(s, i);
    hide Run, NoLateStore, Fresh, Put;
    var c := PcOf(s, i).want;
    var a := Apply(s, i, Look);
    assert a.(pcs := map[]) == s.(pcs := map[]) && a.pcs[i := Idle] == s.pcs[i := Idle] && PcOf(a, i) == Waiting(c);
    var b := Apply(a, i, Acquire);
    assert b == a.(pcs := a.pcs[i := Locked(c)], lock := Some(i));
    var d := Apply(b, i, LookAgain);
    assert d == a.(pcs := a.pcs[i := Computing(c)], lock := Some(i));
  }

  lemma RunAlone(s: State, i: Thread, c: Computed)
    requires PcOf(s, i) == Idle && s.lock == None && c.ttl > 0.0 && !Fresh(s.slots, c.key, c.sample)
    ensures Run(s, Solo(i, c)) == Alone(s, i, c) && NoWarmer(Solo(i, c))
    ensures c.sample >= s.now ==> NoLateStore(s, Solo(i, c))
  {
    var m := Move(i, Enter(c.key, c.ttl, c.sample));
    var a := Apply(s, i, m.step);
    assert a == s.(pcs := s.pcs[i := Entered(c)], now := c.sample);
    hide Apply, Fresh, Put;
    assert Solo(i, c)[0] == m && Solo(i, c)[1..] == Recompute(i);
    Recomputes(a, i);
    assert a.pcs[i := Idle] == s.pcs[i := Idle];
  }

  /** What a reader alone is handed and leaves behind, by whether its slot is fresh. */
  lemma ReadAlone(slots: Slots, c: Computed)
    requires c.ttl > 0.0
    ensures var s := Run(Quiet(slots, c.sample), Solo(0, c));
            if Fresh(slots, c.key, c.sample)
            then s.slots == slots && s.answers == [Answer(c, slots[c.key].value)] && s.recomputed == []
            else s.slots == Put(slots, c) && s.answers == [Answer(c, c)] && s.recomputed == [c]
  {
    var s := Quiet(slots, c.sample);
    if Fresh(slots, c.key, c.sample) {
      RunFirst(s, Move(0, Enter(c.key, c.ttl, c.sample)), Recompute(0));
      hide Put, Run;
      var a := Apply(s, 0, Enter(c.key, c.ttl, c.sample));
      RunFour(a, 0);
      var b := Apply(a, 0, Look);
      assert b == s.(pcs := map[0 := Idle], answers := [Answer(c, slots[c.key].value)]);
    } else {
      RunAlone(s, 0, c);
    }
  }

  lemma WarmAlone(slots: Slots, c: Computed)
    requires c.ttl > 0.0
    ensures Run(Quiet(slots, c.sample), [Move(0, StartWarm(c.key, c.ttl, c.sample)), Move(0, StoreWarm)]).slots == Put(slots, c)
  {
    var s, a, b := Quiet(slots, c.sample), Move(0, StartWarm(c.key, c.ttl, c.sample)), Move(0, StoreWarm);
    assert [a] + [b] == [a, b] && [b] + [] == [b];
    RunFirst(s, a, [b]);
    RunFirst(Apply(s, 0, a.step), b, []);
  }
}
