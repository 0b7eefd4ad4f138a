/**
 The limiter when its callers are threads: `allow` takes no lock, so calls interleave between their clock reading,
 each test of a deque's head, each pop, each length test and each append. A head that tested as expired may be another
 hit by the time of the pop, or gone: popping an empty deque raises, and the call is over.
 */
module RateLimitThreads {
  import opened RateLimit
  import FiniteSums

  type Thread = nat

  /** Which rule comes next: its head and length are tested, its head is popped, or a hit is appended. */
  datatype Phase = Checking(i: nat) | Popping(i: nat) | Recording(i: nat)

  datatype Pending = Pending(rules: seq<Rule>, at: real, phase: Phase)

  datatype State = State(hits: Hits, pending: map<Thread, Pending>, now: real,
                         recorded: Hits)  // every hit ever appended

  /** A step that is not enabled changes nothing. */
  datatype Step = Enter(thread: Thread, rules: seq<Rule>, t: real) | Go(thread: Thread)

  function Init(now: real): State {
    State(map[], map[], now, map[])
  }

  function Goto(s: State, th: Thread, phase: Phase): State
    requires th in s.pending
  {
    s.(pending := s.pending[th := s.pending[th].(phase := phase)])
  }

  function Leave(s: State, th: Thread): State {
    s.(pending := s.pending - {th})
  }

  function Append(hits: Hits, key: string, t: real): Hits {
    hits[key := Get(hits, key) + [t]]
  }

  /** A test of the head, and of the length where the head stays. */
  function Check(s: State, th: Thread, i: nat): State
    requires th in s.pending && i < |s.pending[th].rules|
  {
    var p := s.pending[th];
    var r := p.rules[i];
    var deque := Get(s.hits, r.key);
    if deque != [] && deque[0] <= p.at - r.window then Goto(s, th, Popping(i))
    else if |deque| >= r.limit then Leave(s.(hits := s.hits[r.key := deque]), th)
    else Goto(s.(hits := s.hits[r.key := deque]), th, Checking(i + 1))
  }

  /** The pop takes whatever is leftmost now. */
  function Pop(s: State, th: Thread, i: nat): State
    requires th in s.pending && i < |s.pending[th].rules|
  {
    var key := s.pending[th].rules[i].key;
    var deque := Get(s.hits, key);
    if deque == [] then Leave(s, th) else Goto(s.(hits := s.hits[key := deque[1..]]), th, Checking(i))
  }

  /** The next atomic action of a call. */
  function Advance(s: State, th: Thread): State
    requires th in s.pending
  {
    var p := s.pending[th];
    match p.phase
    case Checking(i) => if i < |p.rules| then Check(s, th, i) else Goto(s, th, Recording(0))
    case Popping(i) => if i < |p.rules| then Pop(s, th, i) else s
    case Recording(i) =>
      if i >= |p.rules| then Leave(s, th)
      else
        var key := p.rules[i].key;
        Goto(s.(hits := Append(s.hits, key, p.at), recorded := Append(s.recorded, key, p.at)), th, Recording(i + 1))
  }

  function Apply(s: State, step: Step): State {
    match step
    case Enter(th, rules, t) =>
      if th !in s.pending && t >= s.now then s.(pending := s.pending[th := Pending(rules, t, Checking(0))], now := t) else s
    case Go(th) => if th in s.pending then Advance(s, th) else s
  }

  function Run(s: State, steps: seq<Step>): State
    decreases |steps|
  {
    if steps == [] then s else Run(Apply(s, steps[0]), steps[1..])
  }

  // ----- what a window can hold

  /** An interval (lo, hi] of a key, no longer than the key's window. */
  datatype Span = Span(key: string, lo: real, hi: real)

  predicate In(w: Span, t: real) {
    w.lo < t <= w.hi
  }

  function Count(hits: Hits, w: Span): nat {
    CountIn(Get(hits, w.key), w.lo, w.hi)
  }

  /** The call has passed the key's check and has yet to append to it. */
  predicate Passed(p: Pending, key: string) {
    match p.phase
    case Checking(i) => exists j :: 0 <= j < i && j < |p.rules| && p.rules[j].key == key
    case Popping(i) => exists j :: 0 <= j < i && j < |p.rules| && p.rules[j].key == key
    case Recording(i) => exists j :: i <= j < |p.rules| && p.rules[j].key == key
  }

  /** The call has not passed the key's check, and may yet. */
  predicate Waiting(p: Pending, key: string) {
    !p.phase.Recording? && !Passed(p, key)
  }

  /**
   What a call under way can do to a span: append to it after its check, append to it if it passes the check, pop from
   its deque, or append a hit from before it.
   */
  datatype Role = Accepted | Undecided | Popper | Older

  predicate Plays(p: Pending, role: Role, w: Span) {
    match role
    case Accepted => In(w, p.at) && Passed(p, w.key)
    case Undecided => In(w, p.at) && Waiting(p, w.key)
    case Popper => p.phase.Popping? && p.phase.i < |p.rules| && p.rules[p.phase.i].key == w.key
    case Older => p.at <= w.lo && (Passed(p, w.key) || Waiting(p, w.key))
  }

  function Those(s: State, role: Role, w: Span): set<Thread> {
    set th | th in s.pending && Plays(s.pending[th], role, w)
  }

  function Number(s: State, role: Role, w: Span): nat {
    |Those(s, role, w)|
  }

  function Here(s: State, th: Thread, role: Role, w: Span): nat {
    if th in s.pending && Plays(s.pending[th], role, w) then 1 else 0
  }

  /** The number of runs of hits from `lo` or before, each counted at its right end. */
  function Runs(deque: seq<real>, lo: real): nat {
    if deque == [] then 0
    else Runs(deque[1..], lo) + if deque[0] <= lo && (|deque| == 1 || deque[1] > lo) then 1 else 0
  }

  predicate OldHead(deque: seq<real>, lo: real) {
    deque != [] && deque[0] <= lo
  }

  predicate AllOld(deque: seq<real>, lo: real) {
    forall i | 0 <= i < |deque| :: deque[i] <= lo
  }

  /** Pops under way that will hit the span, unless its own calls can still begin one. */
  function StalePops(s: State, w: Span): nat {
    if OldHead(Get(s.hits, w.key), w.lo) then 0 else Number(s, Popper, w)
  }

  function Turns(calls: nat, n: nat): int {
    n * (calls - 1)
  }

  /** How far calls that overlap can take a window over its limit. */
  function Excess(calls: nat): int {
    (calls - 1) * (calls + 2)
  }

  /**
   While the clock is in the span. Calls of the span see what the deque shows of it. They begin to pop only while its
   head is a hit from before the span, so each run of such hits costs the span at most the pops that the other calls
   then have under way; and each further run needs a call that was under way when the span began.
   */
  ghost predicate Shown(s: State, w: Span, limit: int, calls: nat) {
    && Count(s.hits, w) + Number(s, Accepted, w) <= limit - 1 + calls
    && Count(s.recorded, w) + StalePops(s, w) + Turns(calls, Runs(Get(s.hits, w.key), w.lo) + Number(s, Older, w))
       <= Count(s.hits, w) + Turns(calls, calls)
  }

  /** Before the span, in it and after it. After it, the only calls left to add to it are under way. */
  ghost predicate Bounded(s: State, w: Span, limit: int, calls: nat) {
    if s.now <= w.lo then Count(s.recorded, w) == 0 && AllOld(Get(s.hits, w.key), w.lo)
    else if s.now <= w.hi then Shown(s, w, limit, calls)
    else Count(s.recorded, w) + Number(s, Accepted, w) + Number(s, Undecided, w) <= limit + Excess(calls)
  }

  ghost predicate WellFormed(s: State, limits: string -> int, windows: string -> real) {
    forall th | th in s.pending ::
      var p := s.pending[th];
      && p.at <= s.now && DistinctKeys(p.rules) && Consistent(p.rules, limits, windows)
      && (p.phase.Popping? ==> p.phase.i < |p.rules|)
  }

  // ----- counting hits

  lemma {:induction false} CountAtMost(hits: seq<real>, lo: real, hi: real)
    ensures CountIn(hits, lo, hi) <= |hits|
  {
    if hits != [] {
      CountAtMost(hits[..|hits| - 1], lo, hi);
    }
  }

  lemma {:induction false} CountPop(hits: seq<real>, lo: real, hi: real)
    requires hits != []
    ensures CountIn(hits, lo, hi) == CountIn(hits[1..], lo, hi) + if lo < hits[0] <= hi then 1 else 0
  {
    var n := |hits| - 1;
    if n > 0 {
      CountPop(hits[..n], lo, hi);
      assert hits[..n][1..] == hits[1..][..n - 1];
    } else {
      assert hits[..0] == hits[1..] == [];
    }
  }

  lemma CountPush(hits: seq<real>, t: real, lo: real, hi: real)
    ensures CountIn(hits + [t], lo, hi) == CountIn(hits, lo, hi) + if lo < t <= hi then 1 else 0
  {
    assert (hits + [t])[..|hits|] == hits;
  }

  lemma {:induction false} OldCount(deque: seq<real>, lo: real, hi: real)
    requires AllOld(deque, lo)
    ensures CountIn(deque, lo, hi) == 0
  {
    if deque != [] {
      OldCount(deque[..|deque| - 1], lo, hi);
    }
  }

  lemma {:induction false} OldRuns(deque: seq<real>, lo: real)
    requires AllOld(deque, lo)
    ensures Runs(deque, lo) == if deque == [] then 0 else 1
  {
    if deque != [] {
      OldRuns(deque[1..], lo);
    }
  }

  lemma {:induction false} RunsPush(deque: seq<real>, t: real, lo: real)
    ensures Runs(deque + [t], lo) <= Runs(deque, lo) + if t <= lo then 1 else 0
  {
    if deque == [] {
      assert [t][1..] == [];
    } else {
      assert (deque + [t])[1..] == deque[1..] + [t];
      RunsPush(deque[1..], t, lo);
      assert |deque| == 1 ==> deque[1..] + [t] == [t] && [t][1..] == [];
    }
  }

  lemma CountSet(hits: Hits, key: string, deque: seq<real>, w: Span)
    ensures Get(hits[key := deque], w.key) == if key == w.key then deque else Get(hits, w.key)
    ensures Count(hits[key := deque], w) == if key == w.key then CountIn(deque, w.lo, w.hi) else Count(hits, w)
  {
  }

  lemma AppendCount(hits: Hits, key: string, t: real, w: Span)
    ensures Count(Append(hits, key, t), w) == Count(hits, w) + if key == w.key && In(w, t) then 1 else 0
    ensures Get(Append(hits, key, t), w.key) == Get(hits, w.key) + if key == w.key then [t] else []
  {
    CountPush(Get(hits, key), t, w.lo, w.hi);
  }

  lemma TurnsGrow(calls: nat, a: nat, b: nat)
    requires a <= b && calls >= 1
    ensures Turns(calls, a) <= Turns(calls, b)
    ensures Turns(calls, a + 1) == Turns(calls, a) + calls - 1
    ensures 0 <= Turns(calls, a)
  {
  }

  lemma ExcessIs(calls: nat)
    requires calls >= 1
    ensures Excess(calls) == Turns(calls, calls) + 2 * (calls - 1) && Turns(calls, calls) >= 0
  {
  }

  // ----- counting calls

  /** Only thread th has moved, to another phase or away. */
  ghost predicate OneMoved(s: State, after: State, th: Thread) {
    forall o | o != th :: (o in after.pending <==> o in s.pending) && (o in s.pending ==> after.pending[o] == s.pending[o])
  }

  lemma Moved(s: State, after: State, th: Thread, role: Role, w: Span)
    requires OneMoved(s, after, th)
    ensures Number(after, role, w) + Here(s, th, role, w) == Number(s, role, w) + Here(after, th, role, w)
  {
    OthersStay(s, after, th, role, w);
    hide Plays, OneMoved;
    var a, b := Those(s, role, w), Those(after, role, w);
    WithOrWithout(a, th);
    WithOrWithout(b, th);
  }

  lemma OthersStay(s: State, after: State, th: Thread, role: Role, w: Span)
    requires OneMoved(s, after, th)
    ensures Those(s, role, w) - {th} == Those(after, role, w) - {th}
  {
    hide Plays;
  }

  lemma WithOrWithout(a: set<Thread>, th: Thread)
    ensures |a| == |a - {th}| + if th in a then 1 else 0
  {
    assert th in a ==> a == (a - {th}) + {th};
    assert th !in a ==> a == a - {th};
  }

  lemma Fewer(s: State, role: Role, w: Span)
    ensures Number(s, role, w) <= |s.pending|
    ensures forall th | th in s.pending && Here(s, th, role, w) == 0 :: Number(s, role, w) < |s.pending|
  {
    hide Plays;
    FiniteSums.SubsetSize(Those(s, role, w), s.pending.Keys);
    forall th | th in s.pending && Here(s, th, role, w) == 0
      ensures Number(s, role, w) < |s.pending|
    {
      FiniteSums.SubsetSize(Those(s, role, w), s.pending.Keys - {th});
    }
  }

  lemma Either(s: State, w: Span)
    ensures Number(s, Accepted, w) + Number(s, Undecided, w) <= |s.pending|
  {
    hide In, Passed;
    var a, b := Those(s, Accepted, w), Those(s, Undecided, w);
    assert a !! b;
    FiniteSums.SubsetSize(a + b, s.pending.Keys);
  }

  lemma NobodyYet(s: State, limits: string -> int, windows: string -> real, w: Span)
    requires WellFormed(s, limits, windows) && s.now <= w.lo
    ensures Number(s, Accepted, w) == Number(s, Undecided, w) == 0
  {
    hide Passed, Waiting, DistinctKeys, Consistent;
    assert Those(s, Accepted, w) == {} && Those(s, Undecided, w) == {};
  }

  // ----- one step at a time

  /** The key's deque stays, and the thread takes on no role. */
  lemma {:induction false} QuietStep(s: State, after: State, th: Thread, w: Span, limit: int, calls: nat)
    requires OneMoved(s, after, th) && after.now == s.now && calls >= 1
    requires Get(after.hits, w.key) == Get(s.hits, w.key) && Count(after.recorded, w) == Count(s.recorded, w)
    requires forall role :: Here(after, th, role, w) <= Here(s, th, role, w)
    requires Bounded(s, w, limit, calls)
    ensures Bounded(after, w, limit, calls)
  {
    hide OneMoved, Here, Number, Runs, Turns, Excess, OldHead, AllOld;
    Moved(s, after, th, Accepted, w);
    Moved(s, after, th, Undecided, w);
    Moved(s, after, th, Popper, w);
    Moved(s, after, th, Older, w);
    var runs := Runs(Get(s.hits, w.key), w.lo);
    TurnsGrow(calls, runs + Number(after, Older, w), runs + Number(s, Older, w));
  }

  /** The head has tested as expired. */
  lemma {:induction false} ExpiredStep(s: State, after: State, th: Thread, w: Span, limit: int, calls: nat)
    requires OneMoved(s, after, th) && after.now == s.now && after.hits == s.hits && after.recorded == s.recorded
    requires forall role | role != Popper :: Here(after, th, role, w) == Here(s, th, role, w)
    requires s.now <= w.hi ==> OldHead(Get(s.hits, w.key), w.lo)
    requires Bounded(s, w, limit, calls)
    ensures Bounded(after, w, limit, calls)
  {
    hide OneMoved, Here, Number, Runs, Turns, Excess, OldHead, AllOld;
    Moved(s, after, th, Accepted, w);
    Moved(s, after, th, Undecided, w);
    Moved(s, after, th, Older, w);
  }

  /** A pop that was under way. */
  lemma {:induction false} PopStep(s: State, after: State, th: Thread, w: Span, limit: int, calls: nat)
    requires OneMoved(s, after, th) && after.now == s.now && after.recorded == s.recorded
    requires var deque := Get(s.hits, w.key); deque != [] && Get(after.hits, w.key) == deque[1..]
    requires forall role | role != Popper :: Here(after, th, role, w) == Here(s, th, role, w)
    requires th in after.pending && Here(s, th, Popper, w) == 1 && Here(after, th, Popper, w) == 0
    requires |after.pending| <= calls && Bounded(s, w, limit, calls)
    ensures Bounded(after, w, limit, calls)
  {
    hide OneMoved, Here, Number, Turns, Excess;
    Moved(s, after, th, Accepted, w);
    Moved(s, after, th, Undecided, w);
    Moved(s, after, th, Popper, w);
    Moved(s, after, th, Older, w);
    Fewer(after, Popper, w);
    var deque := Get(s.hits, w.key);
    CountPop(deque, w.lo, w.hi);
    var older := Number(s, Older, w);
    TurnsGrow(calls, Runs(deque[1..], w.lo) + older, Runs(deque, w.lo) + older);
  }

  /** The call passes the check; the deque is below the limit. */
  lemma {:induction false} PassStep(s: State, after: State, th: Thread, w: Span, limit: int, calls: nat)
    requires OneMoved(s, after, th) && after.now == s.now && Count(after.recorded, w) == Count(s.recorded, w)
    requires Get(after.hits, w.key) == Get(s.hits, w.key) && |Get(s.hits, w.key)| < limit
    requires Here(after, th, Accepted, w) + Here(after, th, Undecided, w) <= Here(s, th, Accepted, w) + Here(s, th, Undecided, w)
    requires forall role: Role | role.Popper? || role.Older? :: Here(after, th, role, w) <= Here(s, th, role, w)
    requires 1 <= |after.pending| <= calls && Bounded(s, w, limit, calls)
    ensures Bounded(after, w, limit, calls)
  {
    hide OneMoved, Here, Number, Runs, Turns, Excess, OldHead, AllOld;
    Moved(s, after, th, Accepted, w);
    Moved(s, after, th, Undecided, w);
    Moved(s, after, th, Popper, w);
    Moved(s, after, th, Older, w);
    Fewer(after, Accepted, w);
    CountAtMost(Get(s.hits, w.key), w.lo, w.hi);
    var runs := Runs(Get(s.hits, w.key), w.lo);
    TurnsGrow(calls, runs + Number(after, Older, w), runs + Number(s, Older, w));
  }

  /** The call appends to its key. */
  lemma {:induction false} AppendStep(s: State, after: State, th: Thread, t: real, w: Span, limit: int, calls: nat)
    requires OneMoved(s, after, th) && after.now == s.now && t <= s.now && calls >= 1
    requires after.hits == Append(s.hits, w.key, t) && after.recorded == Append(s.recorded, w.key, t)
    requires Here(s, th, Accepted, w) == (if In(w, t) then 1 else 0)
    requires Here(s, th, Older, w) == (if t <= w.lo then 1 else 0)
    requires forall role: Role | !role.Popper? :: Here(after, th, role, w) == 0
    requires Here(s, th, Undecided, w) == Here(s, th, Popper, w) == Here(after, th, Popper, w) == 0
    requires Bounded(s, w, limit, calls)
    ensures Bounded(after, w, limit, calls)
  {
    hide OneMoved, Here, Number, Runs, Turns, Excess, Append, Count;
    Moved(s, after, th, Accepted, w);
    Moved(s, after, th, Undecided, w);
    Moved(s, after, th, Popper, w);
    Moved(s, after, th, Older, w);
    AppendCount(s.hits, w.key, t, w);
    AppendCount(s.recorded, w.key, t, w);
    var deque := Get(s.hits, w.key);
    RunsPush(deque, t, w.lo);
    TurnsGrow(calls, Runs(deque + [t], w.lo) + Number(after, Older, w), Runs(deque, w.lo) + Number(s, Older, w));
  }

  /** A call reads the clock. */
  ghost predicate Entered(s: State, after: State, th: Thread, w: Span) {
    && after.hits == s.hits && after.recorded == s.recorded && after.now >= s.now && OneMoved(s, after, th)
    && (forall role :: Here(s, th, role, w) == 0)
    && Here(after, th, Accepted, w) == Here(after, th, Popper, w) == 0
    && (after.now > w.hi ==> Here(after, th, Undecided, w) == 0) && (after.now > w.lo ==> Here(after, th, Older, w) == 0)
  }

  lemma EnterStep(s: State, th: Thread, rules: seq<Rule>, t: real, w: Span, limits: string -> int,
                  windows: string -> real, calls: nat)
    requires WellFormed(s, limits, windows) && limits(w.key) >= 0
    requires th !in s.pending && t >= s.now && |s.pending| < calls && Bounded(s, w, limits(w.key), calls)
    ensures Bounded(Apply(s, Enter(th, rules, t)), w, limits(w.key), calls)
  {
    var after := Apply(s, Enter(th, rules, t));
    Entering(s, th, rules, t, w);
    hide Entered, Apply, WellFormed, Bounded;
    if s.now <= w.lo {
      NobodyYet(s, limits, windows, w);
      EnterFirst(s, after, th, w, limits(w.key), calls);
    } else {
      EnterLater(s, after, th, w, limits(w.key), calls);
    }
  }

  lemma EnterFirst(s: State, after: State, th: Thread, w: Span, limit: int, calls: nat)
    requires Entered(s, after, th, w) && s.now <= w.lo && Number(s, Accepted, w) == Number(s, Undecided, w) == 0
    requires |s.pending| < calls && limit >= 0 && Bounded(s, w, limit, calls)
    ensures Bounded(after, w, limit, calls)
  {
    hide OneMoved, Here, Number, Runs, Turns, Excess, AllOld;
    if after.now > w.lo {
      SpanBegins(s, w, calls);
      Moved(s, after, th, Accepted, w);
      Moved(s, after, th, Undecided, w);
      Moved(s, after, th, Popper, w);
      Moved(s, after, th, Older, w);
      ExcessIs(calls);
    }
  }

  lemma EnterLater(s: State, after: State, th: Thread, w: Span, limit: int, calls: nat)
    requires Entered(s, after, th, w) && s.now > w.lo
    requires |s.pending| < calls && limit >= 0 && Bounded(s, w, limit, calls)
    ensures Bounded(after, w, limit, calls)
  {
    hide OneMoved, Here, Number, Runs, Turns, Excess, OldHead;
    Moved(s, after, th, Accepted, w);
    Moved(s, after, th, Undecided, w);
    Moved(s, after, th, Popper, w);
    Moved(s, after, th, Older, w);
    Either(s, w);
    ExcessIs(calls);
    TurnsGrow(calls, 0, Runs(Get(s.hits, w.key), w.lo) + Number(s, Older, w));
  }

  lemma Entering(s: State, th: Thread, rules: seq<Rule>, t: real, w: Span)
    requires th !in s.pending && t >= s.now
    ensures Entered(s, Apply(s, Enter(th, rules, t)), th, w)
  {
  }

  /** When the span's first call reads the clock, all hits are from before, and so are the other calls under way. */
  lemma SpanBegins(s: State, w: Span, calls: nat)
    requires |s.pending| < calls && AllOld(Get(s.hits, w.key), w.lo)
    ensures Count(s.hits, w) == 0
    ensures StalePops(s, w) + Turns(calls, Runs(Get(s.hits, w.key), w.lo) + Number(s, Older, w)) <= Turns(calls, calls)
  {
    hide Number, Turns, Runs;
    var deque := Get(s.hits, w.key);
    OldCount(deque, w.lo, w.hi);
    OldRuns(deque, w.lo);
    Fewer(s, Popper, w);
    Fewer(s, Older, w);
    TurnsGrow(calls, Number(s, Older, w), calls - 1);
    TurnsGrow(calls, calls - 1, calls);
    TurnsGrow(calls, Number(s, Older, w) + 1, calls);
  }

  lemma CheckStep(s: State, th: Thread, i: nat, w: Span, limits: string -> int, windows: string -> real, calls: nat)
    requires WellFormed(s, limits, windows) && th in s.pending && s.pending[th].phase == Checking(i)
    requires w.hi <= w.lo + windows(w.key) && |s.pending| <= calls && Bounded(s, w, limits(w.key), calls)
    ensures Bounded(Advance(s, th), w, limits(w.key), calls)
  {
    var p := s.pending[th];
    if i < |p.rules| && p.rules[i].key == w.key {
      OwnCheck(s, th, i, w, limits(w.key), calls);
    } else {
      hide Bounded, Count;
      if i < |p.rules| {
        CountSet(s.hits, p.rules[i].key, Get(s.hits, p.rules[i].key), w);
      }
      QuietStep(s, Advance(s, th), th, w, limits(w.key), calls);
    }
  }

  lemma OwnCheck(s: State, th: Thread, i: nat, w: Span, limit: int, calls: nat)
    requires th in s.pending && s.pending[th].phase == Checking(i) && i < |s.pending[th].rules|
    requires var r := s.pending[th].rules[i]; r.key == w.key && r.limit == limit && w.hi <= w.lo + r.window
    requires s.pending[th].at <= s.now && |s.pending| <= calls && Bounded(s, w, limit, calls)
    ensures Bounded(Advance(s, th), w, limit, calls)
  {
    hide Bounded, Count;
    var p := s.pending[th];
    var after := Advance(s, th);
    var deque := Get(s.hits, w.key);
    CountSet(s.hits, w.key, deque, w);
    if deque != [] && deque[0] <= p.at - p.rules[i].window {
      ExpiredStep(s, after, th, w, limit, calls);
    } else if |deque| < limit {
      PassStep(s, after, th, w, limit, calls);
    } else {
      QuietStep(s, after, th, w, limit, calls);
    }
  }

  lemma PoppingStep(s: State, th: Thread, i: nat, w: Span, limits: string -> int, windows: string -> real, calls: nat)
    requires WellFormed(s, limits, windows) && th in s.pending && s.pending[th].phase == Popping(i)
    requires |s.pending| <= calls && Bounded(s, w, limits(w.key), calls)
    ensures Bounded(Advance(s, th), w, limits(w.key), calls)
  {
    hide Bounded, Count;
    var p := s.pending[th];
    var after := Advance(s, th);
    var key := p.rules[i].key;
    var deque := Get(s.hits, key);
    if deque != [] {
      CountSet(s.hits, key, deque[1..], w);
    }
    if deque != [] && key == w.key {
      PopStep(s, after, th, w, limits(w.key), calls);
    } else {
      QuietStep(s, after, th, w, limits(w.key), calls);
    }
  }

  lemma RecordStep(s: State, th: Thread, i: nat, w: Span, limits: string -> int, windows: string -> real, calls: nat)
    requires WellFormed(s, limits, windows) && th in s.pending && s.pending[th].phase == Recording(i)
    requires |s.pending| <= calls && Bounded(s, w, limits(w.key), calls)
    ensures Bounded(Advance(s, th), w, limits(w.key), calls)
  {
    hide Bounded, Count, Append;
    var p := s.pending[th];
    var after := Advance(s, th);
    if i >= |p.rules| {
      QuietStep(s, after, th, w, limits(w.key), calls);
    } else {
      var key := p.rules[i].key;
      if key == w.key {
        AppendStep(s, after, th, p.at, w, limits(w.key), calls);
      } else {
        AppendCount(s.hits, key, p.at, w);
        AppendCount(s.recorded, key, p.at, w);
        QuietStep(s, after, th, w, limits(w.key), calls);
      }
    }
  }

  ghost predicate Legal(step: Step, limits: string -> int, windows: string -> real) {
    step.Enter? ==> DistinctKeys(step.rules) && Consistent(step.rules, limits, windows)
  }

  lemma StepKeepsBound(s: State, step: Step, w: Span, limits: string -> int, windows: string -> real, calls: nat)
    requires WellFormed(s, limits, windows) && Legal(step, limits, windows) && limits(w.key) >= 0
    requires w.hi <= w.lo + windows(w.key) && Bounded(s, w, limits(w.key), calls)
    requires |s.pending| <= calls && |Apply(s, step).pending| <= calls
    ensures WellFormed(Apply(s, step), limits, windows) && Bounded(Apply(s, step), w, limits(w.key), calls)
  {
    StepKeepsForm(s, step, limits, windows);
    hide WellFormed, Advance, Bounded;
    match step
    case Enter(th, rules, t) =>
      if th !in s.pending && t >= s.now {
        assert |Apply(s, step).pending| == |s.pending| + 1;
        EnterStep(s, th, rules, t, w, limits, windows, calls);
      }
    case Go(th) =>
      if th in s.pending {
        match s.pending[th].phase
        case Checking(i) => CheckStep(s, th, i, w, limits, windows, calls);
        case Popping(i) => PoppingStep(s, th, i, w, limits, windows, calls);
        case Recording(i) => RecordStep(s, th, i, w, limits, windows, calls);
      }
  }

  lemma StepKeepsForm(s: State, step: Step, limits: string -> int, windows: string -> real)
    requires WellFormed(s, limits, windows) && Legal(step, limits, windows)
    ensures WellFormed(Apply(s, step), limits, windows)
  {
    hide DistinctKeys, Consistent;
  }

  // ----- theorems

  /** Never more than `calls` calls are under way at once. */
  ghost predicate AtMost(s: State, steps: seq<Step>, calls: nat)
    decreases |steps|
  {
    |s.pending| <= calls && (steps != [] ==> AtMost(Apply(s, steps[0]), steps[1..], calls))
  }

  lemma {:induction false} RunKeepsBound(s: State, steps: seq<Step>, w: Span, limits: string -> int,
                                         windows: string -> real, calls: nat)
    requires WellFormed(s, limits, windows) && forall step | step in steps :: Legal(step, limits, windows)
    requires limits(w.key) >= 0 && w.hi <= w.lo + windows(w.key)
    requires AtMost(s, steps, calls) && Bounded(s, w, limits(w.key), calls)
    ensures Bounded(Run(s, steps), w, limits(w.key), calls)
    decreases |steps|
  {
    hide WellFormed, Legal, Bounded, Apply;
    if steps != [] {
      assert steps[0] in steps;
      StepKeepsBound(s, steps[0], w, limits, windows, calls);
      RunKeepsBound(Apply(s, steps[0]), steps[1..], w, limits, windows, calls);
    }
  }

  /**
   In every interleaving of at most T calls at a time, an interval no longer than a key's window holds at most
   (T - 1) * (T + 2) hits more than the key's limit: T - 1 calls between another's check and append, T - 1 calls that
   read the clock in the interval and check after its hits have been pruned, and T * (T - 1) hits popped too early.
   */
  lemma {:induction false} OverlapBound(now: real, steps: seq<Step>, w: Span, limits: string -> int,
                                        windows: string -> real, calls: nat)
    requires forall step | step in steps :: Legal(step, limits, windows)
    requires limits(w.key) >= 0 && calls >= 1 && AtMost(Init(now), steps, calls)
    requires w.hi <= w.lo + windows(w.key)
    ensures Count(Run(Init(now), steps).recorded, w) <= limits(w.key) + Excess(calls)
  {
    hide Run, AtMost, Turns, Excess;
    var s := Init(now);
    InitBounded(now, w, limits(w.key), calls);
    RunKeepsBound(s, steps, w, limits, windows, calls);
    BoundedMeans(Run(s, steps), w, limits(w.key), calls);
  }

  lemma InitBounded(now: real, w: Span, limit: int, calls: nat)
    requires limit >= 0 && calls >= 1
    ensures Bounded(Init(now), w, limit, calls)
  {
    hide Turns, Excess;
    var s := Init(now);
    assert forall role :: Those(s, role, w) == {};
    TurnsGrow(calls, 0, calls);
    ExcessIs(calls);
  }

  lemma BoundedMeans(s: State, w: Span, limit: int, calls: nat)
    requires Bounded(s, w, limit, calls) && limit >= 0 && calls >= 1
    ensures Count(s.recorded, w) <= limit + Excess(calls)
  {
    hide Turns, Excess, Count, Runs;
    TurnsGrow(calls, 0, Runs(Get(s.hits, w.key), w.lo) + Number(s, Older, w));
    assert Turns(calls, 0) >= 0;
    ExcessIs(calls);
  }

  /** So calls that do not overlap, as those of one event loop, never take a window over its limit. */
  lemma {:induction false} OneAtATime(now: real, steps: seq<Step>, w: Span, limits: string -> int,
                                      windows: string -> real)
    requires forall step | step in steps :: Legal(step, limits, windows)
    requires limits(w.key) >= 0 && AtMost(Init(now), steps, 1)
    requires w.hi <= w.lo + windows(w.key)
    ensures Count(Run(Init(now), steps).recorded, w) <= limits(w.key)
  {
    OverlapBound(now, steps, w, limits, windows, 1);
  }

  // ----- a call that is alone

  /** The thread goes n times. */
  function GoOn(s: State, th: Thread, n: nat): State
    decreases n
  {
    if n == 0 then s else GoOn(Apply(s, Go(th)), th, n - 1)
  }

  lemma {:induction false} GoOnMore(s: State, th: Thread, n: nat, m: nat)
    ensures GoOn(s, th, n + m) == GoOn(GoOn(s, th, n), th, m)
    decreases n
  {
    hide Apply;
    if n > 0 {
      GoOnMore(Apply(s, Go(th)), th, n - 1, m);
    }
  }

  /** One rule of the first loop, pops and all. */
  lemma {:induction false} RuleAlone(s: State, th: Thread, i: nat) returns (n: nat)
    requires th in s.pending && s.pending[th].phase == Checking(i) && i < |s.pending[th].rules|
    ensures var p := s.pending[th];
            var c := CheckRule(Checked(true, s.hits), p.rules[i], p.at);
            GoOn(s, th, n) == if c.ok then Goto(s.(hits := c.hits), th, Checking(i + 1)) else Leave(s.(hits := c.hits), th)
    decreases |Get(s.hits, s.pending[th].rules[i].key)|
  {
    var p := s.pending[th];
    var r := p.rules[i];
    var deque := Get(s.hits, r.key);
    var after := Apply(s, Go(th));
    if deque != [] && deque[0] <= p.at - r.window {
      var popped := Apply(after, Go(th));
      assert popped == s.(hits := s.hits[r.key := deque[1..]]);
      var m := RuleAlone(popped, th, i);
      n := m + 2;
      assert GoOn(s, th, n) == GoOn(after, th, m + 1) == GoOn(popped, th, m);
    } else {
      n := 1;
      assert GoOn(s, th, 1) == GoOn(after, th, 0) == after;
    }
  }

  lemma GoOnce(s: State, th: Thread)
    ensures GoOn(s, th, 1) == Apply(s, Go(th))
  {
    hide Apply;
    assert GoOn(Apply(s, Go(th)), th, 0) == Apply(s, Go(th));
  }

  lemma NextRule(hits: Hits, rules: seq<Rule>, t: real, i: nat)
    requires i < |rules|
    ensures CheckRules(hits, rules, t, i + 1) == CheckRule(CheckRules(hits, rules, t, i), rules[i], t)
    ensures Record(hits, rules, t, i + 1) == Append(Record(hits, rules, t, i), rules[i].key, t)
  {
    hide CheckRule;
  }

  lemma {:induction false} ChecksAlone(s: State, th: Thread, i: nat, hits: Hits) returns (n: nat)
    requires th in s.pending && s.pending[th].phase == Checking(i) && i <= |s.pending[th].rules|
    requires CheckRules(hits, s.pending[th].rules, s.pending[th].at, i) == Checked(true, s.hits)
    ensures var p := s.pending[th];
            var c := CheckRules(hits, p.rules, p.at, |p.rules|);
            GoOn(s, th, n) == if c.ok then Goto(s.(hits := c.hits), th, Recording(0)) else Leave(s.(hits := c.hits), th)
    decreases |s.pending[th].rules| - i
  {
    hide CheckRule, CheckRules, GoOn, Get;
    var p := s.pending[th];
    if i == |p.rules| {
      n := 1;
      GoOnce(s, th);
    } else {
      var m := RuleAlone(s, th, i);
      var c := CheckRule(Checked(true, s.hits), p.rules[i], p.at);
      NextRule(hits, p.rules, p.at, i);
      if c.ok {
        var next := Goto(s.(hits := c.hits), th, Checking(i + 1));
        n := ChecksAlone(next, th, i + 1, hits);
        GoOnMore(s, th, m, n);
        GotoTwice(s.(hits := c.hits), th, Checking(i + 1), Recording(0));
        n := m + n;
      } else {
        CheckStops(hits, p.rules, p.at, i + 1, |p.rules|);
        n := m;
      }
    }
  }

  lemma GotoTwice(s: State, th: Thread, a: Phase, b: Phase)
    requires th in s.pending
    ensures forall hits :: Goto(Goto(s, th, a).(hits := hits), th, b) == Goto(s.(hits := hits), th, b)
    ensures forall hits :: Leave(Goto(s, th, a).(hits := hits), th) == Leave(s.(hits := hits), th)
    ensures Leave(Goto(s, th, a), th) == Leave(s, th)
  {
    assert s.pending[th := s.pending[th].(phase := a)][th := s.pending[th].(phase := b)] == s.pending[th := s.pending[th].(phase := b)];
    assert s.pending[th := s.pending[th].(phase := a)] - {th} == s.pending - {th};
  }

  lemma {:induction false} RecordsAlone(s: State, th: Thread, i: nat, hits: Hits, recorded: Hits) returns (n: nat)
    requires th in s.pending && s.pending[th].phase == Recording(i) && i <= |s.pending[th].rules|
    requires s.hits == Record(hits, s.pending[th].rules, s.pending[th].at, i)
    requires s.recorded == Record(recorded, s.pending[th].rules, s.pending[th].at, i)
    ensures var p := s.pending[th];
            GoOn(s, th, n) == State(Record(hits, p.rules, p.at, |p.rules|), s.pending - {th}, s.now,
                                    Record(recorded, p.rules, p.at, |p.rules|))
    decreases |s.pending[th].rules| - i
  {
    hide Record, GoOn, Append;
    var p := s.pending[th];
    GoOnce(s, th);
    if i == |p.rules| {
      n := 1;
    } else {
      NextRule(hits, p.rules, p.at, i);
      NextRule(recorded, p.rules, p.at, i);
      var after := Apply(s, Go(th));
      n := RecordsAlone(after, th, i + 1, hits, recorded);
      GoOnMore(s, th, 1, n);
      assert after.pending - {th} == s.pending - {th};
      n := 1 + n;
    }
  }

  /** A call that nobody interrupts does what `allow` is specified to do, and records what it says it records. */
  lemma AloneIsAllow(s: State, th: Thread, rules: seq<Rule>, t: real) returns (n: nat)
    requires th !in s.pending && t >= s.now
    ensures var c := AllowPruned(s.hits, rules, t);
            GoOn(Apply(s, Enter(th, rules, t)), th, n)
            == State(c.hits, s.pending, t, if c.ok then Record(s.recorded, rules, t, |rules|) else s.recorded)
  {
    hide CheckRules, Record, GoOn, Advance, AllowPruned;
    var entered := Apply(s, Enter(th, rules, t));
    NoRules(s.hits, s.recorded, rules, t);
    var c := CheckRules(s.hits, rules, t, |rules|);
    assert entered == State(s.hits, s.pending[th := Pending(rules, t, Checking(0))], t, s.recorded);
    assert entered.pending - {th} == s.pending;
    n := ChecksAlone(entered, th, 0, s.hits);
    if c.ok {
      var checked := Goto(entered.(hits := c.hits), th, Recording(0));
      assert checked.pending - {th} == s.pending;
      NoRules(c.hits, s.recorded, rules, t);
      var rest := RecordsAlone(checked, th, 0, c.hits, s.recorded);
      GoOnMore(entered, th, n, rest);
      n := n + rest;
    }
    AllowIs(s.hits, rules, t);
  }

  lemma AllowIs(hits: Hits, rules: seq<Rule>, t: real)
    ensures var c := CheckRules(hits, rules, t, |rules|);
            AllowPruned(hits, rules, t) == if c.ok then Checked(true, Record(c.hits, rules, t, |rules|)) else c
  {
  }

  lemma NoRules(hits: Hits, recorded: Hits, rules: seq<Rule>, t: real)
    ensures CheckRules(hits, rules, t, 0) == Checked(true, hits)
    ensures Record(hits, rules, t, 0) == hits && Record(recorded, rules, t, 0) == recorded
  {
  }
}
