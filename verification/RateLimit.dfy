/**
 The in-process sliding-window limiter. Each key owns a deque of hit times that is pruned when the key is looked at;
 the reference is a limiter that forgets nothing and counts. Calls come one after another here, as from one event
 loop; calls from threads are the subject of RateLimitThreads.
 */
module RateLimit {

  datatype Rule = Rule(key: string, limit: int, window: real)

  type Hits = map<string, seq<real>>

  function Get(hits: Hits, key: string): seq<real> {
    if key in hits then hits[key] else []
  }

  /** What is left of a deque once the hits at or before `cutoff` at its left end are popped. */
  function Live(deque: seq<real>, cutoff: real): seq<real> {
    if deque != [] && deque[0] <= cutoff then Live(deque[1..], cutoff) else deque
  }

  datatype Checked = Checked(ok: bool, hits: Hits)

  /** One turn of the first loop: prune the key's deque, then see whether it is full. */
  function CheckRule(before: Checked, r: Rule, t: real): Checked {
    if !before.ok then before
    else
      var live := Live(Get(before.hits, r.key), t - r.window);
      Checked(|live| < r.limit, before.hits[r.key := live])
  }

  /** The first loop, up to rule n. It stops at the first rule that is full. */
  function CheckRules(hits: Hits, rules: seq<Rule>, t: real, n: nat): Checked
    requires n <= |rules|
  {
    if n == 0 then Checked(true, hits) else CheckRule(CheckRules(hits, rules, t, n - 1), rules[n - 1], t)
  }

  /** The second loop, up to rule n: one hit a rule. */
  function Record(hits: Hits, rules: seq<Rule>, t: real, n: nat): Hits
    requires n <= |rules|
  {
    if n == 0 then hits
    else
      var before := Record(hits, rules, t, n - 1);
      before[rules[n - 1].key := Get(before, rules[n - 1].key) + [t]]
  }

  function AllowPruned(hits: Hits, rules: seq<Rule>, t: real): Checked {
    var c := CheckRules(hits, rules, t, |rules|);
    if c.ok then Checked(true, Record(c.hits, rules, t, |rules|)) else c
  }

  class Limiter {
    var hits: Hits

    constructor ()
      ensures hits == map[]
    {
      hits := map[];
    }

    method Allow(rules: seq<Rule>, t: real) returns (ok: bool)
      modifies this
      ensures Checked(ok, hits) == AllowPruned(old(hits), rules, t)
    {
      var i := 0;
      while i < |rules|
        invariant 0 <= i <= |rules|
        invariant CheckRules(old(hits), rules, t, i) == Checked(true, hits)
      {
        var key, limit, window := rules[i].key, rules[i].limit, rules[i].window;
        var deque := Get(hits, key);
        var cutoff := t - window;
        while deque != [] && deque[0] <= cutoff
          invariant Live(deque, cutoff) == Live(Get(hits, key), cutoff)
        {
          deque := deque[1..];
        }
        hits := hits[key := deque];
        i := i + 1;
        if |deque| >= limit {
          CheckStops(old(hits), rules, t, i, |rules|);
          return false;
        }
      }
      ghost var checked := hits;
      i := 0;
      while i < |rules|
        invariant 0 <= i <= |rules|
        invariant hits == Record(checked, rules, t, i)
      {
        hits := hits[rules[i].key := Get(hits, rules[i].key) + [t]];
        i := i + 1;
      }
      return true;
    }
  }

  lemma {:induction false} CheckStops(hits: Hits, rules: seq<Rule>, t: real, i: nat, n: nat)
    requires i <= n <= |rules| && !CheckRules(hits, rules, t, i).ok
    ensures CheckRules(hits, rules, t, n) == CheckRules(hits, rules, t, i)
  {
    if i < n {
      CheckStops(hits, rules, t, i, n - 1);
    }
  }

  // ----- the limiter that forgets nothing

  /** How many hits fall in (lo, hi]. */
  function CountIn(hits: seq<real>, lo: real, hi: real): nat {
    if hits == [] then 0
    else CountIn(hits[..|hits| - 1], lo, hi) + if lo < hits[|hits| - 1] <= hi then 1 else 0
  }

  /** Every rule is under its limit when all hits of the last window, up to now, are counted. */
  predicate UnderLimits(history: Hits, rules: seq<Rule>, t: real) {
    forall i | 0 <= i < |rules| :: CountIn(Get(history, rules[i].key), t - rules[i].window, t) < rules[i].limit
  }

  function AllowFull(history: Hits, rules: seq<Rule>, t: real): Checked {
    if UnderLimits(history, rules, t) then Checked(true, Record(history, rules, t, |rules|))
    else Checked(false, history)
  }

  predicate DistinctKeys(rules: seq<Rule>) {
    forall i, j | 0 <= i < j < |rules| :: rules[i].key != rules[j].key
  }

  /** One limit and one window for each key, whoever asks. */
  ghost predicate Consistent(rules: seq<Rule>, limits: string -> int, windows: string -> real) {
    forall i | 0 <= i < |rules| ::
      rules[i].limit == limits(rules[i].key) && rules[i].window == windows(rules[i].key)
  }

  predicate Ascending(s: seq<real>, now: real) {
    (forall i, j | 0 <= i < j < |s| :: s[i] <= s[j]) && forall i | 0 <= i < |s| :: s[i] <= now
  }

  /** `live` is what is left of `full` after dropping only hits that have left their window by `now`. */
  ghost predicate SuffixOf(live: seq<real>, full: seq<real>, now: real, window: real) {
    |live| <= |full| && live == full[|full| - |live|..] &&
    forall i | 0 <= i < |full| - |live| :: full[i] <= now - window
  }

  ghost predicate Agree(hits: Hits, history: Hits, now: real, windows: string -> real) {
    forall k :: Ascending(Get(history, k), now) && SuffixOf(Get(hits, k), Get(history, k), now, windows(k))
  }

  lemma {:induction false} LiveIsSuffix(live: seq<real>, full: seq<real>, now: real, t: real, window: real)
    requires now <= t && SuffixOf(live, full, now, window)
    ensures SuffixOf(Live(live, t - window), full, t, window)
    decreases |live|
  {
    if live != [] && live[0] <= t - window {
      assert live[0] == full[|full| - |live|];
      assert SuffixOf(live[1..], full, t, window);
      LiveIsSuffix(live[1..], full, t, t, window);
    }
  }

  lemma {:induction false} LiveHeads(deque: seq<real>, cutoff: real)
    ensures var live := Live(deque, cutoff);
            live == [] || live[0] > cutoff
  {
    if deque != [] && deque[0] <= cutoff {
      LiveHeads(deque[1..], cutoff);
    }
  }

  lemma {:induction false} CountSuffix(full: seq<real>, n: nat, lo: real, hi: real)
    requires n <= |full|
    requires forall i | 0 <= i < n :: full[i] <= lo
    requires forall i | n <= i < |full| :: lo < full[i] <= hi
    ensures CountIn(full, lo, hi) == |full| - n
    decreases |full|
  {
    if n < |full| {
      CountSuffix(full[..|full| - 1], n, lo, hi);
    } else if full != [] {
      CountSuffix(full[..|full| - 1], n - 1, lo, hi);
    }
  }

  /** A pruned deque has exactly the hits of the last window. */
  lemma LiveCounts(live: seq<real>, full: seq<real>, now: real, t: real, window: real)
    requires now <= t && Ascending(full, now) && SuffixOf(live, full, now, window)
    ensures |Live(live, t - window)| == CountIn(full, t - window, t)
  {
    var rest := Live(live, t - window);
    LiveIsSuffix(live, full, now, t, window);
    LiveHeads(live, t - window);
    CountSuffix(full, |full| - |rest|, t - window, t);
  }

  lemma AgreeLater(hits: Hits, history: Hits, now: real, t: real, windows: string -> real)
    requires Agree(hits, history, now, windows) && now <= t
    ensures Agree(hits, history, t, windows)
  {
    hide Ascending, SuffixOf, Get;
    forall k ensures Ascending(Get(history, k), t) && SuffixOf(Get(hits, k), Get(history, k), t, windows(k)) {
      KeyLater(Get(hits, k), Get(history, k), now, t, windows(k));
    }
  }

  lemma KeyLater(live: seq<real>, full: seq<real>, now: real, t: real, window: real)
    requires Ascending(full, now) && SuffixOf(live, full, now, window) && now <= t
    ensures Ascending(full, t) && SuffixOf(live, full, t, window)
  {
  }

  lemma AgreeWith(hits: Hits, history: Hits, t: real, windows: string -> real, key: string, live: seq<real>)
    requires Agree(hits, history, t, windows) && SuffixOf(live, Get(history, key), t, windows(key))
    ensures Agree(hits[key := live], history, t, windows)
  {
    hide SuffixOf, Ascending;
  }

  lemma UnderLimitsStep(history: Hits, rules: seq<Rule>, t: real, n: nat)
    requires 0 < n <= |rules|
    ensures UnderLimits(history, rules[..n], t) <==>
            UnderLimits(history, rules[..n - 1], t) &&
            CountIn(Get(history, rules[n - 1].key), t - rules[n - 1].window, t) < rules[n - 1].limit
  {
    hide CountIn;
    var shorter, longer := rules[..n - 1], rules[..n];
    assert forall i | 0 <= i < n - 1 :: shorter[i] == longer[i];
    assert longer[n - 1] == rules[n - 1];
  }

  lemma UnderNone(history: Hits, rules: seq<Rule>, t: real)
    requires rules == []
    ensures UnderLimits(history, rules, t)
  {
  }

  lemma {:induction false} CheckAgrees(hits: Hits, history: Hits, rules: seq<Rule>, t: real, n: nat,
                                       limits: string -> int, windows: string -> real)
    requires Agree(hits, history, t, windows)
    requires Consistent(rules, limits, windows) && n <= |rules|
    ensures Agree(CheckRules(hits, rules, t, n).hits, history, t, windows)
    ensures CheckRules(hits, rules, t, n).ok <==> UnderLimits(history, rules[..n], t)
  {
    hide Agree, UnderLimits, CheckRule;
    if n == 0 {
      UnderNone(history, rules[..0], t);
    } else {
      CheckAgrees(hits, history, rules, t, n - 1, limits, windows);
      UnderLimitsStep(history, rules, t, n);
      CheckRuleAgrees(CheckRules(hits, rules, t, n - 1), history, rules[n - 1], t, windows);
    }
  }

  /** Pruning one key keeps the agreement and leaves exactly the hits of the last window. */
  lemma CheckRuleAgrees(before: Checked, history: Hits, r: Rule, t: real, windows: string -> real)
    requires Agree(before.hits, history, t, windows) && r.window == windows(r.key)
    ensures Agree(CheckRule(before, r, t).hits, history, t, windows)
    ensures CheckRule(before, r, t).ok <==>
            before.ok && CountIn(Get(history, r.key), t - r.window, t) < r.limit
  {
    hide Agree, Live, CountIn, Get;
    if before.ok {
      PruneAgrees(before.hits, history, r, t, windows);
    }
  }

  lemma PruneAgrees(hits: Hits, history: Hits, r: Rule, t: real, windows: string -> real)
    requires Agree(hits, history, t, windows) && r.window == windows(r.key)
    ensures Agree(hits[r.key := Live(Get(hits, r.key), t - r.window)], history, t, windows)
    ensures |Live(Get(hits, r.key), t - r.window)| == CountIn(Get(history, r.key), t - r.window, t)
  {
    var live, full := Get(hits, r.key), Get(history, r.key);
    assert Ascending(full, t) && SuffixOf(live, full, t, r.window);
    hide *;
    LiveCounts(live, full, t, t, r.window);
    LiveIsSuffix(live, full, t, t, r.window);
    AgreeWith(hits, history, t, windows, r.key, Live(live, t - r.window));
  }

  /** Recording appends one hit to each of the distinct keys and touches nothing else. */
  lemma {:induction false} RecordAt(hits: Hits, rules: seq<Rule>, t: real, n: nat, key: string)
    requires DistinctKeys(rules) && n <= |rules|
    ensures Get(Record(hits, rules, t, n), key) == Get(hits, key) + if HasKey(rules, n, key) then [t] else []
  {
    hide *;
    if n > 0 {
      RecordAt(hits, rules, t, n - 1, key);
      HasKeyStep(rules, n, key);
      RecordStep(hits, rules, t, n, key);
      AppendNothing(Get(hits, key));
      AppendNothing(Get(Record(hits, rules, t, n - 1), key));
    } else {
      RecordNone(hits, rules, t, key);
    }
  }

  lemma AppendNothing(s: seq<real>)
    ensures s + [] == s
  {
  }

  lemma RecordNone(hits: Hits, rules: seq<Rule>, t: real, key: string)
    ensures Get(Record(hits, rules, t, 0), key) == Get(hits, key) + []
    ensures !HasKey(rules, 0, key)
  {
  }

  predicate HasKey(rules: seq<Rule>, n: nat, key: string)
    requires n <= |rules|
  {
    exists i :: 0 <= i < n && rules[i].key == key
  }

  lemma HasKeyStep(rules: seq<Rule>, n: nat, key: string)
    requires DistinctKeys(rules) && 0 < n <= |rules|
    ensures HasKey(rules, n, key) <==> HasKey(rules, n - 1, key) || rules[n - 1].key == key
    ensures rules[n - 1].key == key ==> !HasKey(rules, n - 1, key)
  {
  }

  lemma RecordStep(hits: Hits, rules: seq<Rule>, t: real, n: nat, key: string)
    requires 0 < n <= |rules|
    ensures Get(Record(hits, rules, t, n), key)
         == Get(Record(hits, rules, t, n - 1), key) + if rules[n - 1].key == key then [t] else []
  {
    var earlier := Record(hits, rules, t, n - 1);
    assert Get(earlier, key) == Get(earlier, key) + [];
  }

  /** One call: the pruned limiter decides as the full one does, and they go on agreeing. */
  lemma AllowRefines(hits: Hits, history: Hits, rules: seq<Rule>, now: real, t: real,
                     limits: string -> int, windows: string -> real)
    requires Agree(hits, history, now, windows) && now <= t
    requires Consistent(rules, limits, windows) && DistinctKeys(rules)
    ensures AllowPruned(hits, rules, t).ok == AllowFull(history, rules, t).ok
    ensures Agree(AllowPruned(hits, rules, t).hits, AllowFull(history, rules, t).hits, t, windows)
  {
    AgreeLater(hits, history, now, t, windows);
    CheckAgrees(hits, history, rules, t, |rules|, limits, windows);
    assert rules[..|rules|] == rules;
    var c := CheckRules(hits, rules, t, |rules|);
    if c.ok {
      RecordAgrees(c.hits, history, rules, t, windows);
    }
  }

  lemma RecordAgrees(hits: Hits, history: Hits, rules: seq<Rule>, t: real, windows: string -> real)
    requires Agree(hits, history, t, windows) && DistinctKeys(rules)
    ensures Agree(Record(hits, rules, t, |rules|), Record(history, rules, t, |rules|), t, windows)
  {
    hide Record;
    var hits', history' := Record(hits, rules, t, |rules|), Record(history, rules, t, |rules|);
    forall k ensures Ascending(Get(history', k), t) && SuffixOf(Get(hits', k), Get(history', k), t, windows(k)) {
      RecordAt(hits, rules, t, |rules|, k);
      RecordAt(history, rules, t, |rules|, k);
      assert Ascending(Get(history, k), t) && SuffixOf(Get(hits, k), Get(history, k), t, windows(k));
      AppendAgrees(Get(hits, k), Get(history, k), t, windows(k),
                   if HasKey(rules, |rules|, k) then [t] else []);
    }
  }

  lemma AppendAgrees(live: seq<real>, full: seq<real>, t: real, window: real, more: seq<real>)
    requires Ascending(full, t) && SuffixOf(live, full, t, window)
    requires more == [] || more == [t]
    ensures Ascending(full + more, t) && SuffixOf(live + more, full + more, t, window)
  {
  }

  // ----- whole runs

  datatype Call = Call(rules: seq<Rule>, at: real)

  ghost predicate WellBehaved(calls: seq<Call>, limits: string -> int, windows: string -> real) {
    (forall i, j | 0 <= i < j < |calls| :: calls[i].at <= calls[j].at) &&
    forall c | c in calls :: DistinctKeys(c.rules) && Consistent(c.rules, limits, windows)
  }

  function RunPruned(hits: Hits, calls: seq<Call>): (seq<bool>, Hits)
    decreases |calls|
  {
    if calls == [] then ([], hits)
    else
      var c := AllowPruned(hits, calls[0].rules, calls[0].at);
      var (rest, final) := RunPruned(c.hits, calls[1..]);
      ([c.ok] + rest, final)
  }

  function RunFull(history: Hits, calls: seq<Call>): (seq<bool>, Hits)
    decreases |calls|
  {
    if calls == [] then ([], history)
    else
      var c := AllowFull(history, calls[0].rules, calls[0].at);
      var (rest, final) := RunFull(c.hits, calls[1..]);
      ([c.ok] + rest, final)
  }

  lemma {:induction false} RunsAgree(hits: Hits, history: Hits, calls: seq<Call>, now: real,
                                     limits: string -> int, windows: string -> real)
    requires WellBehaved(calls, limits, windows) && Agree(hits, history, now, windows)
    requires calls != [] ==> now <= calls[0].at
    ensures RunPruned(hits, calls).0 == RunFull(history, calls).0
    decreases |calls|
  {
    if calls != [] {
      var c := calls[0];
      assert c in calls;
      AllowRefines(hits, history, c.rules, now, c.at, limits, windows);
      RunsAgree(AllowPruned(hits, c.rules, c.at).hits, AllowFull(history, c.rules, c.at).hits, calls[1..], c.at, limits, windows);
    }
  }

  /** Pruning is invisible: under a clock that never goes back every call gets the answer of the full count. */
  lemma PruningIsInvisible(calls: seq<Call>, limits: string -> int, windows: string -> real)
    requires WellBehaved(calls, limits, windows)
    ensures RunPruned(map[], calls).0 == RunFull(map[], calls).0
  {
    if calls != [] {
      RunsAgree(map[], map[], calls, calls[0].at, limits, windows);
    }
  }

  /** No interval (lo, hi] as long as the window holds more than `limit` hits. */
  ghost predicate KeyWithinRate(hits: seq<real>, limit: int, window: real) {
    limit >= 0 ==> forall lo, hi | hi <= lo + window :: CountIn(hits, lo, hi) <= limit
  }

  ghost predicate WithinRate(history: Hits, now: real, limits: string -> int, windows: string -> real) {
    forall k :: Ascending(Get(history, k), now) && KeyWithinRate(Get(history, k), limits(k), windows(k))
  }

  lemma {:induction false} CountNarrower(hits: seq<real>, lo: real, hi: real, lo': real, hi': real)
    requires lo' <= lo
    requires forall i | 0 <= i < |hits| && lo < hits[i] <= hi :: hits[i] <= hi'
    ensures CountIn(hits, lo, hi) <= CountIn(hits, lo', hi')
    decreases |hits|
  {
    if hits != [] {
      CountNarrower(hits[..|hits| - 1], lo, hi, lo', hi');
    }
  }

  /** One more hit fits when the last window, up to now, is below the limit. */
  lemma AppendKeepsRate(hits: seq<real>, t: real, limit: int, window: real)
    requires KeyWithinRate(hits, limit, window) && Ascending(hits, t)
    requires CountIn(hits, t - window, t) < limit
    ensures KeyWithinRate(hits + [t], limit, window) && Ascending(hits + [t], t)
  {
    assert (hits + [t])[..|hits|] == hits;
    forall lo, hi | hi <= lo + window ensures CountIn(hits + [t], lo, hi) <= limit {
      if lo < t <= hi {
        CountNarrower(hits, lo, hi, t - window, t);
      }
    }
  }

  lemma AllowKeepsRate(history: Hits, rules: seq<Rule>, t: real, limits: string -> int, windows: string -> real)
    requires WithinRate(history, t, limits, windows)
    requires Consistent(rules, limits, windows) && DistinctKeys(rules)
    ensures WithinRate(AllowFull(history, rules, t).hits, t, limits, windows)
  {
    hide Record;
    if UnderLimits(history, rules, t) {
      var after := Record(history, rules, t, |rules|);
      forall k
        ensures Ascending(Get(after, k), t) && KeyWithinRate(Get(after, k), limits(k), windows(k))
      {
        RecordAt(history, rules, t, |rules|, k);
        assert Ascending(Get(history, k), t) && KeyWithinRate(Get(history, k), limits(k), windows(k));
        if i :| 0 <= i < |rules| && rules[i].key == k {
          AppendKeepsRate(Get(history, k), t, limits(k), windows(k));
        } else {
          assert Get(after, k) == Get(history, k);
        }
      }
    }
  }

  lemma {:induction false} RunKeepsRate(history: Hits, calls: seq<Call>, now: real,
                                        limits: string -> int, windows: string -> real)
    requires WellBehaved(calls, limits, windows) && WithinRate(history, now, limits, windows)
    requires calls != [] ==> now <= calls[0].at
    ensures WithinRate(RunFull(history, calls).1, if calls == [] then now else calls[|calls| - 1].at, limits, windows)
    decreases |calls|
  {
    hide KeyWithinRate, AllowFull, Consistent, DistinctKeys, Get;
    if calls != [] {
      var c := calls[0];
      assert c in calls;
      forall k ensures Ascending(Get(history, k), c.at) && KeyWithinRate(Get(history, k), limits(k), windows(k)) {
        assert Ascending(Get(history, k), now) && KeyWithinRate(Get(history, k), limits(k), windows(k));
      }
      AllowKeepsRate(history, c.rules, c.at, limits, windows);
      RunKeepsRate(AllowFull(history, c.rules, c.at).hits, calls[1..], c.at, limits, windows);
    }
  }

  /** No interval as long as a key's window ever holds more accepted hits than the key's limit. */
  lemma NoWindowOverLimit(calls: seq<Call>, limits: string -> int, windows: string -> real, key: string)
    requires WellBehaved(calls, limits, windows)
    ensures KeyWithinRate(Get(RunFull(map[], calls).1, key), limits(key), windows(key))
  {
    if calls != [] {
      forall k ensures Ascending(Get(map[], k), calls[0].at) && KeyWithinRate(Get(map[], k), limits(k), windows(k)) {
      }
      RunKeepsRate(map[], calls, calls[0].at, limits, windows);
    }
  }

  // ----- the rules of a magic link

  function MagicLinkRules(email: string, ip: string): seq<Rule> {
    [Rule("ml:email:1m:" + email, 1, 60.0),
     Rule("ml:email:1h:" + email, 5, 3600.0),
     Rule("ml:ip:1h:" + ip, 10, 3600.0)]
  }

  /** Whatever address and email a request carries, its three rules never share a deque. */
  lemma MagicLinkKeysDistinct(email: string, ip: string)
    ensures DistinctKeys(MagicLinkRules(email, ip))
  {
    PrefixesDiffer("ml:email:1m:", email, "ml:email:1h:", email, 10);
    PrefixesDiffer("ml:email:1m:", email, "ml:ip:1h:", ip, 3);
    PrefixesDiffer("ml:email:1h:", email, "ml:ip:1h:", ip, 3);
  }

  lemma PrefixesDiffer(a: string, x: string, b: string, y: string, i: nat)
    requires i < |a| && i < |b| && a[i] != b[i]
    ensures a + x != b + y
  {
    assert (a + x)[i] == a[i] && (b + y)[i] == b[i];
  }

  // ----- rules that share a key

  /** How many of the first n rules have the key. */
  function Uses(rules: seq<Rule>, n: nat, key: string): nat
    requires n <= |rules|
  {
    if n == 0 then 0 else Uses(rules, n - 1, key) + if rules[n - 1].key == key then 1 else 0
  }

  lemma {:induction false} RecordCounts(hits: Hits, rules: seq<Rule>, t: real, n: nat, key: string, lo: real, hi: real)
    requires n <= |rules| && lo < t <= hi
    ensures CountIn(Get(Record(hits, rules, t, n), key), lo, hi) == CountIn(Get(hits, key), lo, hi) + Uses(rules, n, key)
  {
    if n > 0 {
      RecordCounts(hits, rules, t, n - 1, key, lo, hi);
      var before := Get(Record(hits, rules, t, n - 1), rules[n - 1].key);
      assert (before + [t])[..|before|] == before;
    }
  }

  lemma {:induction false} UsesOnce(rules: seq<Rule>, n: nat, i: nat)
    requires i < |rules| && n <= |rules| && DistinctKeys(rules)
    ensures Uses(rules, n, rules[i].key) == if i < n then 1 else 0
  {
    if n > 0 {
      UsesOnce(rules, n - 1, i);
    }
  }

  /**
   An accepted call takes a key's window above its limit if and only if the hits there and the call's own uses of the
   key do; with distinct keys that never happens, since the check leaves room for one.
   */
  lemma SharedKeysExceedExactly(hits: Hits, history: Hits, rules: seq<Rule>, t: real, i: nat,
                                limits: string -> int, windows: string -> real)
    requires Agree(hits, history, t, windows) && Consistent(rules, limits, windows)
    requires i < |rules| && rules[i].window > 0.0 && AllowPruned(hits, rules, t).ok
    ensures var r, after := rules[i], Record(history, rules, t, |rules|);
            && (CountIn(Get(after, r.key), t - r.window, t) > r.limit <==>
                CountIn(Get(history, r.key), t - r.window, t) + Uses(rules, |rules|, r.key) > r.limit)
            && (DistinctKeys(rules) ==> CountIn(Get(after, r.key), t - r.window, t) <= r.limit)
  {
    hide *;
    AcceptedIsUnder(hits, history, rules, t, limits, windows);
    UnderAt(history, rules, t, i);
    var r := rules[i];
    RecordCounts(history, rules, t, |rules|, r.key, t - r.window, t);
    if DistinctKeys(rules) {
      UsesOnce(rules, |rules|, i);
    }
  }

  lemma UnderAt(history: Hits, rules: seq<Rule>, t: real, i: nat)
    requires UnderLimits(history, rules, t) && i < |rules|
    ensures CountIn(Get(history, rules[i].key), t - rules[i].window, t) < rules[i].limit
  {
  }

  lemma AcceptedIsUnder(hits: Hits, history: Hits, rules: seq<Rule>, t: real, limits: string -> int,
                        windows: string -> real)
    requires Agree(hits, history, t, windows) && Consistent(rules, limits, windows) && AllowPruned(hits, rules, t).ok
    ensures UnderLimits(history, rules, t)
  {
    hide Agree, Consistent, CheckRules, Record;
    CheckAgrees(hits, history, rules, t, |rules|, limits, windows);
    assert rules[..|rules|] == rules;
  }

  // ----- what a magic link is limited to

  datatype Request = Request(email: string, ip: string, at: real)

  function CallsOf(rs: seq<Request>): (calls: seq<Call>)
    ensures |calls| == |rs|
  {
    seq(|rs|, i requires 0 <= i < |rs| => Call(MagicLinkRules(rs[i].email, rs[i].ip), rs[i].at))
  }

  /** What a limiter that forgets nothing holds after the first n calls. */
  function HistoryOf(history: Hits, calls: seq<Call>, n: nat): Hits
    requires n <= |calls|
  {
    if n == 0 then history
    else AllowFull(HistoryOf(history, calls, n - 1), calls[n - 1].rules, calls[n - 1].at).hits
  }

  lemma {:induction false} HistoryStep(history: Hits, calls: seq<Call>, n: nat)
    requires n < |calls|
    ensures var c := AllowFull(history, calls[0].rules, calls[0].at);
            HistoryOf(history, calls, n + 1) == HistoryOf(c.hits, calls[1..], n)
  {
    hide AllowFull;
    if n > 0 {
      HistoryStep(history, calls, n - 1);
    } else {
      var c := AllowFull(history, calls[0].rules, calls[0].at);
      assert HistoryOf(history, calls, 1) == AllowFull(HistoryOf(history, calls, 0), calls[0].rules, calls[0].at).hits;
    }
  }

  lemma {:induction false} AnswersOf(history: Hits, calls: seq<Call>, n: nat)
    requires n < |calls|
    ensures var oks := RunFull(history, calls).0;
            && |oks| == |calls| && oks[n] == AllowFull(HistoryOf(history, calls, n), calls[n].rules, calls[n].at).ok
    decreases |calls|
  {
    hide AllowFull;
    var c := AllowFull(history, calls[0].rules, calls[0].at);
    if n > 0 {
      AnswersOf(c.hits, calls[1..], n - 1);
      HistoryStep(history, calls, n - 1);
    } else if |calls| > 1 {
      AnswersOf(c.hits, calls[1..], 0);
    } else {
      assert calls[1..] == [];
    }
  }

  /** How many of the first n requests of a kind were allowed in (lo, hi]. */
  ghost function Allowed(rs: seq<Request>, oks: seq<bool>, n: nat, kind: Request -> bool, lo: real, hi: real): nat
    requires n <= |rs| && n <= |oks|
  {
    if n == 0 then 0
    else Allowed(rs, oks, n - 1, kind, lo, hi) + if oks[n - 1] && kind(rs[n - 1]) && lo < rs[n - 1].at <= hi then 1 else 0
  }

  lemma {:induction false} RecordOutside(hits: Hits, rules: seq<Rule>, t: real, n: nat, key: string, lo: real, hi: real)
    requires n <= |rules| && !(lo < t <= hi)
    ensures CountIn(Get(Record(hits, rules, t, n), key), lo, hi) == CountIn(Get(hits, key), lo, hi)
  {
    if n > 0 {
      RecordOutside(hits, rules, t, n - 1, key, lo, hi);
      var before := Get(Record(hits, rules, t, n - 1), rules[n - 1].key);
      assert (before + [t])[..|before|] == before;
    }
  }

  /** The key is that of the requests of a kind, and of no others. */
  ghost predicate KeyOfKind(key: string, kind: Request -> bool) {
    forall r: Request :: Uses(MagicLinkRules(r.email, r.ip), 3, key) == if kind(r) then 1 else 0
  }

  lemma {:induction false} HistoryCounts(rs: seq<Request>, n: nat, key: string, kind: Request -> bool, lo: real, hi: real)
    requires n <= |rs| && KeyOfKind(key, kind)
    ensures |RunFull(map[], CallsOf(rs)).0| == |rs|
    ensures CountIn(Get(HistoryOf(map[], CallsOf(rs), n), key), lo, hi)
         == Allowed(rs, RunFull(map[], CallsOf(rs)).0, n, kind, lo, hi)
  {
    hide RunFull, CountIn, Uses, Record, UnderLimits, MagicLinkRules;
    AnswersLength(map[], CallsOf(rs));
    if n > 0 {
      HistoryCounts(rs, n - 1, key, kind, lo, hi);
      var calls, before := CallsOf(rs), HistoryOf(map[], CallsOf(rs), n - 1);
      var c := calls[n - 1];
      AnswersOf(map[], calls, n - 1);
      ThreeRules(rs[n - 1]);
      assert Uses(c.rules, 3, key) == if kind(rs[n - 1]) then 1 else 0;
      if lo < c.at <= hi {
        RecordCounts(before, c.rules, c.at, |c.rules|, key, lo, hi);
      } else {
        RecordOutside(before, c.rules, c.at, |c.rules|, key, lo, hi);
      }
    } else {
      NoHits(key, lo, hi);
    }
  }

  lemma ThreeRules(r: Request)
    ensures |MagicLinkRules(r.email, r.ip)| == 3
  {
  }

  lemma NoHits(key: string, lo: real, hi: real)
    ensures CountIn(Get(map[], key), lo, hi) == 0
  {
  }

  lemma {:induction false} AnswersLength(history: Hits, calls: seq<Call>)
    ensures |RunFull(history, calls).0| == |calls|
    decreases |calls|
  {
    hide AllowFull;
    if calls != [] {
      AnswersLength(AllowFull(history, calls[0].rules, calls[0].at).hits, calls[1..]);
    }
  }

  ghost function OfEmail(email: string): Request -> bool {
    (r: Request) => r.email == email
  }

  ghost function OfIp(ip: string): Request -> bool {
    (r: Request) => r.ip == ip
  }

  lemma KeysOfKinds(email: string, ip: string)
    ensures KeyOfKind("ml:email:1m:" + email, OfEmail(email))
    ensures KeyOfKind("ml:email:1h:" + email, OfEmail(email))
    ensures KeyOfKind("ml:ip:1h:" + ip, OfIp(ip))
  {
    forall r: Request
      ensures Uses(MagicLinkRules(r.email, r.ip), 3, "ml:email:1m:" + email) == if OfEmail(email)(r) then 1 else 0
      ensures Uses(MagicLinkRules(r.email, r.ip), 3, "ml:email:1h:" + email) == if OfEmail(email)(r) then 1 else 0
      ensures Uses(MagicLinkRules(r.email, r.ip), 3, "ml:ip:1h:" + ip) == if OfIp(ip)(r) then 1 else 0
    {
      UsesOfThree(MagicLinkRules(r.email, r.ip), "ml:email:1m:" + email);
      UsesOfThree(MagicLinkRules(r.email, r.ip), "ml:email:1h:" + email);
      UsesOfThree(MagicLinkRules(r.email, r.ip), "ml:ip:1h:" + ip);
      hide Uses;
      SamePrefix("ml:email:1m:", r.email, email);
      SamePrefix("ml:email:1h:", r.email, email);
      SamePrefix("ml:ip:1h:", r.ip, ip);
      PrefixesDiffer("ml:email:1m:", r.email, "ml:email:1h:", email, 10);
      PrefixesDiffer("ml:email:1m:", email, "ml:email:1h:", r.email, 10);
      PrefixesDiffer("ml:email:1m:", r.email, "ml:ip:1h:", ip, 3);
      PrefixesDiffer("ml:email:1m:", email, "ml:ip:1h:", r.ip, 3);
      PrefixesDiffer("ml:email:1h:", r.email, "ml:ip:1h:", ip, 3);
      PrefixesDiffer("ml:email:1h:", email, "ml:ip:1h:", r.ip, 3);
    }
  }

  lemma UsesOfThree(rules: seq<Rule>, key: string)
    requires |rules| == 3
    ensures Uses(rules, 3, key)
         == (if rules[0].key == key then 1 else 0) + (if rules[1].key == key then 1 else 0) + (if rules[2].key == key then 1 else 0)
  {
    assert Uses(rules, 1, key) == if rules[0].key == key then 1 else 0;
    assert Uses(rules, 2, key) == Uses(rules, 1, key) + if rules[1].key == key then 1 else 0;
  }

  lemma SamePrefix(p: string, a: string, b: string)
    ensures p + a == p + b <==> a == b
  {
    assert (p + a)[|p|..] == a && (p + b)[|p|..] == b;
  }

  function LimitOf(key: string): int {
    if "ml:email:1m:" <= key then 1 else if "ml:email:1h:" <= key then 5 else 10
  }

  function WindowOf(key: string): real {
    if "ml:email:1m:" <= key then 60.0 else 3600.0
  }

  lemma MagicLinksConsistent(email: string, ip: string)
    ensures Consistent(MagicLinkRules(email, ip), LimitOf, WindowOf)
  {
    var a, b, c := "ml:email:1m:" + email, "ml:email:1h:" + email, "ml:ip:1h:" + ip;
    assert b[10] == 'h' && c[3] == 'i';
  }

  ghost predicate InOrder(rs: seq<Request>) {
    forall i, j | 0 <= i < j < |rs| :: rs[i].at <= rs[j].at
  }

  lemma {:induction false} MagicLinksBehave(rs: seq<Request>)
    requires InOrder(rs)
    ensures WellBehaved(CallsOf(rs), LimitOf, WindowOf)
  {
    hide MagicLinkRules, DistinctKeys, Consistent;
    forall c | c in CallsOf(rs)
      ensures DistinctKeys(c.rules) && Consistent(c.rules, LimitOf, WindowOf)
    {
      var i :| 0 <= i < |rs| && CallsOf(rs)[i] == c;
      MagicLinkKeysDistinct(rs[i].email, rs[i].ip);
      MagicLinksConsistent(rs[i].email, rs[i].ip);
    }
  }

  /**
   Which magic links are sent, whoever asks and in whatever order under a clock that does not go back: those for an
   address with none in the last minute and fewer than five in the last hour, from a client with fewer than ten.
   */
  lemma {:induction false} MagicLinkExactly(rs: seq<Request>, n: nat)
    requires InOrder(rs) && n < |rs|
    ensures var oks, r := RunPruned(map[], CallsOf(rs)).0, rs[n];
            && |oks| == |rs|
            && (oks[n] <==>
                && Allowed(rs, oks, n, OfEmail(r.email), r.at - 60.0, r.at) == 0
                && Allowed(rs, oks, n, OfEmail(r.email), r.at - 3600.0, r.at) < 5
                && Allowed(rs, oks, n, OfIp(r.ip), r.at - 3600.0, r.at) < 10)
  {
    hide RunFull, RunPruned, Allowed, CountIn, WellBehaved, KeyOfKind, AllowFull, Record;
    MagicLinksBehave(rs);
    var calls, r := CallsOf(rs), rs[n];
    PruningIsInvisible(calls, LimitOf, WindowOf);
    AnswersOf(map[], calls, n);
    KeysOfKinds(r.email, r.ip);
    HistoryCounts(rs, n, "ml:email:1m:" + r.email, OfEmail(r.email), r.at - 60.0, r.at);
    HistoryCounts(rs, n, "ml:email:1h:" + r.email, OfEmail(r.email), r.at - 3600.0, r.at);
    HistoryCounts(rs, n, "ml:ip:1h:" + r.ip, OfIp(r.ip), r.at - 3600.0, r.at);
    AllowedIsUnder(HistoryOf(map[], calls, n), calls[n].rules, r.at);
    hide *;
    UnderThree(HistoryOf(map[], calls, n), r);
    assert calls[n].rules == MagicLinkRules(r.email, r.ip) by {
      CallIs(rs, n);
    }
  }

  lemma CallIs(rs: seq<Request>, n: nat)
    requires n < |rs|
    ensures CallsOf(rs)[n] == Call(MagicLinkRules(rs[n].email, rs[n].ip), rs[n].at)
  {
  }

  lemma AllowedIsUnder(history: Hits, rules: seq<Rule>, t: real)
    ensures AllowFull(history, rules, t).ok <==> UnderLimits(history, rules, t)
  {
  }

  lemma UnderThree(history: Hits, r: Request)
    ensures UnderLimits(history, MagicLinkRules(r.email, r.ip), r.at) <==>
            && CountIn(Get(history, "ml:email:1m:" + r.email), r.at - 60.0, r.at) < 1
            && CountIn(Get(history, "ml:email:1h:" + r.email), r.at - 3600.0, r.at) < 5
            && CountIn(Get(history, "ml:ip:1h:" + r.ip), r.at - 3600.0, r.at) < 10
  {
    hide CountIn;
    var rules := MagicLinkRules(r.email, r.ip);
    assert |rules| == 3;
    assert rules[0].limit == 1 && rules[1].limit == 5 && rules[2].limit == 10;
  }
}
