/**
 AIS hygiene: plausibility filters, and a dedup cache that stores one report of a vessel every 120 seconds and
 drops old entries once it holds more than 50000 vessels. Times are seconds.
 */
module AisHygiene {
  import opened Options
  import opened FiniteSums

  const MAX_TANKER_SOG := 25.0
  const MAX_ANY_SOG := 50.0
  const MAX_POSITION_AGE := 24.0 * 3600.0
  const DEDUP_SECONDS := 120.0
  const MAX_CACHE_SIZE := 50000
  const EXCLUDED_MMSI_PREFIXES := ["970", "972", "974", "99", "111"]

  datatype Report = Report(mmsi: string, lat: real, lon: real, sog: real, shipType: int, timestamp: Option<real>)

  predicate IsDigits(s: string) {
    forall c | c in s :: '0' <= c <= '9'
  }

  predicate ExcludedRange(mmsi: string) {
    exists p | p in EXCLUDED_MMSI_PREFIXES :: p <= mmsi
  }

  /** None for a plausible report, otherwise the first reason against it. */
  function ValidatePosition(r: Report, clock: real): (reason: Option<string>)
    ensures reason.None? <==>
              && |r.mmsi| == 9 && IsDigits(r.mmsi) && !ExcludedRange(r.mmsi)
              && (r.lat != 0.0 || r.lon != 0.0) && -90.0 <= r.lat <= 90.0 && -180.0 <= r.lon <= 180.0
              && 0.0 <= r.sog <= (if 80 <= r.shipType <= 89 then 25.0 else 50.0)
              && (r.timestamp.Some? ==> -60.0 <= clock - r.timestamp.value <= 86400.0)
  {
    if |r.mmsi| != 9 || !IsDigits(r.mmsi) then Some("invalid_mmsi")
    else if ExcludedRange(r.mmsi) then Some("excluded_mmsi_range")
    else if r.lat == 0.0 && r.lon == 0.0 then Some("null_island")
    else if !(-90.0 <= r.lat <= 90.0) then Some("lat_out_of_range")
    else if !(-180.0 <= r.lon <= 180.0) then Some("lon_out_of_range")
    else if r.sog < 0.0 then Some("negative_sog")
    else if 80 <= r.shipType <= 89 && r.sog > MAX_TANKER_SOG then Some("tanker_speed_implausible")
    else if r.sog > MAX_ANY_SOG then Some("speed_implausible")
    else if r.timestamp.None? then None
    else if clock - r.timestamp.value > MAX_POSITION_AGE then Some("stale_timestamp")
    else if clock - r.timestamp.value < -60.0 then Some("future_timestamp")
    else None
  }

  type Cache = map<string, real>

  predicate TooSoon(cache: Cache, mmsi: string, now: real) {
    mmsi in cache && now - cache[mmsi] < DEDUP_SECONDS
  }

  function Pruned(cache: Cache, now: real): Cache {
    if |cache| > MAX_CACHE_SIZE then map k | k in cache && cache[k] > now - DEDUP_SECONDS * 2.0 :: cache[k]
    else cache
  }

  function Store(cache: Cache, mmsi: string, now: real): (bool, Cache) {
    if TooSoon(cache, mmsi, now) then (false, cache) else (true, Pruned(cache[mmsi := now], now))
  }

  /** One more for a reason, as a dictionary of counters does it. */
  function Bump(reasons: map<string, nat>, reason: string): map<string, nat> {
    reasons[reason := (if reason in reasons then reasons[reason] else 0) + 1]
  }

  ghost function CountOf(reasons: map<string, nat>): string -> real {
    reason => if reason in reasons then reasons[reason] as real else 0.0
  }

  class Hygiene {
    var lastStored: Cache
    var total: nat
    var passed: nat
    var rejected: nat
    var deduped: nat
    var reasons: map<string, nat>

    /** The counters add up, and the reasons account for every rejection. */
    ghost predicate Valid()
      reads this
    {
      total == passed + rejected + deduped && Sum(reasons.Keys, CountOf(reasons)) == rejected as real
    }

    constructor ()
      ensures Valid() && lastStored == map[] && total == 0
    {
      lastStored, reasons := map[], map[];
      total, passed, rejected, deduped := 0, 0, 0, 0;
      new;
      SumEmpty(CountOf(reasons));
    }

    method ShouldStore(mmsi: string, timestamp: Option<real>, clock: real) returns (ok: bool)
      modifies this`lastStored
      ensures (ok, lastStored) == Store(old(lastStored), mmsi, timestamp.GetOr(clock))
    {
      var now := timestamp.GetOr(clock);
      if mmsi in lastStored && now - lastStored[mmsi] < DEDUP_SECONDS {
        return false;
      }
      lastStored := lastStored[mmsi := now];
      if |lastStored| > MAX_CACHE_SIZE {
        var cutoff := now - DEDUP_SECONDS * 2.0;
        lastStored := map k | k in lastStored && lastStored[k] > cutoff :: lastStored[k];
      }
      return true;
    }

    method FilterAndCount(r: Report, clock: real) returns (ok: bool)
      requires Valid()
      modifies this
      ensures Valid() && total == old(total) + 1
      ensures var reason, stored := ValidatePosition(r, clock), Store(old(lastStored), r.mmsi, r.timestamp.GetOr(clock));
              if reason.Some? then
                !ok && rejected == old(rejected) + 1 && deduped == old(deduped) &&
                reasons == Bump(old(reasons), reason.value) && lastStored == old(lastStored)
              else
                ok == stored.0 && lastStored == stored.1 && rejected == old(rejected) &&
                reasons == old(reasons) && deduped == old(deduped) + (if ok then 0 else 1)
    {
      total := total + 1;
      var reason := ValidatePosition(r, clock);
      if reason.Some? {
        rejected := rejected + 1;
        BumpAddsOne(reasons, reason.value);
        reasons := Bump(reasons, reason.value);
        return false;
      }
      ok := ShouldStore(r.mmsi, r.timestamp, clock);
      if !ok {
        deduped := deduped + 1;
      } else {
        passed := passed + 1;
      }
    }
  }

  lemma BumpAddsOne(reasons: map<string, nat>, reason: string)
    ensures var after := Bump(reasons, reason);
            Sum(after.Keys, CountOf(after)) == Sum(reasons.Keys, CountOf(reasons)) + 1.0
  {
    hide Sum;
    var after := Bump(reasons, reason);
    var others := reasons.Keys - {reason};
    assert after.Keys - {reason} == others;
    SumPick(after.Keys, CountOf(after), reason);
    SumSame(others, CountOf(after), CountOf(reasons));
    if reason in reasons {
      SumPick(reasons.Keys, CountOf(reasons), reason);
    } else {
      assert others == reasons.Keys;
    }
  }

  // ----- any sequence of valid reports, in any order of time

  datatype Stamp = Stamp(mmsi: string, at: real)

  /** The cache after the first n reports. */
  function After(stamps: seq<Stamp>, n: nat): Cache
    requires n <= |stamps|
  {
    if n == 0 then map[] else Store(After(stamps, n - 1), stamps[n - 1].mmsi, stamps[n - 1].at).1
  }

  predicate Stores(stamps: seq<Stamp>, n: nat)
    requires n < |stamps|
  {
    !TooSoon(After(stamps, n), stamps[n].mmsi, stamps[n].at)
  }

  /** Storing report n makes the cache too large. */
  predicate Prunes(stamps: seq<Stamp>, n: nat)
    requires n < |stamps|
  {
    Stores(stamps, n) && |After(stamps, n)[stamps[n].mmsi := stamps[n].at]| > 50000
  }

  /** Report i is the last of the vessel stored among the first n. */
  ghost predicate Latest(stamps: seq<Stamp>, n: nat, vessel: string, i: nat)
    requires n <= |stamps|
  {
    i < n && Stores(stamps, i) && stamps[i].mmsi == vessel &&
    forall j: nat | i < j < n && stamps[j].mmsi == vessel :: !Stores(stamps, j)
  }

  /** No prune since has taken report i, more than 240 seconds old by the clock of the pruning report. */
  ghost predicate Survives(stamps: seq<Stamp>, n: nat, i: nat)
    requires i < n <= |stamps|
  {
    forall j: nat | i < j < n && Prunes(stamps, j) :: stamps[i].at > stamps[j].at - DEDUP_SECONDS * 2.0
  }

  lemma CacheStep(stamps: seq<Stamp>, n: nat, vessel: string)
    requires n < |stamps|
    ensures var s, before, after := stamps[n], After(stamps, n), After(stamps, n + 1);
            if Stores(stamps, n) && s.mmsi == vessel then vessel in after && after[vessel] == s.at
            else
              (vessel in after <==>
                 vessel in before && (Prunes(stamps, n) ==> before[vessel] > s.at - DEDUP_SECONDS * 2.0)) &&
              (vessel in after ==> after[vessel] == before[vessel])
    ensures Stores(stamps, n) <==>
            !(stamps[n].mmsi in After(stamps, n) && stamps[n].at - After(stamps, n)[stamps[n].mmsi] < DEDUP_SECONDS)
  {
  }

  lemma LatestStep(stamps: seq<Stamp>, n: nat, vessel: string, i: nat)
    requires n < |stamps|
    ensures Latest(stamps, n + 1, vessel, i) <==>
            if Stores(stamps, n) && stamps[n].mmsi == vessel then i == n else Latest(stamps, n, vessel, i)
    ensures i < n ==> (Survives(stamps, n + 1, i) <==>
                       Survives(stamps, n, i) && (Prunes(stamps, n) ==> stamps[i].at > stamps[n].at - DEDUP_SECONDS * 2.0))
    ensures Survives(stamps, n + 1, n)
  {
    hide Stores, Prunes;
  }

  /** What the cache holds for a vessel: its last stored report, if that has survived every prune. */
  lemma {:induction false} CacheMeans(stamps: seq<Stamp>, n: nat, vessel: string)
    requires n <= |stamps|
    ensures vessel in After(stamps, n) <==> exists i: nat :: Latest(stamps, n, vessel, i) && Survives(stamps, n, i)
    ensures forall i: nat | Latest(stamps, n, vessel, i) && Survives(stamps, n, i) ::
              vessel in After(stamps, n) && After(stamps, n)[vessel] == stamps[i].at
  {
    hide Stores, Prunes, After, Latest, Survives;
    if n == 0 {
      NoneStored(stamps, vessel);
    } else {
      CacheMeans(stamps, n - 1, vessel);
      CacheStep(stamps, n - 1, vessel);
      forall i: nat
        ensures Latest(stamps, n, vessel, i) ==> i < n
        ensures Latest(stamps, n - 1, vessel, i) ==> i < n - 1
        ensures Latest(stamps, n, vessel, i) <==>
                if Stores(stamps, n - 1) && stamps[n - 1].mmsi == vessel then i == n - 1 else Latest(stamps, n - 1, vessel, i)
        ensures i < n - 1 ==>
                  (Survives(stamps, n, i) <==>
                   (Survives(stamps, n - 1, i) &&
                    (Prunes(stamps, n - 1) ==> stamps[i].at > stamps[n - 1].at - DEDUP_SECONDS * 2.0)))
        ensures i == n - 1 ==> Survives(stamps, n, i)
      {
        LatestStep(stamps, n - 1, vessel, i);
        LatestIsEarlier(stamps, n, vessel, i);
        LatestIsEarlier(stamps, n - 1, vessel, i);
      }
    }
  }

  lemma LatestIsEarlier(stamps: seq<Stamp>, n: nat, vessel: string, i: nat)
    requires n <= |stamps|
    ensures Latest(stamps, n, vessel, i) ==> i < n && Stores(stamps, i) && stamps[i].mmsi == vessel
  {
  }

  lemma NoneStored(stamps: seq<Stamp>, vessel: string)
    ensures vessel !in After(stamps, 0) && forall i: nat :: !Latest(stamps, 0, vessel, i)
  {
  }

  /**
   Exactly when a report is stored, in whatever order the reports come: its vessel's last stored report is at least
   120 seconds older, or a prune in between had already dropped it.
   */
  lemma StoredExactly(stamps: seq<Stamp>, n: nat)
    requires n < |stamps|
    ensures Stores(stamps, n) <==>
            forall i: nat | Latest(stamps, n, stamps[n].mmsi, i) ::
              stamps[n].at - stamps[i].at >= 120.0 ||
              exists j: nat :: i < j < n && Prunes(stamps, j) && stamps[i].at <= stamps[j].at - 240.0
  {
    hide Stores, Prunes, After, Latest;
    var vessel := stamps[n].mmsi;
    CacheMeans(stamps, n, vessel);
    CacheStep(stamps, n, vessel);
    forall i: nat | Latest(stamps, n, vessel, i)
      ensures i < n
      ensures Survives(stamps, n, i) <==>
              !exists j: nat :: i < j < n && Prunes(stamps, j) && stamps[i].at <= stamps[j].at - DEDUP_SECONDS * 2.0
    {
      LatestIsEarlier(stamps, n, vessel, i);
    }
  }

  // ----- a report that is too late

  function Digits(i: nat, k: nat): (s: string)
    ensures |s| == k && IsDigits(s)
  {
    if k == 0 then [] else Digits(i / 10, k - 1) + ["0123456789"[i % 10]]
  }

  lemma {:induction false} DigitsDiffer(i: nat, j: nat, k: nat)
    requires i < Power(k) && j < Power(k) && Digits(i, k) == Digits(j, k)
    ensures i == j
  {
    if k > 0 {
      var a, b := Digits(i / 10, k - 1), Digits(j / 10, k - 1);
      assert Digits(i, k)[..k - 1] == a && Digits(j, k)[..k - 1] == b;
      assert "0123456789"[i % 10] == Digits(i, k)[k - 1] == Digits(j, k)[k - 1] == "0123456789"[j % 10];
      DigitsDiffer(i / 10, j / 10, k - 1);
    }
  }

  function Power(k: nat): nat {
    if k == 0 then 1 else 10 * Power(k - 1)
  }

  /** A valid MMSI for each number. */
  function Vessel(i: nat): string {
    "2" + Digits(i, 8)
  }

  lemma VesselsDiffer(i: nat, j: nat)
    requires i != j && i <= MAX_CACHE_SIZE && j <= MAX_CACHE_SIZE
    ensures Vessel(i) != Vessel(j)
  {
    assert Power(8) == 100000000;
    if Vessel(i) == Vessel(j) {
      assert Vessel(i)[1..] == Digits(i, 8) && Vessel(j)[1..] == Digits(j, 8);
      DigitsDiffer(i, j, 8);
    }
  }

  lemma VesselIsValid(i: nat)
    ensures |Vessel(i)| == 9 && IsDigits(Vessel(i)) && !ExcludedRange(Vessel(i))
  {
    assert forall p | p in EXCLUDED_MMSI_PREFIXES :: |p| > 0 && p[0] != '2';
    assert Vessel(i)[0] == '2';
  }

  /** As many vessels as the cache may hold report at once; 300 seconds on comes one more, and then a late report. */
  function Crowd(): (stamps: seq<Stamp>)
    ensures |stamps| == MAX_CACHE_SIZE + 2
  {
    seq(MAX_CACHE_SIZE, i requires 0 <= i < MAX_CACHE_SIZE => Stamp(Vessel(i), 0.0)) +
    [Stamp(Vessel(MAX_CACHE_SIZE), 300.0), Stamp(Vessel(0), 1.0)]
  }

  lemma {:induction false} CrowdFits(n: nat)
    requires n <= MAX_CACHE_SIZE
    ensures |After(Crowd(), n)| == n && forall v | v in After(Crowd(), n) :: After(Crowd(), n)[v] == 0.0
    ensures forall i: nat :: n <= i <= MAX_CACHE_SIZE ==> Vessel(i) !in After(Crowd(), n)
    ensures n > 0 ==> Stores(Crowd(), n - 1)
  {
    hide Crowd, Vessel;
    if n > 0 {
      CrowdFits(n - 1);
      CrowdAt(n - 1);
      var before := After(Crowd(), n - 1);
      assert Store(before, Vessel(n - 1), 0.0) == (true, before[Vessel(n - 1) := 0.0]);
      forall i: nat | n <= i <= MAX_CACHE_SIZE
        ensures Vessel(i) !in After(Crowd(), n)
      {
        VesselsDiffer(n - 1, i);
      }
    }
  }

  lemma CrowdAt(n: nat)
    requires n < MAX_CACHE_SIZE
    ensures Crowd()[n] == Stamp(Vessel(n), 0.0)
  {
  }

  lemma CrowdIsPlausible(i: nat)
    requires i <= MAX_CACHE_SIZE + 1
    ensures |Crowd()[i].mmsi| == 9 && IsDigits(Crowd()[i].mmsi) && !ExcludedRange(Crowd()[i].mmsi)
  {
    hide Vessel, ExcludedRange, IsDigits;
    VesselIsValid(if i <= MAX_CACHE_SIZE then i else 0);
  }

  /**
   All of these are plausible. The prune at 300 drops every entry of the crowd, so a report one second after the stored
   one is stored too.
   */
  lemma LateReportIsStored()
    ensures var n := MAX_CACHE_SIZE + 1;
            && Stores(Crowd(), 0) && Stores(Crowd(), n) && Crowd()[0].mmsi == Crowd()[n].mmsi
            && Crowd()[n].at - Crowd()[0].at == 1.0
    ensures forall i: nat | i <= MAX_CACHE_SIZE + 1 ::
              |Crowd()[i].mmsi| == 9 && IsDigits(Crowd()[i].mmsi) && !ExcludedRange(Crowd()[i].mmsi)
  {
    hide Vessel, ExcludedRange, IsDigits;
    var n := MAX_CACHE_SIZE;
    CrowdFits(1);
    CrowdFits(n);
    LastOfCrowd();
    var last := Vessel(n);
    var full := After(Crowd(), n)[last := 300.0];
    assert |full| == n + 1;
    assert After(Crowd(), n + 1) == Pruned(full, 300.0);
    VesselsDiffer(0, n);
    assert Vessel(0) !in Pruned(full, 300.0);
    hide *;
    forall i: nat | i <= MAX_CACHE_SIZE + 1
      ensures |Crowd()[i].mmsi| == 9 && IsDigits(Crowd()[i].mmsi) && !ExcludedRange(Crowd()[i].mmsi)
    {
      CrowdIsPlausible(i);
    }
  }

  lemma LastOfCrowd()
    ensures Crowd()[0] == Stamp(Vessel(0), 0.0)
    ensures Crowd()[MAX_CACHE_SIZE] == Stamp(Vessel(MAX_CACHE_SIZE), 300.0)
    ensures Crowd()[MAX_CACHE_SIZE + 1] == Stamp(Vessel(0), 1.0)
  {
  }

  // ----- reports that are not too late

  /** No report is stamped more than 120 seconds before an earlier one. A clock that never goes back satisfies this. */
  ghost predicate BoundedDisorder(stamps: seq<Stamp>) {
    forall i, j | 0 <= i < j < |stamps| :: stamps[j].at >= stamps[i].at - DEDUP_SECONDS
  }

  /** Pruning is invisible as long as no report is more than 120 seconds late. */
  lemma PruningIsInvisible(stamps: seq<Stamp>, n: nat)
    requires BoundedDisorder(stamps) && n < |stamps|
    ensures Stores(stamps, n) <==>
            forall i: nat | Latest(stamps, n, stamps[n].mmsi, i) :: stamps[n].at - stamps[i].at >= DEDUP_SECONDS
  {
    hide Stores, Prunes, Latest;
    StoredExactly(stamps, n);
  }

  lemma {:induction false} LatestExists(stamps: seq<Stamp>, n: nat, vessel: string, i: nat) returns (l: nat)
    requires i < n <= |stamps| && Stores(stamps, i) && stamps[i].mmsi == vessel
    ensures i <= l && Latest(stamps, n, vessel, l)
    decreases n - i
  {
    hide Stores;
    if j: nat :| i < j < n && stamps[j].mmsi == vessel && Stores(stamps, j) {
      l := LatestExists(stamps, n, vessel, j);
    } else {
      l := i;
    }
  }

  /** Then two stored reports of one vessel are never closer than 120 seconds. */
  lemma {:induction false} StoredReportsAreSpaced(stamps: seq<Stamp>, i: nat, n: nat)
    requires BoundedDisorder(stamps) && i < n < |stamps| && stamps[i].mmsi == stamps[n].mmsi
    requires Stores(stamps, i) && Stores(stamps, n)
    ensures stamps[n].at - stamps[i].at >= 120.0
    decreases n
  {
    hide Stores, BoundedDisorder;
    PruningIsInvisible(stamps, n);
    var l := LatestExists(stamps, n, stamps[n].mmsi, i);
    if i < l {
      StoredReportsAreSpaced(stamps, i, l);
    }
  }
}
