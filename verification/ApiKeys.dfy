/**
 API keys: issuance under a cap that concurrent requests check and use up in separate statements, revocation, and
 resolution that meters a request once.
 */
module ApiKeys {
  import opened Options

  const MAX_ACTIVE_KEYS := 5

  /** SHA-256 as an injective constructor. */
  datatype Digest = Sha256(raw: string)

  /** The row's position in the table is its id. */
  datatype KeyRow = KeyRow(hash: Digest, email: string, revoked: bool)

  datatype Creation = Created(id: nat) | LimitReached | DuplicateHash

  function Active(rows: seq<KeyRow>, email: string): nat {
    if rows == [] then 0
    else Active(rows[..|rows| - 1], email) + if Owns(rows[|rows| - 1], email) then 1 else 0
  }

  predicate Owns(row: KeyRow, email: string) {
    row.email == email && !row.revoked
  }

  /** The unique index on the hash column. */
  ghost predicate UniqueHashes(rows: seq<KeyRow>) {
    forall i, j | 0 <= i < j < |rows| :: rows[i].hash != rows[j].hash
  }

  predicate HasHash(rows: seq<KeyRow>, hash: Digest) {
    exists i :: 0 <= i < |rows| && rows[i].hash == hash
  }

  function Create(rows: seq<KeyRow>, email: string, raw: string): (Creation, seq<KeyRow>) {
    if Active(rows, email) >= MAX_ACTIVE_KEYS then (LimitReached, rows)
    else if HasHash(rows, Sha256(raw)) then (DuplicateHash, rows)
    else (Created(|rows|), rows + [KeyRow(Sha256(raw), email, false)])
  }

  function Revoke(rows: seq<KeyRow>, email: string, id: nat): (bool, seq<KeyRow>) {
    if id < |rows| && Owns(rows[id], email) then (true, rows[id := rows[id].(revoked := true)]) else (false, rows)
  }

  /** The first row with the hash, if it is not revoked. */
  function Find(rows: seq<KeyRow>, raw: string, i: nat): Option<nat>
    requires i <= |rows|
    decreases |rows| - i
  {
    if i == |rows| then None
    else if rows[i].hash == Sha256(raw) then (if rows[i].revoked then None else Some(i))
    else Find(rows, raw, i + 1)
  }

  function Lookup(rows: seq<KeyRow>, raw: Option<string>): Option<nat> {
    if raw.None? then None else Find(rows, raw.value, 0)
  }

  class Request {
    const raw: Option<string>
    var resolved: Option<Option<nat>>  // the attribute on request.state

    constructor (raw: Option<string>)
      ensures this.raw == raw && resolved == None
    {
      this.raw, resolved := raw, None;
    }
  }

  class KeyStore {
    var rows: seq<KeyRow>
    var metered: seq<nat>  // one entry for each call to metering.record

    /** The `count()` query. */
    method CountActive(email: string) returns (active: nat)
      ensures active == Active(rows, email)
    {
      active := 0;
      var i := 0;
      while i < |rows|
        invariant 0 <= i <= |rows| && active == Active(rows[..i], email)
      {
        assert rows[..i + 1][..i] == rows[..i];
        if rows[i].email == email && !rows[i].revoked {
          active := active + 1;
        }
        i := i + 1;
      }
      assert rows[..i] == rows;
    }

    /** `create_key` with nobody else at work between its query and its commit. */
    method CreateKey(email: string, raw: string) returns (r: Creation)
      modifies this`rows
      ensures (r, rows) == Create(old(rows), email, raw)
    {
      var active := CountActive(email);
      if active >= MAX_ACTIVE_KEYS {
        return LimitReached;
      }
      if HasHash(rows, Sha256(raw)) {
        return DuplicateHash;
      }
      r := Created(|rows|);
      rows := rows + [KeyRow(Sha256(raw), email, false)];
    }

    method RevokeKey(email: string, id: nat) returns (ok: bool)
      modifies this`rows
      ensures (ok, rows) == Revoke(old(rows), email, id)
      ensures ok <==> id < |old(rows)| && old(rows)[id].email == email && !old(rows)[id].revoked
    {
      if id >= |rows| || !Owns(rows[id], email) {
        return false;
      }
      rows := rows[id := rows[id].(revoked := true)];
      return true;
    }

    method ResolveRequestKey(request: Request) returns (row: Option<nat>)
      modifies this`metered, request
      ensures request.resolved == Some(row)
      ensures old(request.resolved).Some? ==> row == old(request.resolved).value && metered == old(metered)
      ensures old(request.resolved).None? ==>
                row == Lookup(rows, request.raw) &&
                metered == old(metered) + if row.Some? then [row.value] else []
    {
      if request.resolved.Some? {
        return request.resolved.value;
      }
      row := Lookup(rows, request.raw);
      if row.Some? {
        metered := metered + [row.value];
      }
      request.resolved := Some(row);
    }
  }

  // ----- the key table under concurrent requests

  /**
   A request between its count, which found the owner below the cap, and its insert. The table had `seen` rows when
   it counted. No lock spans the two statements.
   */
  datatype Mint = Mint(email: string, seen: nat)

  datatype State = State(rows: seq<KeyRow>, mints: map<nat, Mint>)

  /** One committed statement of one request. A step that is not enabled changes nothing. */
  datatype Step =
    | Count(request: nat, email: string)
    | Insert(request: nat, raw: string)
    | Abandon(request: nat)
    | RevokeOwn(email: string, id: nat)

  function Apply(s: State, step: Step): State {
    match step
    case Count(i, email) =>
      if i !in s.mints && Active(s.rows, email) < MAX_ACTIVE_KEYS then s.(mints := s.mints[i := Mint(email, |s.rows|)])
      else s
    case Insert(i, raw) =>
      if i !in s.mints then s
      else if HasHash(s.rows, Sha256(raw)) then s.(mints := s.mints - {i})
      else State(s.rows + [KeyRow(Sha256(raw), s.mints[i].email, false)], s.mints - {i})
    case Abandon(i) => s.(mints := s.mints - {i})
    case RevokeOwn(email, id) => s.(rows := Revoke(s.rows, email, id).1)
  }

  function Run(s: State, steps: seq<Step>): State
    decreases |steps|
  {
    if steps == [] then s else Run(Apply(s, steps[0]), steps[1..])
  }

  lemma {:induction false} ActiveAfterRevoke(rows: seq<KeyRow>, id: nat, email: string)
    requires id < |rows|
    ensures Active(rows[id := rows[id].(revoked := true)], email)
         == Active(rows, email) - if Owns(rows[id], email) then 1 else 0
  {
    var last := |rows| - 1;
    var after := rows[id := rows[id].(revoked := true)];
    if id == last {
      assert after[..last] == rows[..last];
    } else {
      assert after[..last] == rows[..last][id := rows[id].(revoked := true)];
      ActiveAfterRevoke(rows[..last], id, email);
    }
  }

  lemma ActiveAppend(rows: seq<KeyRow>, row: KeyRow, email: string)
    ensures Active(rows + [row], email) == Active(rows, email) + if Owns(row, email) then 1 else 0
  {
    assert (rows + [row])[..|rows|] == rows;
  }

  /** Rows from n on that the owner does not own do not count. */
  lemma {:induction false} ActivePrefix(rows: seq<KeyRow>, n: nat, email: string)
    requires n <= |rows| && forall j | n <= j < |rows| :: !Owns(rows[j], email)
    ensures Active(rows, email) == Active(rows[..n], email)
    decreases |rows|
  {
    if n < |rows| {
      var last := |rows| - 1;
      ActivePrefix(rows[..last], n, email);
      assert rows[..last][..n] == rows[..n];
    } else {
      assert rows[..n] == rows;
    }
  }

  /** Hashes are unique, and each mint in flight found its owner below the cap. */
  ghost predicate Inv(s: State) {
    && UniqueHashes(s.rows)
    && forall i | i in s.mints :: CountedBelow(s.rows, s.mints[i])
  }

  /** Of the rows the mint counted, fewer than five are live; revoking since then only lowers that. */
  ghost predicate CountedBelow(rows: seq<KeyRow>, m: Mint) {
    m.seen <= |rows| && Active(rows[..m.seen], m.email) < MAX_ACTIVE_KEYS
  }

  lemma RevokeKeepsCounted(rows: seq<KeyRow>, m: Mint, email: string, id: nat)
    requires CountedBelow(rows, m)
    ensures CountedBelow(Revoke(rows, email, id).1, m)
  {
    var after := Revoke(rows, email, id).1;
    if id < |rows| && Owns(rows[id], email) {
      if id < m.seen {
        assert after[..m.seen] == rows[..m.seen][id := rows[..m.seen][id].(revoked := true)];
        ActiveAfterRevoke(rows[..m.seen], id, m.email);
      } else {
        assert after[..m.seen] == rows[..m.seen];
      }
    }
  }

  lemma AppendKeepsCounted(rows: seq<KeyRow>, row: KeyRow, m: Mint)
    requires CountedBelow(rows, m)
    ensures CountedBelow(rows + [row], m)
  {
    assert (rows + [row])[..m.seen] == rows[..m.seen];
  }

  lemma StepKeepsInv(s: State, step: Step)
    requires Inv(s)
    ensures Inv(Apply(s, step))
  {
    hide Active, CountedBelow;
    var after := Apply(s, step);
    forall i | i in after.mints ensures CountedBelow(after.rows, after.mints[i]) {
      if i in s.mints && step.RevokeOwn? {
        RevokeKeepsCounted(s.rows, s.mints[i], step.email, step.id);
      } else if i in s.mints && step.Insert? && |after.rows| > |s.rows| {
        AppendKeepsCounted(s.rows, after.rows[|s.rows|], s.mints[i]);
      } else if i !in s.mints {
        JustCounted(s.rows, after.mints[i]);
      }
    }
  }

  lemma JustCounted(rows: seq<KeyRow>, m: Mint)
    requires m.seen == |rows| && Active(rows, m.email) < MAX_ACTIVE_KEYS
    ensures CountedBelow(rows, m)
  {
    assert rows[..m.seen] == rows;
  }

  lemma {:induction false} RunKeepsInv(s: State, steps: seq<Step>)
    requires Inv(s)
    ensures Inv(Run(s, steps))
    decreases |steps|
  {
    if steps != [] {
      StepKeepsInv(s, steps[0]);
      RunKeepsInv(Apply(s, steps[0]), steps[1..]);
    }
  }

  /** A live key of the same owner was committed between a mint's count and now. */
  ghost predicate Overtaken(s: State, m: Mint) {
    exists j :: m.seen <= j < |s.rows| && Owns(s.rows[j], m.email)
  }

  /**
   When the cap is exceeded: an insert takes its owner above five live keys if and only if it goes through, another
   mint of the same owner has committed since its count, and the owner has five live keys by now.
   */
  lemma CapExceededExactly(s: State, i: nat, raw: string)
    requires Inv(s) && i in s.mints
    ensures var m, before, after := s.mints[i], s.rows, Apply(s, Insert(i, raw)).rows;
            Active(after, m.email) > MAX_ACTIVE_KEYS && Active(after, m.email) > Active(before, m.email)
            <==> !HasHash(before, Sha256(raw)) && Overtaken(s, m) && Active(before, m.email) >= MAX_ACTIVE_KEYS
  {
    var m := s.mints[i];
    ActiveAppend(s.rows, KeyRow(Sha256(raw), m.email, false), m.email);
    if !Overtaken(s, m) {
      assert CountedBelow(s.rows, m);
      ActivePrefix(s.rows, m.seen, m.email);
    }
  }

  /** No other step raises anybody's number of live keys. */
  lemma OnlyInsertsRaise(s: State, step: Step, email: string)
    ensures Active(Apply(s, step).rows, email) > Active(s.rows, email) ==>
              step.Insert? && step.request in s.mints && s.mints[step.request].email == email &&
              Active(Apply(s, step).rows, email) == Active(s.rows, email) + 1
  {
    match step
    case Insert(i, raw) =>
      if i in s.mints {
        ActiveAppend(s.rows, KeyRow(Sha256(raw), s.mints[i].email, false), email);
      }
    case RevokeOwn(_, id) =>
      if id < |s.rows| {
        ActiveAfterRevoke(s.rows, id, email);
      }
    case _ =>
  }

  /** The mints of one owner in flight. */
  function InFlight(s: State, email: string): set<nat> {
    set i | i in s.mints && s.mints[i].email == email
  }

  /** Never more than c mints of the owner are in flight at once. */
  ghost predicate AtMost(s: State, steps: seq<Step>, email: string, c: nat)
    decreases |steps|
  {
    |InFlight(s, email)| <= c && (steps != [] ==> AtMost(Apply(s, steps[0]), steps[1..], email, c))
  }

  lemma CountInFlight(s: State, i: nat, owner: string, email: string)
    ensures var after := Apply(s, Count(i, owner));
            InFlight(after, email) == if after != s && owner == email then InFlight(s, email) + {i} else InFlight(s, email)
    ensures Apply(s, Count(i, owner)) != s ==> Active(s.rows, owner) < MAX_ACTIVE_KEYS
    ensures Apply(s, Count(i, owner)).rows == s.rows
  {
    hide Active;
  }

  lemma LeaveInFlight(s: State, step: Step, email: string)
    requires !step.Count?
    ensures var i := match step case Insert(i, _) => Some(i) case Abandon(i) => Some(i) case _ => None;
            InFlight(Apply(s, step), email) == if i.Some? then InFlight(s, email) - {i.value} else InFlight(s, email)
  {
    hide Active, HasHash, Revoke;
  }

  lemma StepKeepsSum(s: State, step: Step, email: string, c: nat)
    requires c >= 1 && Active(s.rows, email) + |InFlight(s, email)| <= 4 + c
    requires |InFlight(Apply(s, step), email)| <= c
    ensures Active(Apply(s, step).rows, email) + |InFlight(Apply(s, step), email)| <= 4 + c
  {
    hide Active, Apply, InFlight;
    OnlyInsertsRaise(s, step, email);
    if step.Count? {
      CountInFlight(s, step.request, step.email, email);
    } else {
      LeaveInFlight(s, step, email);
      InFlightMember(s, email);
    }
  }

  lemma InFlightMember(s: State, email: string)
    ensures forall i: nat :: i in InFlight(s, email) <==> i in s.mints && s.mints[i].email == email
  {
  }

  /** The bound that does hold, in every interleaving: four and the number of the owner's mints that overlap. */
  lemma {:induction false} OverlapBound(s: State, steps: seq<Step>, email: string, c: nat)
    requires c >= 1 && Active(s.rows, email) + |InFlight(s, email)| <= 4 + c && AtMost(s, steps, email, c)
    ensures Active(Run(s, steps).rows, email) <= 4 + c
    decreases |steps|
  {
    hide Active, Apply;
    if steps != [] {
      assert AtMost(Apply(s, steps[0]), steps[1..], email, c);
      assert |InFlight(Apply(s, steps[0]), email)| <= c;
      StepKeepsSum(s, steps[0], email, c);
      OverlapBound(Apply(s, steps[0]), steps[1..], email, c);
    }
  }

  /** So an owner whose mints do not overlap never has more than five live keys. */
  lemma CapHolds(rows: seq<KeyRow>, steps: seq<Step>, email: string)
    requires UniqueHashes(rows) && Active(rows, email) <= MAX_ACTIVE_KEYS
    requires AtMost(State(rows, map[]), steps, email, 1)
    ensures UniqueHashes(Run(State(rows, map[]), steps).rows)
    ensures Active(Run(State(rows, map[]), steps).rows, email) <= MAX_ACTIVE_KEYS
  {
    var s := State(rows, map[]);
    assert InFlight(s, email) == {};
    OverlapBound(s, steps, email, 1);
    RunKeepsInv(s, steps);
  }

  /** The requests 0 to n - 1, each counting before any inserts. */
  function Counts(email: string, n: nat): seq<Step> {
    if n == 0 then [] else [Count(n - 1, email)] + Counts(email, n - 1)
  }

  function Inserts(raws: seq<string>, n: nat): seq<Step>
    requires n <= |raws|
  {
    if n == 0 then [] else [Insert(n - 1, raws[n - 1])] + Inserts(raws, n - 1)
  }

  /** The owner's requests from lo to hi - 1 in flight, none of the others below hi. */
  ghost predicate Flying(s: State, email: string, lo: nat, hi: nat, seen: nat) {
    && (forall i | i < lo :: i !in s.mints)
    && (forall i | lo <= i < hi :: i in s.mints && s.mints[i] == Mint(email, seen))
  }

  lemma {:induction false} AllCount(s: State, email: string, n: nat, hi: nat, rest: seq<Step>) returns (after: State)
    requires n <= hi && Active(s.rows, email) < MAX_ACTIVE_KEYS && Flying(s, email, n, hi, |s.rows|)
    ensures after.rows == s.rows && Flying(after, email, 0, hi, |s.rows|)
    ensures Run(s, Counts(email, n) + rest) == Run(after, rest)
    decreases n
  {
    hide Active;
    if n == 0 {
      after := s;
      assert Counts(email, n) + rest == rest;
    } else {
      var next := Apply(s, Count(n - 1, email));
      assert Flying(next, email, n - 1, hi, |s.rows|);
      after := AllCount(next, email, n - 1, hi, rest);
      FirstStep(s, Count(n - 1, email), Counts(email, n - 1), rest);
    }
  }

  lemma FirstStep(s: State, step: Step, more: seq<Step>, rest: seq<Step>)
    ensures Run(s, ([step] + more) + rest) == Run(Apply(s, step), more + rest)
  {
    assert ([step] + more) + rest == [step] + (more + rest);
    assert ([step] + (more + rest))[1..] == more + rest;
  }

  lemma {:induction false} AllInsert(s: State, email: string, raws: seq<string>, n: nat, seen: nat)
    requires n <= |raws| && Flying(s, email, 0, n, seen) && Fresh(s.rows, raws, n)
    ensures Active(Run(s, Inserts(raws, n)).rows, email) == Active(s.rows, email) + n
    decreases n
  {
    hide Active, Apply, Fresh, Run, Flying;
    if n > 0 {
      var next := Apply(s, Insert(n - 1, raws[n - 1]));
      OneInsert(s, email, raws, n, seen);
      AllInsert(next, email, raws, n - 1, seen);
      FirstStep(s, Insert(n - 1, raws[n - 1]), Inserts(raws, n - 1), []);
      assert Inserts(raws, n) + [] == Inserts(raws, n) && Inserts(raws, n - 1) + [] == Inserts(raws, n - 1);
    } else {
      RunNothing(s);
    }
  }

  lemma RunNothing(s: State)
    ensures Run(s, []) == s
  {
  }

  lemma {:induction false} OneInsert(s: State, email: string, raws: seq<string>, n: nat, seen: nat)
    requires 0 < n <= |raws| && Flying(s, email, 0, n, seen) && Fresh(s.rows, raws, n)
    ensures var next := Apply(s, Insert(n - 1, raws[n - 1]));
            && Active(next.rows, email) == Active(s.rows, email) + 1
            && Flying(next, email, 0, n - 1, seen) && Fresh(next.rows, raws, n - 1)
  {
    var row := KeyRow(Sha256(raws[n - 1]), email, false);
    ActiveAppend(s.rows, row, email);
    FreshLeft(s.rows, raws, n, email);
    hide Active, Fresh, HasHash;
    assert s.mints[n - 1] == Mint(email, seen);
    assert Apply(s, Insert(n - 1, raws[n - 1])) == State(s.rows + [row], s.mints - {n - 1});
  }

  /** New random keys: no two alike, and none in the table. */
  ghost predicate Fresh(rows: seq<KeyRow>, raws: seq<string>, n: nat)
    requires n <= |raws|
  {
    && (forall i, j | 0 <= i < j < n :: raws[i] != raws[j])
    && (forall i | 0 <= i < n :: !HasHash(rows, Sha256(raws[i])))
  }

  lemma FreshLeft(rows: seq<KeyRow>, raws: seq<string>, n: nat, email: string)
    requires 0 < n <= |raws| && Fresh(rows, raws, n)
    ensures !HasHash(rows, Sha256(raws[n - 1]))
    ensures Fresh(rows + [KeyRow(Sha256(raws[n - 1]), email, false)], raws, n - 1)
  {
  }

  /** The bound is attained: n requests that all count before any inserts all go through. */
  lemma OverlapExceedsCap(rows: seq<KeyRow>, email: string, raws: seq<string>)
    requires Active(rows, email) < MAX_ACTIVE_KEYS && Fresh(rows, raws, |raws|)
    ensures var steps := Counts(email, |raws|) + Inserts(raws, |raws|);
            Active(Run(State(rows, map[]), steps).rows, email) == Active(rows, email) + |raws|
  {
    var s := State(rows, map[]);
    var counted := AllCount(s, email, |raws|, |raws|, Inserts(raws, |raws|));
    AllInsert(counted, email, raws, |raws|, |rows|);
  }

  /** A request that is alone does in its two steps what `Create` says. */
  lemma MintAlone(rows: seq<KeyRow>, email: string, raw: string)
    ensures Run(State(rows, map[]), [Count(0, email), Insert(0, raw)]).rows == Create(rows, email, raw).1
  {
    var s := State(rows, map[]);
    var a, b := Count(0, email), Insert(0, raw);
    assert [a, b][1..] == [b] && [b][1..] == [];
    var counted := Apply(s, a);
    assert Run(s, [a, b]) == Run(counted, [b]) == Run(Apply(counted, b), []);
  }

  /** A raw key resolves to row i exactly when row i carries its hash and is not revoked. */
  lemma {:induction false} FindMeaning(rows: seq<KeyRow>, raw: string, i: nat, id: nat)
    requires i <= |rows| && UniqueHashes(rows)
    ensures Find(rows, raw, i) == Some(id) <==>
            i <= id < |rows| && rows[id].hash == Sha256(raw) && !rows[id].revoked
    decreases |rows| - i
  {
    if i < |rows| && rows[i].hash != Sha256(raw) {
      FindMeaning(rows, raw, i + 1, id);
    }
  }

  function LiveRows(rows: seq<KeyRow>, email: string): set<nat> {
    set i: nat | i < |rows| && rows[i].email == email && !rows[i].revoked
  }

  /** The number of live keys is the number of rows of the address that are not revoked. */
  lemma {:induction false} ActiveCounts(rows: seq<KeyRow>, email: string)
    ensures Active(rows, email) == |LiveRows(rows, email)|
  {
    hide LiveRows;
    if rows != [] {
      ActiveCounts(rows[..|rows| - 1], email);
    }
    LastLive(rows, email);
  }

  lemma LastLive(rows: seq<KeyRow>, email: string)
    ensures if rows == [] then LiveRows(rows, email) == {}
            else |LiveRows(rows, email)|
                 == |LiveRows(rows[..|rows| - 1], email)| + if Owns(rows[|rows| - 1], email) then 1 else 0
  {
    if rows != [] {
      var n := |rows| - 1;
      var fewer := LiveRows(rows[..n], email);
      assert LiveRows(rows, email) == if Owns(rows[n], email) then fewer + {n} else fewer;
    }
  }

  /**
   Who can revoke a key: whatever the requests do, a key is revoked at the end if and only if it was before, or its
   owner has asked for just that; its hash and its owner never change.
   */
  lemma {:induction false} RevokedExactly(s: State, steps: seq<Step>, id: nat)
    requires id < |s.rows|
    ensures var rows := Run(s, steps).rows;
            && id < |rows| && rows[id].hash == s.rows[id].hash && rows[id].email == s.rows[id].email
            && (rows[id].revoked <==> s.rows[id].revoked || RevokeOwn(s.rows[id].email, id) in steps)
    decreases |steps|
  {
    hide Active, HasHash;
    if steps != [] {
      assert steps == [steps[0]] + steps[1..];
      RevokedExactly(Apply(s, steps[0]), steps[1..], id);
    }
  }

  /** A key that is revoked resolves to nothing in every later state, whatever the requests do. */
  lemma {:induction false} RevokedStaysRevoked(s: State, steps: seq<Step>, id: nat)
    requires Inv(s) && id < |s.rows| && s.rows[id].revoked
    ensures var rows := Run(s, steps).rows;
            id < |rows| && rows[id] == s.rows[id] && Find(rows, s.rows[id].hash.raw, 0) == None
    decreases |steps|
  {
    if steps != [] {
      StepKeepsInv(s, steps[0]);
      RevokedStaysRevoked(Apply(s, steps[0]), steps[1..], id);
    } else {
      var found := Find(s.rows, s.rows[id].hash.raw, 0);
      if found.Some? {
        FindMeaning(s.rows, s.rows[id].hash.raw, 0, found.value);
      }
    }
  }

  /** A minted key resolves to its row until its owner revokes it. */
  lemma MintedResolves(s: State, i: nat, raw: string)
    requires Inv(s) && i in s.mints && !HasHash(s.rows, Sha256(raw))
    ensures var after, id, email := Apply(s, Insert(i, raw)), |s.rows|, s.mints[i].email;
            && Lookup(after.rows, Some(raw)) == Some(id)
            && Lookup(Apply(after, RevokeOwn(email, id)).rows, Some(raw)) == None
  {
    var after, id, email := Apply(s, Insert(i, raw)), |s.rows|, s.mints[i].email;
    StepKeepsInv(s, Insert(i, raw));
    FindMeaning(after.rows, raw, 0, id);
    StepKeepsInv(after, RevokeOwn(email, id));
    RevokedStaysRevoked(Apply(after, RevokeOwn(email, id)), [], id);
  }

  // ----- one request

  /** What happens while a request is served: its dependencies resolve the key, others change the table. */
  datatype Event = Resolve | Other(step: Step)

  datatype Serving = Serving(table: State, resolved: Option<Option<nat>>, charged: seq<nat>,
                             answers: seq<Option<nat>>)

  function Serve(s: Serving, raw: Option<string>, e: Event): Serving {
    match e
    case Other(step) => s.(table := Apply(s.table, step))
    case Resolve =>
      if s.resolved.Some? then s.(answers := s.answers + [s.resolved.value])
      else
        var row := Lookup(s.table.rows, raw);
        s.(resolved := Some(row), answers := s.answers + [row],
           charged := s.charged + if row.Some? then [row.value] else [])
  }

  function ServeAll(s: Serving, raw: Option<string>, events: seq<Event>): Serving
    decreases |events|
  {
    if events == [] then s else ServeAll(Serve(s, raw, events[0]), raw, events[1..])
  }

  ghost predicate ChargedOnce(s: Serving) {
    && s.charged == (if s.resolved.Some? && s.resolved.value.Some? then [s.resolved.value.value] else [])
    && forall i | 0 <= i < |s.answers| :: s.resolved == Some(s.answers[i])
  }

  /**
   However many dependencies ask and whatever happens to the table in between, all get the first answer, and a
   request that carries a live key is metered once.
   */
  lemma {:induction false} RequestIsMeteredOnce(s: Serving, raw: Option<string>, events: seq<Event>)
    requires ChargedOnce(s)
    ensures ChargedOnce(ServeAll(s, raw, events))
    ensures s.resolved.Some? ==> ServeAll(s, raw, events).resolved == s.resolved
    decreases |events|
  {
    if events != [] {
      RequestIsMeteredOnce(Serve(s, raw, events[0]), raw, events[1..]);
    }
  }

  /** So from its beginning on, a request is charged for the one live key it was answered with, and for nothing else. */
  lemma ServedFromStart(table: State, raw: Option<string>, events: seq<Event>)
    ensures var s := ServeAll(Serving(table, None, [], []), raw, events);
            && s.charged == (if s.answers != [] && s.answers[0].Some? then [s.answers[0].value] else [])
            && forall i | 0 <= i < |s.answers| :: s.answers[i] == s.answers[0]
  {
    var start := Serving(table, None, [], []);
    RequestIsMeteredOnce(start, raw, events);
    AnsweredWhenResolved(start, raw, events);
  }

  lemma {:induction false} AnsweredWhenResolved(s: Serving, raw: Option<string>, events: seq<Event>)
    requires s.resolved.Some? <==> s.answers != []
    ensures ServeAll(s, raw, events).resolved.Some? <==> ServeAll(s, raw, events).answers != []
    decreases |events|
  {
    if events != [] {
      AnsweredWhenResolved(Serve(s, raw, events[0]), raw, events[1..]);
    }
  }
}
