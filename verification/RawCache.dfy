/**
 One entry of the raw-response cache: a compressed file, a sibling from before compression that is still read, and
 the temporary file a write goes through. Every file operation is a point at which the process may die.
 */
module RawCache {
  import opened Options

  /** Torn: the file exists but does not decode. */
  datatype File<P> = Absent | Torn | Whole(payload: P)

  datatype Disk<P> = Disk(gz: File<P>, legacy: File<P>, tmp: File<P>)

  function Decode<P>(f: File<P>): Option<P> {
    if f.Whole? then Some(f.payload) else None
  }

  function ReadCached<P>(d: Disk<P>): Option<P> {
    if !d.gz.Absent? then Decode(d.gz)
    else if !d.legacy.Absent? then Decode(d.legacy)
    else None
  }

  predicate Exists<P>(d: Disk<P>) {
    !d.gz.Absent? || !d.legacy.Absent?
  }

  /** All states the disk goes through, from before the write to after it. */
  function WriteTrace<P>(d: Disk<P>, payload: P, overwrite: bool): seq<Disk<P>> {
    if !overwrite && Exists(d) then [d]
    else
      var replaced := Disk(Whole(payload), d.legacy, Absent);
      [d, d.(tmp := Torn), d.(tmp := Whole(payload)), replaced] +
      if d.legacy.Absent? then [] else [replaced.(legacy := Absent)]
  }

  class Entry<P(==)> {
    var disk: Disk<P>
    ghost var trace: seq<Disk<P>>  // every state the disk has been in, the present one last

    ghost predicate Valid()
      reads this
    {
      trace != [] && trace[|trace| - 1] == disk
    }

    constructor (d: Disk<P>)
      ensures Valid() && disk == d && trace == [d]
    {
      disk, trace := d, [d];
    }

    /** One file operation. */
    method Change(d: Disk<P>)
      requires Valid()
      modifies this
      ensures Valid() && disk == d && trace == old(trace) + [d]
    {
      disk := d;
      trace := trace + [d];
    }

    method WriteCached(payload: P, overwrite: bool)
      requires Valid()
      modifies this
      ensures Valid()
      ensures trace == old(trace) + WriteTrace(old(disk), payload, overwrite)[1..]
    {
      if !overwrite && (!disk.gz.Absent? || !disk.legacy.Absent?) {
        return;
      }
      Change(disk.(tmp := Torn));
      Change(disk.(tmp := Whole(payload)));
      Change(Disk(disk.tmp, disk.legacy, Absent));  // os.replace
      if !disk.legacy.Absent? {
        Change(disk.(legacy := Absent));
      }
    }

    method FetchOrCache(fetched: P, overwrite: bool) returns (payload: P)
      requires Valid()
      modifies this
      ensures Valid()
      ensures var hit := if overwrite then None else ReadCached(old(disk));
              if hit.Some? then payload == hit.value && trace == old(trace)
              else payload == fetched && trace == old(trace) + WriteTrace(old(disk), fetched, overwrite)[1..]
    {
      if !overwrite {
        var hit := ReadCached(disk);
        if hit.Some? {
          return hit.value;
        }
      }
      WriteCached(fetched, overwrite);
      return fetched;
    }
  }

  /**
   What a reader gets: the compressed payload, or the legacy one where there is no compressed file at all. A torn
   compressed file hides an intact legacy one.
   */
  lemma ReadExactly<P>(d: Disk<P>, p: P)
    ensures ReadCached(d) == Some(p) <==> d.gz == Whole(p) || (d.gz == Absent && d.legacy == Whole(p))
  {
  }

  // ----- one write

  /**
   A reader sees what it saw before up to the replace, and the complete new payload from then on, also while a stale
   legacy file still lies beside it. An existing entry is not touched without overwrite, and a completed overwrite
   leaves no temporary file and no stale copy to resurface.
   */
  lemma CrashSeesOldOrNew<P>(d: Disk<P>, payload: P, overwrite: bool, i: nat)
    requires i < |WriteTrace(d, payload, overwrite)|
    ensures var t := WriteTrace(d, payload, overwrite);
            && ReadCached(t[i]) == (if i < 3 then ReadCached(d) else Some(payload))
            && (!overwrite && Exists(d) ==> t[i] == d)
            && (overwrite && i == |t| - 1 ==> t[i] == Disk(Whole(payload), Absent, Absent))
  {
  }

  /** The new payload, once visible, stays visible for the rest of the write. */
  lemma NewStaysVisible<P>(d: Disk<P>, payload: P, overwrite: bool, i: nat, j: nat)
    requires i <= j < |WriteTrace(d, payload, overwrite)|
    requires ReadCached(WriteTrace(d, payload, overwrite)[i]) == Some(payload)
    ensures ReadCached(WriteTrace(d, payload, overwrite)[j]) == Some(payload)
  {
  }

  // ----- whole runs with crashes

  /** A write that dies after `survives` file operations, or completes when it has no more than that. */
  datatype Op<P> = Write(payload: P, overwrite: bool, survives: nat) | Fetch(fetched: P, overwrite: bool, survives: nat)

  function Survivor<P>(t: seq<Disk<P>>, survives: nat): Disk<P>
    requires t != []
  {
    if survives < |t| then t[survives] else t[|t| - 1]
  }

  function Apply<P>(d: Disk<P>, op: Op<P>): Disk<P> {
    match op
    case Write(p, overwrite, n) => Survivor(WriteTrace(d, p, overwrite), n)
    case Fetch(p, overwrite, n) =>
      if !overwrite && ReadCached(d).Some? then d else Survivor(WriteTrace(d, p, overwrite), n)
  }

  function Run<P>(d: Disk<P>, ops: seq<Op<P>>): Disk<P>
    decreases |ops|
  {
    if ops == [] then d else Run(Apply(d, ops[0]), ops[1..])
  }

  function PayloadOf<P>(op: Op<P>): P {
    if op.Write? then op.payload else op.fetched
  }

  /** The payloads a run may show: the one it started with and the ones it was given. */
  ghost predicate Offered<P>(p: P, d: Disk<P>, ops: seq<Op<P>>) {
    ReadCached(d) == Some(p) || exists i :: 0 <= i < |ops| && PayloadOf(ops[i]) == p
  }

  lemma {:induction false} ApplyShowsOldOrNew<P>(d: Disk<P>, op: Op<P>)
    ensures ReadCached(Apply(d, op)) == ReadCached(d) || ReadCached(Apply(d, op)) == Some(PayloadOf(op))
  {
    var overwrite, n := op.overwrite, op.survives;
    var t := WriteTrace(d, PayloadOf(op), overwrite);
    CrashSeesOldOrNew(d, PayloadOf(op), overwrite, if n < |t| then n else |t| - 1);
  }

  /** Through any number of crashes a reader only ever sees whole payloads that were offered. */
  lemma {:induction false} OnlyOfferedPayloads<P>(d: Disk<P>, ops: seq<Op<P>>)
    ensures var seen := ReadCached(Run(d, ops));
            seen.Some? ==> Offered(seen.value, d, ops)
    decreases |ops|
  {
    if ops != [] {
      var d' := Apply(d, ops[0]);
      OnlyOfferedPayloads(d', ops[1..]);
      ApplyShowsOldOrNew(d, ops[0]);
      var seen := ReadCached(Run(d, ops));
      if seen.Some? && ReadCached(d') != Some(seen.value) {
        var i :| 0 <= i < |ops[1..]| && PayloadOf(ops[1..][i]) == seen.value;
        assert PayloadOf(ops[i + 1]) == seen.value;
      }
    }
  }

  /** A readable entry never becomes unreadable, whatever crashes. */
  lemma {:induction false} ReadableForever<P>(d: Disk<P>, ops: seq<Op<P>>)
    requires ReadCached(d).Some?
    ensures ReadCached(Run(d, ops)).Some?
    decreases |ops|
  {
    if ops != [] {
      ApplyShowsOldOrNew(d, ops[0]);
      ReadableForever(Apply(d, ops[0]), ops[1..]);
    }
  }

  /** Write-once: without an overwrite a readable payload stays the same payload, whatever crashes. */
  lemma {:induction false} WriteOnce<P>(d: Disk<P>, ops: seq<Op<P>>)
    requires ReadCached(d).Some?
    requires forall i | 0 <= i < |ops| :: !ops[i].overwrite
    ensures Run(d, ops) == d
    decreases |ops|
  {
    if ops != [] {
      assert Apply(d, ops[0]) == d;
      WriteOnce(d, ops[1..]);
    }
  }

  // ----- fetch_or_cache

  function Fetched<P>(d: Disk<P>, p: P, overwrite: bool): P {
    if !overwrite && ReadCached(d).Some? then ReadCached(d).value else p
  }

  /**
   What a completed fetch returned is what the next reader gets, exactly when the entry was not present and
   unreadable before, or the fetch overwrites. A torn entry is fetched again on every call and never replaced.
   */
  lemma FetchPersists<P>(d: Disk<P>, p: P, overwrite: bool)
    ensures ReadCached(Apply(d, Fetch(p, overwrite, 5))) == Some(Fetched(d, p, overwrite))
       <==> overwrite || ReadCached(d).Some? || !Exists(d)
  {
  }
}
