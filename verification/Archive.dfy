/**
 The bulk archive: one file per series and calendar year, and a manifest that vouches for each file's content. A
 sha256 is taken to be injective, so a digest is represented by the content it digests; a file's content is a map,
 its sorted order being a function of it.
 */
module Archive {
  import opened Options
  import opened Ascending
  import Calendar

  datatype Hour = Hour(series: string, zone: int, ts: int)
  datatype Slot = Slot(zone: int, ts: int)
  type Content = map<Slot, real>

  datatype File = File(series: string, year: int)
  datatype Entry = Entry(rows: nat, zones: nat, digest: Content)
  datatype Manifest = Missing | Unreadable | Listed(entries: map<File, Entry>)

  /** `series` in the order of its ORDER BY, `zones` the zone ids that have a name, `hours` the hourly store. */
  datatype Db = Db(series: seq<string>, zones: set<int>, hours: map<Hour, real>)

  // ----- year slices

  function YearBegins(year: int): int {
    Calendar.UnixOfDay(Calendar.YearStart(year))
  }

  predicate InSlice(db: Db, f: File, s: Slot) {
    Hour(f.series, s.zone, s.ts) in db.hours && s.zone in db.zones && YearBegins(f.year) <= s.ts < YearBegins(f.year + 1)
  }

  /** The rows of one series in one UTC calendar year, of zones that have a name. */
  function Slice(db: Db, f: File): Content {
    map h | h in db.hours && h.series == f.series && h.zone in db.zones && YearBegins(f.year) <= h.ts < YearBegins(f.year + 1)
      :: Slot(h.zone, h.ts) := db.hours[h]
  }

  function ZonesOf(c: Content): set<int> {
    set s | s in c :: s.zone
  }

  function EntryOf(c: Content): Entry {
    Entry(|c|, |ZonesOf(c)|, c)
  }

  /** The UTC year of an hour. */
  function YearOfHour(ts: int): int
    requires ts >= Calendar.UnixOfDay(0)
  {
    Calendar.YearOf(Calendar.DayOfUnix(ts))
  }

  // ----- one build

  /** What the build holds as it goes: the files on disk and, still in memory, the entries. */
  datatype Work = Work(files: map<File, Content>, entries: map<File, Entry>, built: nat, skipped: nat)

  predicate IsHot(year: int, nowYear: int) {
    year == nowYear || year == nowYear - 1
  }

  predicate Skips(w: Work, f: File, force: bool, nowYear: int) {
    !force && !IsHot(f.year, nowYear) && f in w.files
  }

  function AfterFile(w: Work, db: Db, f: File, force: bool, nowYear: int): Work {
    if Skips(w, f, force, nowYear) then w.(skipped := w.skipped + 1)
    else
      var c := Slice(db, f);
      if c == map[] then w
      else Work(w.files[f := c], w.entries[f := EntryOf(c)], w.built + 1, w.skipped)
  }

  function AfterYears(w: Work, db: Db, series: string, years: seq<int>, n: nat, force: bool, nowYear: int): Work
    requires n <= |years|
  {
    if n == 0 then w
    else AfterFile(AfterYears(w, db, series, years, n - 1, force, nowYear), db, File(series, years[n - 1]), force, nowYear)
  }

  function AfterSeries(w: Work, db: Db, years: seq<int>, n: nat, force: bool, nowYear: int): Work
    requires n <= |db.series|
  {
    if n == 0 then w
    else AfterYears(AfterSeries(w, db, years, n - 1, force, nowYear), db, db.series[n - 1], years, |years|, force, nowYear)
  }

  function Times(db: Db): set<int> {
    set h | h in db.hours :: h.ts
  }

  function Range(lo: int, hi: int): (r: seq<int>)
    ensures forall y :: y in r <==> lo <= y <= hi
    decreases if hi < lo then 0 else hi - lo + 1
  {
    if hi < lo then []
    else
      var rest := Range(lo, hi - 1);
      assert forall y :: y in rest + [hi] <==> y in rest || y == hi;
      rest + [hi]
  }

  predicate Representable(db: Db) {
    forall h | h in db.hours :: h.ts >= Calendar.UnixOfDay(0)
  }

  /** From the year of the oldest hour of all to the current one. */
  function DefaultYears(db: Db, nowYear: int): seq<int>
    requires Representable(db) && Times(db) != {}
  {
    Range(YearOfHour(Least(Times(db))), nowYear)
  }

  function Carried(m: Manifest): map<File, Entry> {
    if m.Listed? then m.entries else map[]
  }

  function Present(entries: map<File, Entry>, files: map<File, Content>): map<File, Entry> {
    map f | f in entries && f in files :: entries[f]
  }

  datatype Stats = Stats(built: nat, skipped: nat, files: nat)

  datatype Disk = Disk(files: map<File, Content>, manifest: Manifest)

  /** Nothing to do: no years given and nothing stored. */
  predicate Idle(db: Db, years: Option<seq<int>>) {
    years.None? && Times(db) == {}
  }

  function YearsFor(db: Db, years: Option<seq<int>>, nowYear: int): seq<int>
    requires Representable(db)
  {
    if years.Some? then years.value else if Times(db) == {} then [] else DefaultYears(db, nowYear)
  }

  function WorkOf(disk: Disk, db: Db, years: Option<seq<int>>, force: bool, nowYear: int): Work
    requires Representable(db)
  {
    AfterSeries(Work(disk.files, Carried(disk.manifest), 0, 0), db, YearsFor(db, years, nowYear), |db.series|, force, nowYear)
  }

  /** A completed build. */
  function Built(disk: Disk, db: Db, years: Option<seq<int>>, force: bool, nowYear: int): Disk
    requires Representable(db)
  {
    if Idle(db, years) then disk
    else
      var w := WorkOf(disk, db, years, force, nowYear);
      Disk(w.files, Listed(Present(w.entries, w.files)))
  }

  class ArchiveRoot {
    var files: map<File, Content>
    var manifest: Manifest

    constructor ()
      ensures files == map[] && manifest == Missing
    {
      files, manifest := map[], Missing;
    }

    /** `build_year_file`: replaces the file as a whole and returns its entry, or does nothing for an empty slice. */
    method BuildYearFile(db: Db, f: File) returns (entry: Option<Entry>)
      modifies this`files
      ensures var c := Slice(db, f);
              if f.series !in db.series || c == map[] then entry == None && files == old(files)
              else entry == Some(EntryOf(c)) && files == old(files)[f := c]
    {
      hide EntryOf;
      if f.series !in db.series {
        return None;
      }
      var data := Slice(db, f);
      if data == map[] {
        return None;
      }
      files := files[f := data];
      return Some(EntryOf(data));
    }

    /** The inner loop: one series, year by year. */
    method BuildSeries(db: Db, series: string, years: seq<int>, force: bool, nowYear: int, ghost start: Work,
                       entries: map<File, Entry>, built: nat, skipped: nat)
      returns (entries': map<File, Entry>, built': nat, skipped': nat)
      requires series in db.series && start == Work(files, entries, built, skipped)
      modifies this`files
      ensures Work(files, entries', built', skipped') == AfterYears(start, db, series, years, |years|, force, nowYear)
    {
      hide Slice, EntryOf;
      entries', built', skipped' := entries, built, skipped;
      for j := 0 to |years|
        invariant Work(files, entries', built', skipped') == AfterYears(start, db, series, years, j, force, nowYear)
      {
        var f := File(series, years[j]);
        if !force && !IsHot(years[j], nowYear) && f in files {
          skipped' := skipped' + 1;
          continue;
        }
        var entry := BuildYearFile(db, f);
        if entry.Some? {
          entries' := entries'[f := entry.value];
          built' := built' + 1;
        }
      }
    }

    /** `build_archive`. */
    method BuildArchive(db: Db, years: Option<seq<int>>, force: bool, nowYear: int) returns (stats: Stats)
      requires Representable(db)
      modifies this
      ensures Disk(files, manifest) == Built(Disk(old(files), old(manifest)), db, years, force, nowYear)
      ensures var w := WorkOf(Disk(old(files), old(manifest)), db, years, force, nowYear);
              stats == if Idle(db, years) then Stats(0, 0, 0)
                       else Stats(w.built, w.skipped, |Present(w.entries, w.files)|)
    {
      hide Slice, EntryOf, DefaultYears, Times, AfterYears;
      if years.None? && Times(db) == {} {
        return Stats(0, 0, 0);
      }
      var ys := if years.Some? then years.value else DefaultYears(db, nowYear);
      var entries := if manifest.Listed? then manifest.entries else map[];
      ghost var start := Work(files, entries, 0, 0);
      var built, skipped := 0, 0;
      for i := 0 to |db.series|
        invariant manifest == old(manifest)
        invariant Work(files, entries, built, skipped) == AfterSeries(start, db, ys, i, force, nowYear)
      {
        entries, built, skipped := BuildSeries(db, db.series[i], ys, force, nowYear,
                                               AfterSeries(start, db, ys, i, force, nowYear), entries, built, skipped);
      }
      entries := map f | f in entries && f in files :: entries[f];
      manifest := Listed(entries);
      return Stats(built, skipped, |entries|);
    }
  }

  // ----- what one build does to one file

  /** The file is written with its slice. */
  predicate Writes(w: Work, db: Db, f: File, force: bool, nowYear: int) {
    !Skips(w, f, force, nowYear) && Slice(db, f) != map[]
  }

  /** In w, file f and its entry stand as a build leaves them that started from `start`. */
  ghost predicate Settled(start: Work, w: Work, db: Db, f: File, force: bool, nowYear: int) {
    if Writes(start, db, f, force, nowYear)
    then f in w.files && w.files[f] == Slice(db, f) && f in w.entries && w.entries[f] == EntryOf(Slice(db, f))
    else Untouched(start, w, f)
  }

  ghost predicate Untouched(start: Work, w: Work, f: File) {
    && (f in w.files <==> f in start.files) && (f in start.files ==> w.files[f] == start.files[f])
    && (f in w.entries <==> f in start.entries) && (f in start.entries ==> w.entries[f] == start.entries[f])
  }

  /** A file on its turn is settled, and stays so on a repeated turn. */
  lemma FileTurn(start: Work, w: Work, db: Db, f: File, force: bool, nowYear: int)
    requires Settled(start, w, db, f, force, nowYear) || Untouched(start, w, f)
    ensures Settled(start, AfterFile(w, db, f, force, nowYear), db, f, force, nowYear)
  {
    hide Slice, EntryOf, IsHot;
  }

  lemma OtherTurn(w: Work, db: Db, g: File, force: bool, nowYear: int, f: File)
    requires g != f
    ensures Untouched(w, AfterFile(w, db, g, force, nowYear), f)
  {
    hide Slice, EntryOf, IsHot;
  }

  lemma {:induction false} YearsTurn(start: Work, w: Work, db: Db, series: string, years: seq<int>, n: nat,
                                     force: bool, nowYear: int, f: File)
    requires n <= |years|
    requires Settled(start, w, db, f, force, nowYear) || Untouched(start, w, f)
    ensures var after := AfterYears(w, db, series, years, n, force, nowYear);
            if f.series == series && f.year in years[..n] then Settled(start, after, db, f, force, nowYear)
            else
              (Settled(start, w, db, f, force, nowYear) ==> Settled(start, after, db, f, force, nowYear)) &&
              (Untouched(start, w, f) ==> Untouched(start, after, f))
  {
    hide Settled, AfterFile;
    if n > 0 {
      YearsTurn(start, w, db, series, years, n - 1, force, nowYear, f);
      var before := AfterYears(w, db, series, years, n - 1, force, nowYear);
      var g := File(series, years[n - 1]);
      assert years[..n] == years[..n - 1] + [years[n - 1]];
      if g == f {
        FileTurn(start, before, db, f, force, nowYear);
      } else {
        OtherTurn(before, db, g, force, nowYear, f);
        StaysSettled(start, before, AfterFile(before, db, g, force, nowYear), db, f, force, nowYear);
      }
    }
  }

  lemma StaysSettled(start: Work, w: Work, v: Work, db: Db, f: File, force: bool, nowYear: int)
    requires Untouched(w, v, f)
    ensures Settled(start, w, db, f, force, nowYear) ==> Settled(start, v, db, f, force, nowYear)
  {
    hide Slice, EntryOf, Writes;
  }

  lemma {:induction false} SeriesTurn(start: Work, db: Db, years: seq<int>, n: nat, force: bool, nowYear: int, f: File)
    requires n <= |db.series|
    ensures var after := AfterSeries(start, db, years, n, force, nowYear);
            if f.series in db.series[..n] && f.year in years then Settled(start, after, db, f, force, nowYear)
            else Untouched(start, after, f)
  {
    hide Settled, Untouched, AfterYears;
    UntouchedNow(start, f);
    if n > 0 {
      var before := AfterSeries(start, db, years, n - 1, force, nowYear);
      SeriesTurn(start, db, years, n - 1, force, nowYear, f);
      assert db.series[..n] == db.series[..n - 1] + [db.series[n - 1]];
      YearsTurn(start, before, db, db.series[n - 1], years, |years|, force, nowYear, f);
      assert years[..|years|] == years;
    }
  }

  lemma UntouchedNow(start: Work, f: File)
    ensures Untouched(start, start, f)
  {
  }

  /** File by file, in one step: what a completed build writes, and that it touches nothing else. */
  lemma BuildByFile(disk: Disk, db: Db, years: Option<seq<int>>, force: bool, nowYear: int, f: File)
    requires Representable(db)
    ensures var after := Built(disk, db, years, force, nowYear);
            var c := Slice(db, f);
            var turn := f.series in db.series && f.year in YearsFor(db, years, nowYear) && c != map[] &&
                        (force || nowYear - 1 <= f.year <= nowYear || f !in disk.files);
            && (f in after.files <==> turn || f in disk.files)
            && (f in after.files ==> after.files[f] == if turn then c else disk.files[f])
            && (!Idle(db, years) ==>
                  && after.manifest.Listed?
                  && (f in after.manifest.entries <==> turn || (f in disk.files && f in Carried(disk.manifest)))
                  && (f in after.manifest.entries ==>
                        after.manifest.entries[f] == if turn then EntryOf(c) else Carried(disk.manifest)[f]))
  {
    var start := Work(disk.files, Carried(disk.manifest), 0, 0);
    SeriesTurn(start, db, YearsFor(db, years, nowYear), |db.series|, force, nowYear, f);
    assert db.series[..|db.series|] == db.series;
    hide Slice, EntryOf, AfterSeries, DefaultYears, Times;
  }

  // ----- what one build counts

  ghost predicate Distinct<T>(s: seq<T>) {
    forall i, j | 0 <= i < j < |s| :: s[i] != s[j]
  }

  /** The build passes the file over: it is there, it is older than the previous year, and nothing is forced. */
  predicate PassedOver(files: map<File, Content>, f: File, force: bool, nowYear: int) {
    f in files && !force && !(nowYear - 1 <= f.year <= nowYear)
  }

  /** One turn of the inner loop, by the places of its series and its year. */
  datatype Turn = Turn(series: nat, year: nat)

  /** The turns for the first i series, and for the first j years of the next. */
  ghost function Turns(years: seq<int>, i: nat, j: nat): set<Turn> {
    set a: nat, b: nat | a <= i && b < |years| && (a < i || b < j) :: Turn(a, b)
  }

  ghost function Where<T>(ts: set<T>, holds: T -> bool): set<T> {
    set t | t in ts && holds(t)
  }

  ghost function PassesOver(disk: Disk, db: Db, years: seq<int>, force: bool, nowYear: int): Turn -> bool {
    (t: Turn) => t.series < |db.series| && t.year < |years| &&
                 PassedOver(disk.files, File(db.series[t.series], years[t.year]), force, nowYear)
  }

  ghost function WritesOn(disk: Disk, db: Db, years: seq<int>, force: bool, nowYear: int): Turn -> bool {
    (t: Turn) => t.series < |db.series| && t.year < |years| &&
                 var f := File(db.series[t.series], years[t.year]);
                 !PassedOver(disk.files, f, force, nowYear) && Slice(db, f) != map[]
  }

  ghost predicate Counted(w: Work, disk: Disk, db: Db, years: seq<int>, force: bool, nowYear: int, ts: set<Turn>) {
    && w.skipped == |Where(ts, PassesOver(disk, db, years, force, nowYear))|
    && w.built == |Where(ts, WritesOn(disk, db, years, force, nowYear))|
  }

  lemma WhereMore<T>(ts: set<T>, t: T, holds: T -> bool)
    requires t !in ts
    ensures |Where(ts + {t}, holds)| == |Where(ts, holds)| + if holds(t) then 1 else 0
  {
    assert Where(ts + {t}, holds) == if holds(t) then Where(ts, holds) + {t} else Where(ts, holds);
  }

  lemma OneFile(w: Work, disk: Disk, db: Db, f: File, force: bool, nowYear: int)
    requires Untouched(StartOf(disk), w, f)
    ensures var after, passed := AfterFile(w, db, f, force, nowYear), PassedOver(disk.files, f, force, nowYear);
            && after.skipped == w.skipped + (if passed then 1 else 0)
            && after.built == w.built + (if !passed && Slice(db, f) != map[] then 1 else 0)
  {
    hide Slice, EntryOf;
  }

  lemma OneTurn(w: Work, disk: Disk, db: Db, years: seq<int>, force: bool, nowYear: int, ts: set<Turn>, i: nat, j: nat)
    requires i < |db.series| && j < |years| && Turn(i, j) !in ts && Counted(w, disk, db, years, force, nowYear, ts)
    requires Untouched(StartOf(disk), w, File(db.series[i], years[j]))
    ensures Counted(AfterFile(w, db, File(db.series[i], years[j]), force, nowYear), disk, db, years, force, nowYear,
                    ts + {Turn(i, j)})
  {
    hide Slice, AfterFile, Untouched, PassedOver, Where;
    OneFile(w, disk, db, File(db.series[i], years[j]), force, nowYear);
    WhereMore(ts, Turn(i, j), PassesOver(disk, db, years, force, nowYear));
    WhereMore(ts, Turn(i, j), WritesOn(disk, db, years, force, nowYear));
  }

  lemma {:induction false} TurnsCount(disk: Disk, db: Db, years: seq<int>, i: nat, j: nat, force: bool, nowYear: int)
    requires Distinct(db.series) && Distinct(years) && i < |db.series| && j <= |years|
    ensures Counted(StoppedWork(StartOf(disk), db, years, i, j, force, nowYear), disk, db, years, force, nowYear,
                    Turns(years, i, j))
    decreases i, j
  {
    hide Counted, Turns, AfterFile, Slice;
    if j > 0 {
      TurnsCount(disk, db, years, i, j - 1, force, nowYear);
      var w, f := StoppedWork(StartOf(disk), db, years, i, j - 1, force, nowYear), File(db.series[i], years[j - 1]);
      NotYetReached(db, years, i, j - 1);
      StoppedTurn(StartOf(disk), db, years, i, j - 1, force, nowYear, f);
      NextTurn(years, i, j - 1);
      OneTurn(w, disk, db, years, force, nowYear, Turns(years, i, j - 1), i, j - 1);
    } else if i > 0 {
      TurnsCount(disk, db, years, i - 1, |years|, force, nowYear);
      NextRow(years, i - 1);
    } else {
      NoTurns(disk, db, years, force, nowYear);
    }
  }

  lemma {:induction false} NotYetReached(db: Db, years: seq<int>, i: nat, j: nat)
    requires Distinct(db.series) && Distinct(years) && i < |db.series| && j < |years|
    ensures !Reached(db, years, i, j, File(db.series[i], years[j]))
  {
  }

  lemma NextTurn(years: seq<int>, i: nat, j: nat)
    requires j < |years|
    ensures Turn(i, j) !in Turns(years, i, j) && Turns(years, i, j + 1) == Turns(years, i, j) + {Turn(i, j)}
  {
  }

  lemma NextRow(years: seq<int>, i: nat)
    ensures Turns(years, i + 1, 0) == Turns(years, i, |years|)
  {
  }

  lemma NoTurns(disk: Disk, db: Db, years: seq<int>, force: bool, nowYear: int)
    ensures Counted(StartOf(disk), disk, db, years, force, nowYear, Turns(years, 0, 0))
  {
    assert Turns(years, 0, 0) == {};
  }

  /** What a completed build reports: the files it wrote, those it passed over, and the length of its manifest. */
  lemma StatsCount(disk: Disk, db: Db, years: Option<seq<int>>, force: bool, nowYear: int)
    requires Representable(db) && Distinct(db.series) && Distinct(YearsFor(db, years, nowYear))
    ensures var listed, w := YearsFor(db, years, nowYear), WorkOf(disk, db, years, force, nowYear);
            Counted(w, disk, db, listed, force, nowYear, Turns(listed, |db.series|, 0))
  {
    hide Counted, Turns, AfterFile, Slice, YearsFor;
    var listed := YearsFor(db, years, nowYear);
    if db.series == [] {
      NoTurns(disk, db, listed, force, nowYear);
    } else {
      TurnsCount(disk, db, listed, |db.series| - 1, |listed|, force, nowYear);
      NextRow(listed, |db.series| - 1);
    }
  }

  // ----- any history of builds

  /** Between builds the store may change at will, files may be removed by hand, and the manifest may be lost. */
  datatype Event =
    | Build(db: Db, years: Option<seq<int>>, force: bool, nowYear: int)
    | RemoveFile(file: File)
    | LoseManifest(found: Manifest)

  ghost predicate Allowed(e: Event) {
    match e
    case Build(db, years, _, _) => Representable(db)
    case RemoveFile(_) => true
    case LoseManifest(found) => !found.Listed?
  }

  function After(disk: Disk, e: Event): Disk
    requires Allowed(e)
  {
    match e
    case Build(db, years, force, nowYear) => Built(disk, db, years, force, nowYear)
    case RemoveFile(f) => disk.(files := disk.files - {f})
    case LoseManifest(found) => disk.(manifest := found)
  }

  /** A history, from an empty directory. */
  function Run(events: seq<Event>, n: nat): Disk
    requires n <= |events| && forall e | e in events :: Allowed(e)
  {
    AfterAll(Disk(map[], Missing), events, n)
  }

  function AfterAll(disk: Disk, events: seq<Event>, n: nat): Disk
    requires n <= |events| && forall e | e in events :: Allowed(e)
  {
    if n == 0 then disk else After(AfterAll(disk, events, n - 1), events[n - 1])
  }

  /** No entry vouches for other content than the file's. */
  ghost predicate Honest(disk: Disk) {
    forall f | f in Carried(disk.manifest) && f in disk.files :: Carried(disk.manifest)[f] == EntryOf(disk.files[f])
  }

  lemma EventKeepsHonest(disk: Disk, e: Event)
    requires Allowed(e) && Honest(disk)
    ensures Honest(After(disk, e))
  {
    hide Built, EntryOf, IsHot, Slice, YearsFor, Idle;
    if e.Build? && !Idle(e.db, e.years) {
      var after := Built(disk, e.db, e.years, e.force, e.nowYear);
      forall f | f in Carried(after.manifest) && f in after.files
        ensures Carried(after.manifest)[f] == EntryOf(after.files[f])
      {
        BuildByFile(disk, e.db, e.years, e.force, e.nowYear, f);
      }
    } else if e.Build? {
      IdleBuild(disk, e);
    }
  }

  lemma IdleBuild(disk: Disk, e: Event)
    requires Allowed(e) && e.Build? && Idle(e.db, e.years)
    ensures After(disk, e) == disk
  {
  }

  lemma {:induction false} HistoryIsHonest(events: seq<Event>, n: nat)
    requires n <= |events| && forall e | e in events :: Allowed(e)
    ensures Honest(Run(events, n))
  {
    hide Honest, After;
    if n > 0 {
      HistoryIsHonest(events, n - 1);
      EventKeepsHonest(Run(events, n - 1), events[n - 1]);
    } else {
      StartIsHonest();
    }
  }

  lemma StartIsHonest()
    ensures Honest(Disk(map[], Missing))
  {
  }

  lemma EntryHolds(files: map<File, Content>, f: File)
    requires f in files
    ensures EntryOf(files[f]) == Entry(|files[f]|, |set s | s in files[f] :: s.zone|, files[f])
  {
  }

  /** After any history that ends with a build, every manifest entry is for an existing file, and right about it. */
  lemma {:induction false} ManifestVouches(events: seq<Event>, f: File)
    requires |events| > 0 && forall e | e in events :: Allowed(e)
    requires var e := events[|events| - 1]; e.Build? && !Idle(e.db, e.years)
    requires var disk := Run(events, |events|); disk.manifest.Listed? && f in disk.manifest.entries
    ensures var disk := Run(events, |events|);
            && f in disk.files && disk.manifest.entries[f].rows == |disk.files[f]|
            && disk.manifest.entries[f].zones == |set s | s in disk.files[f] :: s.zone|
            && disk.manifest.entries[f].digest == disk.files[f]
  {
    EntryHolds(Run(events, |events|).files, f);
    HistoryIsHonest(events, |events|);
    var e := events[|events| - 1];
    assert e in events;
    hide Built, EntryOf, IsHot, Slice, YearsFor, Times;
    BuildByFile(Run(events, |events| - 1), e.db, e.years, e.force, e.nowYear, f);
  }

  /** The years a build goes through: those it is given, or all from the oldest hour's to the current one. */
  lemma YearsListed(db: Db, years: Option<seq<int>>, nowYear: int, year: int)
    requires Representable(db)
    ensures year in YearsFor(db, years, nowYear)
       <==> if years.Some? then year in years.value
            else year <= nowYear && exists h :: h in db.hours && YearOfHour(h.ts) <= year
  {
    hide YearOfHour;
    if years.None? && Times(db) != {} {
      var least := Least(Times(db));
      var oldest :| oldest in db.hours && oldest.ts == least;
      forall h | h in db.hours
        ensures YearOfHour(least) <= YearOfHour(h.ts)
      {
        assert h.ts in Times(db);
        YearsAscend(least, h.ts);
      }
    } else if years.None? {
      assert forall h | h in db.hours :: h.ts in Times(db);
    }
  }

  /**
   Which existing files a build without force changes: exactly those of the current and the previous year that it goes
   through, whose slice has rows and differs from the file.
   */
  lemma UnforcedChangesExactly(disk: Disk, db: Db, years: Option<seq<int>>, nowYear: int, f: File)
    requires Representable(db) && f in disk.files
    ensures var after := Built(disk, db, years, false, nowYear);
            && f in after.files
            && (after.files[f] != disk.files[f] <==>
                && nowYear - 1 <= f.year <= nowYear && f.series in db.series && f.year in YearsFor(db, years, nowYear)
                && Slice(db, f) != map[] && Slice(db, f) != disk.files[f])
  {
    hide Built, EntryOf, Slice, YearsFor;
    BuildByFile(disk, db, years, false, nowYear, f);
  }

  /** Without force, a file older than the previous year is left as it is for as long as it exists. */
  lemma OldFilesStand(disk: Disk, db: Db, years: Option<seq<int>>, nowYear: int, f: File)
    requires Representable(db) && f in disk.files && f.year < nowYear - 1
    ensures var after := Built(disk, db, years, false, nowYear);
            f in after.files && after.files[f] == disk.files[f]
  {
    hide Built, EntryOf, Slice, YearsFor;
    BuildByFile(disk, db, years, false, nowYear, f);
  }

  // ----- slices and the store

  lemma SliceMembers(db: Db, f: File, s: Slot)
    ensures s in Slice(db, f) <==> InSlice(db, f, s)
    ensures s in Slice(db, f) ==> Slice(db, f)[s] == db.hours[Hour(f.series, s.zone, s.ts)]
  {
    hide YearBegins;
    if InSlice(db, f, s) {
      var h := Hour(f.series, s.zone, s.ts);
      assert h in db.hours && Slot(h.zone, h.ts) == s;
    }
  }

  /** An hour lies in the slice of its own UTC year and of no other. */
  lemma HourInItsYear(ts: int, year: int)
    requires ts >= Calendar.UnixOfDay(0)
    ensures YearBegins(year) <= ts < YearBegins(year + 1) <==> YearOfHour(ts) == year
  {
    hide Calendar.YearStart, Calendar.YearOf;
    var day := Calendar.DayOfUnix(ts);
    Calendar.UnixDayBounds(ts, 0);
    Calendar.UnixDayBounds(ts, Calendar.YearStart(year));
    Calendar.UnixDayBounds(ts, Calendar.YearStart(year + 1));
    Calendar.YearBounds(day, year);
  }

  lemma YearsAscend(a: int, b: int)
    requires Calendar.UnixOfDay(0) <= a <= b
    ensures YearOfHour(a) <= YearOfHour(b)
  {
    hide Calendar.MonthOf;
    Calendar.UnixDayBounds(a, 0);
    Calendar.UnixDayBounds(b, 0);
    Calendar.UnixDayBounds(b, Calendar.DayOfUnix(a));
    Calendar.UnixDayBounds(a, Calendar.DayOfUnix(a));
    Calendar.MonthOfMonotone(Calendar.DayOfUnix(a), Calendar.DayOfUnix(b));
  }

  /**
   The default years are those from the oldest hour's to the current: each hour up to its end is in exactly
   one slice.
   */
  lemma SlicesPartition(db: Db, h: Hour, nowYear: int, year: int)
    requires Representable(db) && h in db.hours && h.zone in db.zones
    ensures year in YearsFor(db, None, nowYear) && Slot(h.zone, h.ts) in Slice(db, File(h.series, year))
            <==> year == YearOfHour(h.ts) && h.ts < YearBegins(nowYear + 1)
  {
    hide YearOfHour, Slice, YearBegins;
    assert h.ts in Times(db);
    SliceMembers(db, File(h.series, year), Slot(h.zone, h.ts));
    HourInItsYear(h.ts, year);
    YearsAscend(Least(Times(db)), h.ts);
    EndOfYear(h.ts, nowYear);
  }

  lemma EndOfYear(ts: int, year: int)
    requires ts >= Calendar.UnixOfDay(0)
    ensures ts < YearBegins(year + 1) <==> YearOfHour(ts) <= year
  {
    hide Calendar.YearStart, Calendar.MonthOf;
    Calendar.UnixDayBounds(ts, 0);
    Calendar.UnixDayBounds(ts, Calendar.YearStart(year + 1));
    Calendar.BeforeYear(Calendar.DayOfUnix(ts), year + 1);
  }

  /** A default build leaves every slice of the current and previous year that has rows equal to the store. */
  lemma HotSlicesEqualStore(disk: Disk, db: Db, force: bool, nowYear: int, f: File, s: Slot)
    requires Representable(db) && f.series in db.series && nowYear - 1 <= f.year <= nowYear && InSlice(db, f, s)
    ensures var after := Built(disk, db, None, force, nowYear);
            && f in after.files && after.files[f] == Slice(db, f)
            && after.manifest.Listed? && f in after.manifest.entries && after.manifest.entries[f] == EntryOf(Slice(db, f))
  {
    var h := Hour(f.series, s.zone, s.ts);
    SliceMembers(db, f, s);
    HourInItsYear(s.ts, f.year);
    EndOfYear(s.ts, nowYear);
    SlicesPartition(db, h, nowYear, f.year);
    assert s.ts in Times(db);
    BuildByFile(disk, db, None, force, nowYear, f);
    hide *;
  }

  // ----- an interrupted build

  /** What a build holds when it is stopped in series i, after the first j years of it. */
  function StoppedWork(start: Work, db: Db, years: seq<int>, i: nat, j: nat, force: bool, nowYear: int): Work
    requires i < |db.series| && j <= |years|
  {
    AfterYears(AfterSeries(start, db, years, i, force, nowYear), db, db.series[i], years, j, force, nowYear)
  }

  /** The disk then: files are replaced, the manifest is still the old one. */
  function Stopped(disk: Disk, db: Db, years: seq<int>, i: nat, j: nat, force: bool, nowYear: int): Disk
    requires i < |db.series| && j <= |years|
  {
    Disk(StoppedWork(StartOf(disk), db, years, i, j, force, nowYear).files, disk.manifest)
  }

  function StartOf(disk: Disk): Work {
    Work(disk.files, Carried(disk.manifest), 0, 0)
  }

  /** The file had its turn before the build was stopped. */
  predicate Reached(db: Db, years: seq<int>, i: nat, j: nat, f: File)
    requires i < |db.series| && j <= |years|
  {
    (f.series in db.series[..i] && f.year in years) || (f.series == db.series[i] && f.year in years[..j])
  }

  lemma StoppedTurn(start: Work, db: Db, years: seq<int>, i: nat, j: nat, force: bool, nowYear: int, f: File)
    requires i < |db.series| && j <= |years|
    ensures var w := StoppedWork(start, db, years, i, j, force, nowYear);
            if Reached(db, years, i, j, f) then Settled(start, w, db, f, force, nowYear) else Untouched(start, w, f)
  {
    hide Settled, Untouched, AfterYears, AfterSeries;
    SeriesTurn(start, db, years, i, force, nowYear, f);
    YearsTurn(start, AfterSeries(start, db, years, i, force, nowYear), db, db.series[i], years, j, force, nowYear, f);
  }

  /** An entry that is wrong about the file it is for. */
  predicate Broken(disk: Disk, f: File) {
    f in Carried(disk.manifest) && f in disk.files && Carried(disk.manifest)[f] != EntryOf(disk.files[f])
  }

  lemma HonestMeans(disk: Disk)
    ensures Honest(disk) <==> forall f :: !Broken(disk, f)
  {
    hide EntryOf, Carried;
    if forall f :: !Broken(disk, f) {
      forall f | f in Carried(disk.manifest) && f in disk.files
        ensures Carried(disk.manifest)[f] == EntryOf(disk.files[f])
      {
        assert !Broken(disk, f);
      }
    }
  }

  /** The build would write this file, and its old entry does not describe what is written. */
  predicate Endangered(disk: Disk, db: Db, f: File, force: bool, nowYear: int) {
    Writes(StartOf(disk), db, f, force, nowYear) && f in Carried(disk.manifest) &&
    Carried(disk.manifest)[f] != EntryOf(Slice(db, f))
  }

  lemma BrokenByStop(disk: Disk, db: Db, years: seq<int>, i: nat, j: nat, force: bool, nowYear: int, f: File)
    requires i < |db.series| && j <= |years| && Honest(disk)
    ensures var stopped := Stopped(disk, db, years, i, j, force, nowYear);
            Broken(stopped, f) <==> Reached(db, years, i, j, f) && Endangered(disk, db, f, force, nowYear)
  {
    StoppedTurn(StartOf(disk), db, years, i, j, force, nowYear, f);
    HonestMeans(disk);
    assert !Broken(disk, f);
  }

  /**
   Where an interruption does harm: stopped after any file, a build leaves the manifest right if and only if every
   listed file it has written by then is still described by its old entry.
   */
  lemma StoppedIsHonestExactly(disk: Disk, db: Db, years: seq<int>, i: nat, j: nat, force: bool, nowYear: int)
    requires i < |db.series| && j <= |years| && Honest(disk)
    ensures Honest(Stopped(disk, db, years, i, j, force, nowYear))
       <==> forall f | Reached(db, years, i, j, f) :: !Endangered(disk, db, f, force, nowYear)
  {
    hide Stopped, Reached, Endangered, Honest, Broken;
    var stopped := Stopped(disk, db, years, i, j, force, nowYear);
    HonestMeans(stopped);
    forall f
      ensures Broken(stopped, f) <==> Reached(db, years, i, j, f) && Endangered(disk, db, f, force, nowYear)
    {
      BrokenByStop(disk, db, years, i, j, force, nowYear, f);
    }
  }

  /** Such a stop: the store has changed since the file was written, and the build stops once it has replaced it. */
  lemma StopBreaks(db: Db, f: File, s: Slot, was: Content, nowYear: int)
    requires db.series == [f.series] && nowYear - 1 <= f.year <= nowYear && InSlice(db, f, s) && was != Slice(db, f)
    ensures var disk := Disk(map[f := was], Listed(map[f := EntryOf(was)]));
            Honest(disk) && !Honest(Stopped(disk, db, [f.year], 0, 1, false, nowYear))
  {
    hide Stopped, Slice, InSlice, EntryOf;
    SliceMembers(db, f, s);
    var disk := Disk(map[f := was], Listed(map[f := EntryOf(was)]));
    EntriesDiffer(was, Slice(db, f));
    assert [f.year][..1] == [f.year];
    assert Reached(db, [f.year], 0, 1, f);
    assert Endangered(disk, db, f, false, nowYear);
    StoppedIsHonestExactly(disk, db, [f.year], 0, 1, false, nowYear);
  }

  lemma EntriesDiffer(a: Content, b: Content)
    requires a != b
    ensures EntryOf(a) != EntryOf(b)
  {
  }

  /** The build writes the file anew: it lists it, has rows for it, and does not skip it. */
  predicate Rewrites(db: Db, years: Option<seq<int>>, force: bool, nowYear: int, f: File)
    requires Representable(db)
  {
    f.series in db.series && f.year in YearsFor(db, years, nowYear) && Slice(db, f) != map[] &&
    (force || nowYear - 1 <= f.year <= nowYear)
  }

  /** Which wrong entries a completed build repairs: exactly those of the files it writes anew. */
  lemma RepairedExactly(disk: Disk, db: Db, years: Option<seq<int>>, force: bool, nowYear: int, f: File)
    requires Representable(db) && !Idle(db, years)
    ensures Broken(Built(disk, db, years, force, nowYear), f)
       <==> Broken(disk, f) && !Rewrites(db, years, force, nowYear, f)
  {
    hide Built, EntryOf, Slice, YearsFor, Idle;
    BuildByFile(disk, db, years, force, nowYear, f);
  }

  /** A default build repairs the entries of the current and the previous year that have rows. */
  lemma HotEntriesAreRepaired(disk: Disk, db: Db, nowYear: int, f: File, s: Slot)
    requires Representable(db) && f.series in db.series && nowYear - 1 <= f.year <= nowYear && InSlice(db, f, s)
    ensures !Broken(Built(disk, db, None, false, nowYear), f)
  {
    hide Built, Slice, EntryOf;
    HotSlicesEqualStore(disk, db, false, nowYear, f, s);
  }

  /** Older ones stay wrong through any number of builds without force, for as long as the file is there. */
  lemma {:induction false} OlderEntriesStayWrong(disk: Disk, builds: seq<Event>, n: nat, f: File)
    requires n <= |builds| && Broken(disk, f)
    requires forall e | e in builds :: e.Build? && Allowed(e) && !e.force && f.year < e.nowYear - 1
    ensures Broken(AfterAll(disk, builds, n), f)
  {
    hide Broken, Built, IsHot;
    if n > 0 {
      OlderEntriesStayWrong(disk, builds, n - 1, f);
      var e, before := builds[n - 1], AfterAll(disk, builds, n - 1);
      assert e in builds;
      if Idle(e.db, e.years) {
        IdleBuild(before, e);
      } else {
        OlderIsNotHot(e, f);
        RepairedExactly(before, e.db, e.years, e.force, e.nowYear, f);
      }
    }
  }

  lemma OlderIsNotHot(e: Event, f: File)
    requires e.Build? && Allowed(e) && !e.force && f.year < e.nowYear - 1
    ensures !Rewrites(e.db, e.years, e.force, e.nowYear, f)
  {
    hide YearsFor, Slice;
  }
}
