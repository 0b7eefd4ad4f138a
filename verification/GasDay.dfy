/**
 The European gas day runs from 06:00 to 06:00 local time. An instant counts microseconds of UTC from 1 January of
 year 1; local time follows Directive 2000/84/EC: one hour ahead of UTC, two from 01:00 UTC on the last Sunday of
 March to 01:00 UTC on the last Sunday of October.
 */
module GasDay {
  import opened Calendar

  const HOUR := 3600 * 1000000
  const DAY_TICKS := 24 * HOUR

  /** A `datetime`: without an offset it is read as UTC. */
  datatype Timestamp = Naive(wall: int) | Aware(wall: int, offset: int)

  function ToUtc(ts: Timestamp): int {
    match ts
    case Naive(wall) => wall
    case Aware(wall, offset) => wall - offset
  }

  function SundayUpTo(last: int): (d: int)
    ensures last - 7 < d <= last && d % 7 == 6
  {
    last - (last + 1) % 7
  }

  /** The last Sunday of a month; day 0 was a Monday. */
  function LastSunday(month: int): (d: int)
    ensures MonthStart(month + 1) - 7 <= d < MonthStart(month + 1) && d % 7 == 6
  {
    SundayUpTo(MonthStart(month + 1) - 1)
  }

  function SummerBegins(year: int): int {
    LastSunday(12 * year + 2)
  }

  function SummerEnds(year: int): int {
    LastSunday(12 * year + 9)
  }

  /** Whether summer time is in force at an instant. */
  predicate IsSummer(utc: int)
    requires utc >= 0
  {
    var year := YearOf(utc / DAY_TICKS);
    DAY_TICKS * SummerBegins(year) + HOUR <= utc < DAY_TICKS * SummerEnds(year) + HOUR
  }

  function Offset(utc: int): int
    requires utc >= 0
  {
    if IsSummer(utc) then 2 * HOUR else HOUR
  }

  /** Local wall time, less six hours, by its date. */
  function GasDayOf(ts: Timestamp): int
    requires ToUtc(ts) >= 0
  {
    var utc := ToUtc(ts);
    (utc + Offset(utc) - 6 * HOUR) / DAY_TICKS
  }

  /** An instant has one gas day, whatever offset it is written with. */
  lemma OffsetDoesNotMatter(utc: int, offset: int)
    requires utc >= 0
    ensures ToUtc(Aware(utc + offset, offset)) == utc
    ensures GasDayOf(Aware(utc + offset, offset)) == GasDayOf(Naive(utc))
  {
    hide Offset;
    assert ToUtc(Aware(utc + offset, offset)) == utc == ToUtc(Naive(utc));
  }

  // ----- the calendar of gas days

  /** The offset at 06:00 local time of a day. */
  function MorningOffset(day: int): int
    requires day >= 0
  {
    var year := YearOf(day);
    if SummerBegins(year) <= day < SummerEnds(year) then 2 * HOUR else HOUR
  }

  /** The instant gas day `day` begins. */
  function Begins(day: int): int
    requires day >= 0
  {
    DAY_TICKS * day + 6 * HOUR - MorningOffset(day)
  }

  /** Summer begins and ends well inside the year, and in this order. */
  lemma SummerInsideYear(year: int)
    ensures YearStart(year) + 55 <= SummerBegins(year)
    ensures SummerBegins(year) + 150 <= SummerEnds(year) <= YearStart(year + 1) - 40
  {
    hide MonthStart, YearStart;
    JanuaryFirst(year);
    JanuaryFirst(year + 1);
    MonthsAscend(12 * year, 12 * year + 3);
    MonthsAscend(12 * year + 3, 12 * year + 10);
    MonthsAscend(12 * year + 10, 12 * (year + 1));
  }

  lemma Quotient(t: int, q: int)
    requires DAY_TICKS * q <= t < DAY_TICKS * (q + 1)
    ensures t / DAY_TICKS == q
  {
  }

  lemma QuotientMonotone(t: int, u: int)
    requires t <= u
    ensures t / DAY_TICKS <= u / DAY_TICKS
  {
  }

  lemma Remainder(t: int)
    ensures t == DAY_TICKS * (t / DAY_TICKS) + t % DAY_TICKS && 0 <= t % DAY_TICKS < DAY_TICKS
  {
  }

  /** An instant of day d is after 01:00 of day m when d is later, or is m and the hour has passed. */
  lemma AfterOne(utc: int, d: int, r: int, m: int)
    requires utc == DAY_TICKS * d + r && 0 <= r < DAY_TICKS
    ensures DAY_TICKS * m + HOUR <= utc <==> m < d || (m == d && HOUR <= r)
  {
  }

  /** The wall-clock rule, by UTC day: an instant is in its own day's gas day from that day's beginning on. */
  lemma GasDayByDay(utc: int)
    requires utc >= DAY_TICKS
    ensures var d := utc / DAY_TICKS;
            GasDayOf(Naive(utc)) == if Begins(d) <= utc then d else d - 1
  {
    hide YearOf, SummerBegins, SummerEnds;
    var d, r := utc / DAY_TICKS, utc % DAY_TICKS;
    var year := YearOf(d);
    Remainder(utc);
    SummerInsideYear(year);
    AfterOne(utc, d, r, SummerBegins(year));
    AfterOne(utc, d, r, SummerEnds(year));
    var local := utc + Offset(utc) - 6 * HOUR;
    assert GasDayOf(Naive(utc)) == local / DAY_TICKS;
    hide YearStart;
    Quotient(local, if Begins(d) <= utc then d else d - 1);
  }

  /** Gas day D is exactly the interval from its beginning to the next: gas days tile time. */
  lemma GasDaysTile(ts: Timestamp, day: int)
    requires ToUtc(ts) >= DAY_TICKS && day >= 0
    ensures GasDayOf(ts) == day <==> Begins(day) <= ToUtc(ts) < Begins(day + 1)
  {
    hide MorningOffset, GasDayOf;
    var utc := ToUtc(ts);
    assert GasDayOf(ts) == GasDayOf(Naive(utc)) by { SameInstant(ts); }
    GasDayByDay(utc);
    var d, r := utc / DAY_TICKS, utc % DAY_TICKS;
    assert utc == DAY_TICKS * d + r;
    MorningOffsets(day);
    MorningOffsets(day + 1);
    MorningOffsets(d);
  }

  lemma SameInstant(ts: Timestamp)
    requires ToUtc(ts) >= 0
    ensures GasDayOf(ts) == GasDayOf(Naive(ToUtc(ts)))
  {
    hide Offset;
  }

  lemma MorningOffsets(day: int)
    requires day >= 0
    ensures MorningOffset(day) == HOUR || MorningOffset(day) == 2 * HOUR
  {
  }

  /** Later instants never fall in earlier gas days, not even across the hour that local clocks repeat. */
  lemma GasDayMonotone(a: Timestamp, b: Timestamp)
    requires DAY_TICKS <= ToUtc(a) <= ToUtc(b)
    ensures GasDayOf(a) <= GasDayOf(b)
  {
    var u, v := ToUtc(a), ToUtc(b);
    hide GasDayOf, Begins;
    GasDayByDay(u);
    GasDayByDay(v);
    SameInstant(a);
    SameInstant(b);
    QuotientMonotone(u, v);
    hide *;
  }

  /** A gas day has 23 hours before the last Sunday of March, 25 before the last Sunday of October, and 24 otherwise. */
  lemma GasDayLength(day: int)
    requires day >= 0
    ensures var next := day + 1;
            Begins(next) - Begins(day)
            == if next == SummerBegins(YearOf(next)) then 23 * HOUR
               else if next == SummerEnds(YearOf(next)) then 25 * HOUR
               else 24 * HOUR
  {
    hide LastSunday, SummerBegins, SummerEnds, YearOf, YearStart;
    var y, z := YearOf(day), YearOf(day + 1);
    YearBounds(day, y);
    YearBounds(day + 1, z);
    SummerInsideYear(y);
    SummerInsideYear(z);
    if z != y {
      YearsMeet(day, y, z);
    }
  }

  lemma YearsMeet(day: int, y: int, z: int)
    requires day >= 0 && YearOf(day) == y && YearOf(day + 1) == z != y
    ensures z == y + 1 && day + 1 == YearStart(z)
  {
    hide YearStart, YearOf, IsLeap;
    YearBounds(day, y);
    YearBounds(day + 1, y);
    YearBounds(day + 1, y + 1);
    YearStep(y + 1);
    YearStep(y);
  }
}
