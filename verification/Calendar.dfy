/**
 The proleptic Gregorian calendar of Python's `datetime`. Days count from 1 January of year 1, months from January of
 year 0 (month index 12 * year + month - 1), and Unix time counts seconds from 1 January 1970.
 */
module Calendar {

  const EPOCH_DAY := 719162
  const DAY_SECONDS := 86400

  predicate IsLeap(year: int) {
    year % 4 == 0 && (year % 100 != 0 || year % 400 == 0)
  }

  /** The day 1 January falls on. */
  function YearStart(year: int): int {
    365 * (year - 1) + (year - 1) / 4 - (year - 1) / 100 + (year - 1) / 400
  }

  /** The days of a year before its month m, 0 for January and 12 for the next. */
  function DaysBefore(leap: bool, m: nat): int
    requires m <= 12
  {
    (match m
     case 0 => 0 case 1 => 31 case 2 => 59 case 3 => 90 case 4 => 120 case 5 => 151 case 6 => 181
     case 7 => 212 case 8 => 243 case 9 => 273 case 10 => 304 case 11 => 334 case _ => 365)
    + if leap && m >= 2 then 1 else 0
  }

  /** The day a month begins on. */
  function MonthStart(month: int): int {
    YearStart(month / 12) + DaysBefore(IsLeap(month / 12), month % 12)
  }

  function MonthLength(month: int): (n: int)
    ensures 28 <= n <= 31
  {
    DaysBefore(IsLeap(month / 12), month % 12 + 1) - DaysBefore(IsLeap(month / 12), month % 12)
  }

  lemma LeapCount(year: int)
    ensures year / 4 == (year - 1) / 4 + if year % 4 == 0 then 1 else 0
    ensures year / 100 == (year - 1) / 100 + if year % 100 == 0 then 1 else 0
    ensures year / 400 == (year - 1) / 400 + if year % 400 == 0 then 1 else 0
  {
  }

  lemma LeapKinds(year: int)
    ensures year % 100 == 0 ==> year % 4 == 0
    ensures year % 400 == 0 ==> year % 100 == 0
  {
  }

  lemma YearStep(year: int)
    ensures YearStart(year + 1) == YearStart(year) + if IsLeap(year) then 366 else 365
  {
    LeapCount(year);
    LeapKinds(year);
  }

  /** Months follow one another without a gap. */
  lemma MonthStep(month: int)
    ensures MonthStart(month + 1) == MonthStart(month) + MonthLength(month)
  {
    hide YearStart, IsLeap;
    var y, m := month / 12, month % 12;
    YearStep(y);
    if m == 11 {
      assert (month + 1) / 12 == y + 1 && (month + 1) % 12 == 0;
    } else {
      assert (month + 1) / 12 == y && (month + 1) % 12 == m + 1;
    }
  }

  lemma {:induction false} MonthsAscend(a: int, b: int)
    requires a <= b
    ensures MonthStart(a) + 28 * (b - a) <= MonthStart(b)
    decreases b - a
  {
    hide MonthStart, MonthLength;
    if a < b {
      MonthStep(b - 1);
      MonthsAscend(a, b - 1);
    }
  }

  /** The month from `month` on that a day falls in. */
  function MonthFrom(day: int, month: int): (k: int)
    requires MonthStart(month) <= day
    ensures month <= k && MonthStart(k) <= day < MonthStart(k + 1)
    decreases day - MonthStart(month)
  {
    hide MonthStart;
    MonthsAscend(month, month + 1);
    if day < MonthStart(month + 1) then month else MonthFrom(day, month + 1)
  }

  /** The month a day falls in. */
  function MonthOf(day: int): (k: int)
    requires day >= 0
    ensures k >= 12 && MonthStart(k) <= day < MonthStart(k + 1)
  {
    MonthFrom(day, 12)
  }

  lemma MonthOfIs(day: int, month: int)
    requires day >= 0 && MonthStart(month) <= day < MonthStart(month + 1)
    ensures MonthOf(day) == month
  {
    hide MonthStart, MonthFrom;
    var k := MonthOf(day);
    if k < month {
      MonthsAscend(k + 1, month);
    } else if month < k {
      MonthsAscend(month + 1, k);
    }
  }

  lemma MonthOfMonotone(a: int, b: int)
    requires 0 <= a <= b
    ensures MonthOf(a) <= MonthOf(b)
  {
    hide MonthStart, MonthFrom;
    if MonthOf(b) < MonthOf(a) {
      MonthsAscend(MonthOf(b) + 1, MonthOf(a));
    }
  }

  function YearOf(day: int): int
    requires day >= 0
  {
    MonthOf(day) / 12
  }

  lemma JanuaryFirst(year: int)
    ensures MonthStart(12 * year) == YearStart(year)
  {
    assert (12 * year) / 12 == year && (12 * year) % 12 == 0;
  }

  lemma BeforeYear(day: int, year: int)
    requires day >= 0
    ensures day < YearStart(year) <==> YearOf(day) < year
  {
    JanuaryFirst(year);
    hide MonthStart, YearStart, MonthFrom;
    var k := MonthOf(day);
    if k < 12 * year {
      MonthsAscend(k + 1, 12 * year);
    } else {
      MonthsAscend(12 * year, k);
    }
  }

  /** A day falls in a year exactly when it lies between that 1 January and the next. */
  lemma YearBounds(day: int, year: int)
    requires day >= 0
    ensures YearOf(day) == year <==> YearStart(year) <= day < YearStart(year + 1)
  {
    hide *;
    BeforeYear(day, year);
    BeforeYear(day, year + 1);
  }

  /** The UTC day of a Unix time. */
  function DayOfUnix(ts: int): int {
    ts / DAY_SECONDS + EPOCH_DAY
  }

  /** Midnight UTC at the start of a day. */
  function UnixOfDay(day: int): int {
    DAY_SECONDS * (day - EPOCH_DAY)
  }

  lemma UnixDayBounds(ts: int, day: int)
    ensures DayOfUnix(ts) >= day <==> ts >= UnixOfDay(day)
  {
  }
}
