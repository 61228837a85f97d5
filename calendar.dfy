/**
 * The proleptic Gregorian calendar that the platform's local `Date` type
 * implements: months are numbered 0..11 as `getMonth()` gives them, days
 * 1..DaysInMonth as `getDate()` gives them, weekdays 0 (Sunday) .. 6
 * (Saturday) as `getDay()` gives them.
 */
module Calendar {

  /** The local calendar fields of a `Date`: full year, month 0..11, day of month. */
  datatype Date = Date(year: int, month: int, day: int)

  predicate IsLeapYear(y: int) {
    y % 4 == 0 && (y % 100 != 0 || y % 400 == 0)
  }

  function DaysInMonth(y: int, m: int): (n: int)
    requires 0 <= m < 12
    ensures 28 <= n <= 31
    ensures n == 29 <==> m == 1 && IsLeapYear(y)
    ensures n == 28 <==> m == 1 && !IsLeapYear(y)
    ensures n == 30 <==> m == 3 || m == 5 || m == 8 || m == 10
  {
    if m == 1 then (if IsLeapYear(y) then 29 else 28)
    else if m == 3 || m == 5 || m == 8 || m == 10 then 30
    else 31
  }

  predicate IsValid(d: Date) {
    0 <= d.month < 12 && 1 <= d.day <= DaysInMonth(d.year, d.month)
  }

  /** The field values a `Date` object can hold. */
  type CivilDate = d: Date | IsValid(d) witness Date(1970, 0, 1)

  /**
   * Days since 1970-01-01 (the platform's epoch): 365 days a year, plus the
   * leap days of all earlier years counted from March, plus the days of the
   * current year counted from March 1.
   */
  function DayNumber(d: CivilDate): int {
    var y := if d.month < 2 then d.year - 1 else d.year;
    var mp := if d.month >= 2 then d.month - 2 else d.month + 10;
    365 * y + y / 4 - y / 100 + y / 400 + (153 * mp + 2) / 5 + d.day - 1 - 719468
  }

  /** The 0-based weekday, Sunday = 0, as `getDay()` reports it. */
  function Weekday(d: CivilDate): (w: int)
    ensures 0 <= w < 7
  {
    (DayNumber(d) + 4) % 7
  }

  /** The day before `d`, as `setDate(getDate() - 1)` normalises it. */
  function PrevDay(d: CivilDate): CivilDate {
    if d.day > 1 then Date(d.year, d.month, d.day - 1)
    else if d.month > 0 then Date(d.year, d.month - 1, DaysInMonth(d.year, d.month - 1))
    else Date(d.year - 1, 11, 31)
  }

  /** The number of leap years among the counted years steps by one exactly at a leap year. */
  lemma LeapCountStep(y: int)
    ensures (y / 4 - y / 100 + y / 400) - ((y - 1) / 4 - (y - 1) / 100 + (y - 1) / 400)
            == if IsLeapYear(y) then 1 else 0
  {
    assert y / 4 - (y - 1) / 4 == if y % 4 == 0 then 1 else 0;
    assert y / 100 - (y - 1) / 100 == if y % 100 == 0 then 1 else 0;
    assert y / 400 - (y - 1) / 400 == if y % 400 == 0 then 1 else 0;
    if y % 400 == 0 {
      assert y % 100 == 0 && y % 4 == 0;
    } else if y % 100 == 0 {
      assert y % 4 == 0;
    }
  }

  /** Stepping back one day lowers the day number by exactly one, across month and year ends. */
  lemma PrevDayNumber(d: CivilDate)
    ensures DayNumber(PrevDay(d)) == DayNumber(d) - 1
  {
    if d.day == 1 {
      if d.month == 2 {
        MarchFirstNumber(d);
      } else {
        MonthFirstNumber(d);
      }
    }
  }

  /** The days before each month of a year counted from March: 0, 31, 61, ... */
  lemma MonthOffsets(mp: int)
    requires 0 <= mp < 12
    ensures (153 * mp + 2) / 5 == [0, 31, 61, 92, 122, 153, 184, 214, 245, 275, 306, 337][mp]
  {
  }

  /** March 1 follows the last day of February, whose year counts one more leap day when it is a leap year. */
  lemma MarchFirstNumber(d: CivilDate)
    requires d.day == 1 && d.month == 2
    ensures DayNumber(PrevDay(d)) == DayNumber(d) - 1
  {
    LeapCountStep(d.year);
    MonthOffsets(11);
    MonthOffsets(0);
  }

  /** The first of any other month follows the last day of the month before it, in the same year counted from March. */
  lemma MonthFirstNumber(d: CivilDate)
    requires d.day == 1 && d.month != 2
    ensures DayNumber(PrevDay(d)) == DayNumber(d) - 1
  {
    var mp := if d.month >= 2 then d.month - 2 else d.month + 10;
    MonthOffsets(mp);
    MonthOffsets(mp - 1);
  }

  /** The weekday moves back by one, modulo a week. */
  lemma PrevDayWeekday(d: CivilDate)
    ensures Weekday(PrevDay(d)) == (Weekday(d) + 6) % 7
  {
    PrevDayNumber(d);
    var n := DayNumber(d) + 4;
    assert DayNumber(PrevDay(d)) + 4 == n - 1;
    ModWeekStep(n);
  }

  lemma ModWeekStep(n: int)
    ensures (n - 1) % 7 == (n % 7 + 6) % 7
  {
    var q, r := n / 7, n % 7;
    assert n == 7 * q + r;
    if r == 0 {
      assert n - 1 == 7 * (q - 1) + 6;
    } else {
      assert n - 1 == 7 * q + (r - 1);
    }
  }

  /** The date `i` days before `d`: `setDate(getDate() - i)`, one day back at a time. */
  function DaysBefore(d: CivilDate, i: nat): CivilDate
    decreases i
  {
    if i == 0 then d else DaysBefore(PrevDay(d), i - 1)
  }

  /** Going `i` days back lowers the day number by exactly `i`. */
  lemma {:induction false} DaysBeforeNumber(d: CivilDate, i: nat)
    ensures DayNumber(DaysBefore(d, i)) == DayNumber(d) - i
    decreases i
  {
    if i > 0 {
      DaysBeforeNumber(PrevDay(d), i - 1);
      PrevDayNumber(d);
    }
  }

  /** Different distances back give different dates. */
  lemma DaysBeforeInjective(d: CivilDate, i: nat, j: nat)
    requires DaysBefore(d, i) == DaysBefore(d, j)
    ensures i == j
  {
    DaysBeforeNumber(d, i);
    DaysBeforeNumber(d, j);
  }

  /** The platform's `Date` constructor reads a year argument of 0..99 as 1900..1999. */
  function ConstructorYear(y: int): int {
    if 0 <= y <= 99 then 1900 + y else y
  }

  /** The months elapsed since January of year 0. */
  function MonthIndex(d: Date): int {
    12 * d.year + d.month
  }

  /**
   * `new Date(year, month, 1)`: the first day of the month `month` counted
   * from January of the constructor's year, with any month number rolled
   * into the year.
   */
  function MonthStart(year: int, month: int): (d: CivilDate)
    ensures d.day == 1
    ensures MonthIndex(d) == 12 * ConstructorYear(year) + month
  {
    Date(ConstructorYear(year) + month / 12, month % 12, 1)
  }

  lemma EpochIsThursday()
    ensures DayNumber(Date(1970, 0, 1)) == 0 && Weekday(Date(1970, 0, 1)) == 4
  {
  }
}
