/** The date helpers of src/utils/dateUtils.ts, with "now" passed in as `today`. */
module DateUtils {
  import opened Wrappers
  import opened Decimal
  import opened Calendar

  /** `YYYY-MM-DD` from the local calendar fields, month 1-based, month and day zero-padded. */
  function FormatDate(d: CivilDate): string {
    IntStr(d.year) + "-" + Pad2(d.month + 1) + "-" + Pad2(d.day)
  }

  /** `y-p-q` with two-character `p` and `q` determines its three parts. */
  lemma {:induction false} DashedPartsInjective(y1: string, p1: string, q1: string, y2: string, p2: string, q2: string)
    requires |p1| == |q1| == |p2| == |q2| == 2
    requires y1 + "-" + p1 + "-" + q1 == y2 + "-" + p2 + "-" + q2
    ensures y1 == y2 && p1 == p2 && q1 == q2
  {
    var s := y1 + "-" + p1 + "-" + q1;
    var n := |y1|;
    assert |y2| == n;
    assert s[..n] == y1;
    assert (y2 + "-" + p2 + "-" + q2)[..n] == y2;
    assert s[n + 1..n + 3] == p1;
    assert (y2 + "-" + p2 + "-" + q2)[n + 1..n + 3] == p2;
    assert s[n + 4..] == q1;
    assert (y2 + "-" + p2 + "-" + q2)[n + 4..] == q2;
  }

  /** Distinct dates never share a rendering, whatever the year. */
  lemma FormatDateInjective(a: CivilDate, b: CivilDate)
    requires FormatDate(a) == FormatDate(b)
    ensures a == b
  {
    Pad2Digits(a.month + 1);
    Pad2Digits(a.day);
    Pad2Digits(b.month + 1);
    Pad2Digits(b.day);
    DashedPartsInjective(IntStr(a.year), Pad2(a.month + 1), Pad2(a.day),
                         IntStr(b.year), Pad2(b.month + 1), Pad2(b.day));
    IntStrInjective(a.year, b.year);
    Pad2Injective(a.month + 1, b.month + 1);
    Pad2Injective(a.day, b.day);
  }

  /** With a four-digit year the rendering is `YYYY-MM-DD`: ten characters, digits except the two dashes. */
  lemma FormatDateShape(d: CivilDate)
    requires 1000 <= d.year <= 9999
    ensures var s := FormatDate(d);
      && |s| == 10
      && s[4] == '-' && s[7] == '-'
      && (forall i :: 0 <= i < 10 && i != 4 && i != 7 ==> IsDigit(s[i]))
      && s[..4] == NatStr(d.year)
      && s[5..7] == [Digit((d.month + 1) / 10), Digit((d.month + 1) % 10)]
      && s[8..] == [Digit(d.day / 10), Digit(d.day % 10)]
  {
    FourDigits(d.year);
    NatStrDigits(d.year);
    Pad2Digits(d.month + 1);
    Pad2Digits(d.day);
    DashedLayout(IntStr(d.year), Pad2(d.month + 1), Pad2(d.day));
  }

  lemma DashedLayout(y: string, p: string, q: string)
    requires |y| == 4 && |p| == 2 && |q| == 2
    requires forall i :: 0 <= i < 4 ==> IsDigit(y[i])
    requires IsDigit(p[0]) && IsDigit(p[1]) && IsDigit(q[0]) && IsDigit(q[1])
    ensures var s := y + "-" + p + "-" + q;
      && |s| == 10 && s[4] == '-' && s[7] == '-'
      && (forall i :: 0 <= i < 10 && i != 4 && i != 7 ==> IsDigit(s[i]))
      && s[..4] == y && s[5..7] == p && s[8..] == q
  {
  }

  /** `isToday`: equality with the rendering of today. */
  predicate IsToday(s: string, today: CivilDate) {
    s == FormatDate(today)
  }

  /** A formatted date is "today" exactly when it is today's date. */
  lemma IsTodayExactly(d: CivilDate, today: CivilDate)
    ensures IsToday(FormatDate(d), today) <==> d == today
  {
    if IsToday(FormatDate(d), today) {
      FormatDateInjective(d, today);
    }
  }

  function Max(a: int, b: int): int {
    if a >= b then a else b
  }

  /** `getLastNDays`: the last `n` dates, oldest first, ending today. */
  method GetLastNDays(n: int, today: CivilDate) returns (dates: seq<string>)
    ensures |dates| == Max(n, 0)
    ensures forall k :: 0 <= k < |dates| ==> dates[k] == FormatDate(DaysBefore(today, |dates| - 1 - k))
    ensures |dates| > 0 ==> dates[|dates| - 1] == FormatDate(today)
  {
    dates := [];
    var i := n - 1;
    while i >= 0
      invariant n <= 0 ==> i == n - 1 && dates == []
      invariant n > 0 ==> -1 <= i <= n - 1 && |dates| == n - 1 - i
      invariant forall k :: 0 <= k < |dates| ==> dates[k] == FormatDate(DaysBefore(today, n - 1 - k))
    {
      var date := DaysBefore(today, i);
      dates := dates + [FormatDate(date)];
      i := i - 1;
    }
  }

  /** Consecutive entries of the window are consecutive days. */
  lemma LastNDaysConsecutive(today: CivilDate, m: nat, k: nat)
    requires 0 < k < m
    ensures DayNumber(DaysBefore(today, m - 1 - k)) == DayNumber(DaysBefore(today, m - k)) + 1
  {
    DaysBeforeNumber(today, m - 1 - k);
    DaysBeforeNumber(today, m - k);
  }

  // ---------------------------------------------------------------- month grid

  /** One row of the month grid: seven day numbers and seven date strings, `None` for padding. */
  datatype CalendarWeek = CalendarWeek(days: seq<Option<int>>, dates: seq<Option<string>>)

  /** `k` empty slots. */
  function Nones<T>(k: nat): (s: seq<Option<T>>)
    ensures |s| == k && forall i :: 0 <= i < k ==> s[i] == None
  {
    seq(k, _ => None)
  }

  /** The day numbers 1..n, each in a slot. */
  function DayRun(n: nat): (s: seq<Option<int>>)
    ensures |s| == n && forall i :: 0 <= i < n ==> s[i] == Some(i + 1)
  {
    seq(n, i => Some(i + 1))
  }

  /** The day slots of all rows, read row by row. */
  function FlatDays(weeks: seq<CalendarWeek>): seq<Option<int>> {
    if weeks == [] then [] else FlatDays(weeks[..|weeks| - 1]) + weeks[|weeks| - 1].days
  }

  /** Monday-first column of the first of the month: `getDay() - 1`, with Sunday's -1 moved to 6. */
  function StartDayIndex(first: CivilDate): (k: int)
    ensures k == (Weekday(first) + 6) % 7
  {
    var k := Weekday(first) - 1;
    if k < 0 then 6 else k
  }

  /** The date string that goes with a day slot: none for padding, the formatted date for day `n`. */
  function DateOf(day: Option<int>, y: int, m: int): Option<string>
    requires 0 <= m < 12
  {
    match day
    case None => None
    case Some(n) => if 1 <= n <= DaysInMonth(y, m) then Some(FormatDate(Date(y, m, n))) else None
  }

  /** The `dates` slots that go with the `days` slots, slot by slot. */
  function DatesFor(days: seq<Option<int>>, y: int, m: int): (r: seq<Option<string>>)
    requires 0 <= m < 12
    ensures |r| == |days|
  {
    if days == [] then [] else DatesFor(days[..|days| - 1], y, m) + [DateOf(days[|days| - 1], y, m)]
  }

  lemma {:induction false} DatesForAt(days: seq<Option<int>>, y: int, m: int, k: nat)
    requires 0 <= m < 12 && k < |days|
    ensures DatesFor(days, y, m)[k] == DateOf(days[k], y, m)
  {
    if k < |days| - 1 {
      DatesForAt(days[..|days| - 1], y, m, k);
    }
  }

  lemma DatesForAppend(days: seq<Option<int>>, d: Option<int>, y: int, m: int)
    requires 0 <= m < 12
    ensures DatesFor(days + [d], y, m) == DatesFor(days, y, m) + [DateOf(d, y, m)]
  {
    assert (days + [d])[..|days|] == days;
  }

  predicate RowOk(w: CalendarWeek, y: int, m: int)
    requires 0 <= m < 12
  {
    w.dates == DatesFor(w.days, y, m)
  }

  /**
   * The grid of month `m` of year `y` whose first day sits in column `lead`:
   * rows of exactly seven day slots, each with its date slots; read row by
   * row, `lead` empty slots, the days 1..DaysInMonth in order, then empty
   * slots to the end of the row; as few rows as hold them.
   */
  ghost predicate IsMonthGrid(weeks: seq<CalendarWeek>, y: int, m: int, lead: nat)
    requires 0 <= m < 12
  {
    var dim := DaysInMonth(y, m);
    && (forall r :: 0 <= r < |weeks| ==> |weeks[r].days| == 7 && RowOk(weeks[r], y, m))
    && |weeks| == (lead + dim + 6) / 7
    && FlatDays(weeks) == Nones(lead) + DayRun(dim) + Nones(7 * |weeks| - lead - dim)
  }

  lemma FlatDaysAppend(weeks: seq<CalendarWeek>, w: CalendarWeek)
    ensures FlatDays(weeks + [w]) == FlatDays(weeks) + w.days
  {
    assert (weeks + [w])[..|weeks|] == weeks;
  }

  lemma RowAppend(w: CalendarWeek, day: Option<int>, y: int, m: int)
    requires 0 <= m < 12 && RowOk(w, y, m)
    ensures RowOk(CalendarWeek(w.days + [day], w.dates + [DateOf(day, y, m)]), y, m)
  {
    DatesForAppend(w.days, day, y, m);
  }

  lemma RowCount(rows: nat, rest: nat, total: nat)
    requires 7 * rows + rest == total && rest < 7
    ensures rest > 0 ==> rows + 1 == (total + 6) / 7
    ensures rest == 0 ==> rows == (total + 6) / 7
  {
  }

  /**
   * The state of the grid while the days are placed: full rows of seven good
   * slots, a good row being filled, and, read row by row, `lead` empty slots
   * followed by days 1..placed.
   */
  ghost predicate Filling(weeks: seq<CalendarWeek>, current: CalendarWeek, y: int, m: int, lead: nat, placed: nat)
  {
    && 0 <= m < 12
    && (forall r :: 0 <= r < |weeks| ==> |weeks[r].days| == 7 && RowOk(weeks[r], y, m))
    && |current.days| <= 7 && RowOk(current, y, m)
    && |FlatDays(weeks)| == 7 * |weeks|
    && FlatDays(weeks) + current.days == Nones(lead) + DayRun(placed)
  }

  lemma DayRunSnoc(n: nat)
    ensures DayRun(n) + [Some(n + 1)] == DayRun(n + 1)
  {
    assert DayRun(n + 1)[..n] == DayRun(n);
    assert DayRun(n + 1) == DayRun(n + 1)[..n] + [DayRun(n + 1)[n]];
  }

  lemma SnocAssoc<T>(a: seq<T>, b: seq<T>, x: T)
    ensures a + (b + [x]) == (a + b) + [x]
  {
  }

  lemma PlaceDay(weeks: seq<CalendarWeek>, current: CalendarWeek, y: int, m: int, lead: nat, day: nat)
    requires 1 <= day && Filling(weeks, current, y, m, lead, day - 1) && |current.days| < 7
    requires day <= DaysInMonth(y, m)
    ensures Filling(weeks, CalendarWeek(current.days + [Some(day)], current.dates + [Some(FormatDate(Date(y, m, day)))]), y, m, lead, day)
  {
    RowAppend(current, Some(day), y, m);
    DayRunSnoc(day - 1);
    SnocAssoc(FlatDays(weeks), current.days, Some(day));
  }

  lemma CloseRow(weeks: seq<CalendarWeek>, current: CalendarWeek, y: int, m: int, lead: nat, placed: nat)
    requires Filling(weeks, current, y, m, lead, placed) && |current.days| == 7
    ensures Filling(weeks + [current], CalendarWeek([], []), y, m, lead, placed)
  {
    FlatDaysAppend(weeks, current);
  }

  /** All days placed and the last row full: the grid is complete as it stands. */
  lemma FinishExact(weeks: seq<CalendarWeek>, y: int, m: int, lead: nat)
    requires 0 <= m < 12 && Filling(weeks, CalendarWeek([], []), y, m, lead, DaysInMonth(y, m))
    ensures IsMonthGrid(weeks, y, m, lead)
  {
    var dim := DaysInMonth(y, m);
    RowCount(|weeks|, 0, lead + dim);
    assert Nones<int>(7 * |weeks| - lead - dim) == [];
  }

  /** All days placed, the last row padded with empty slots: appending it completes the grid. */
  lemma FinishPadded(weeks: seq<CalendarWeek>, partial: CalendarWeek, last: CalendarWeek, y: int, m: int, lead: nat)
    requires 0 <= m < 12
    requires Filling(weeks, partial, y, m, lead, DaysInMonth(y, m))
    requires 0 < |partial.days| < 7 && RowOk(last, y, m) && last.days == partial.days + Nones(7 - |partial.days|)
    ensures IsMonthGrid(weeks + [last], y, m, lead)
  {
    var dim := DaysInMonth(y, m);
    FlatDaysAppend(weeks, last);
    RowCount(|weeks|, |partial.days|, lead + dim);
  }

  /** `getMonthCalendar`: the Monday-first grid of the month `new Date(year, month, 1)` falls in. */
  method GetMonthCalendar(year: int, month: int) returns (weeks: seq<CalendarWeek>)
    ensures var first := MonthStart(year, month);
      IsMonthGrid(weeks, first.year, first.month, StartDayIndex(first))
  {
    var first := MonthStart(year, month);
    var startDayIndex := StartDayIndex(first);
    weeks := LayOutMonth(first.year, first.month, startDayIndex);
  }

  /**
   * The three loops of `getMonthCalendar` once the month and the column of
   * its first day are known: leading padding, the days, trailing padding.
   */
  method LayOutMonth(y: int, m: int, startDayIndex: nat) returns (weeks: seq<CalendarWeek>)
    requires 0 <= m < 12 && startDayIndex < 7
    ensures IsMonthGrid(weeks, y, m, startDayIndex)
  {
    var daysInMonth := DaysInMonth(y, m);
    ghost var lead := startDayIndex;
    weeks := [];
    var current := PadWeek(CalendarWeek([], []), y, m, startDayIndex);

    var day := 1;
    assert Filling(weeks, current, y, m, lead, 0);
    while day <= daysInMonth
      invariant 1 <= day <= daysInMonth + 1
      invariant Filling(weeks, current, y, m, lead, day - 1) && |current.days| < 7
    {
      weeks, current := PlaceNext(weeks, current, y, m, lead, day);
      day := day + 1;
    }

    if |current.days| > 0 {
      ghost var partial := current;
      current := PadWeek(current, y, m, 7);
      FinishPadded(weeks, partial, current, y, m, lead);
      weeks := weeks + [current];
    } else {
      FinishExact(weeks, y, m, lead);
    }
  }

  /** One turn of the day loop: the day goes into the current row, and a full row is closed. */
  method PlaceNext(weeks: seq<CalendarWeek>, current: CalendarWeek, y: int, m: int, ghost lead: nat, day: nat)
    returns (weeks': seq<CalendarWeek>, current': CalendarWeek)
    requires 0 <= m < 12 && 1 <= day <= DaysInMonth(y, m)
    requires Filling(weeks, current, y, m, lead, day - 1) && |current.days| < 7
    ensures Filling(weeks', current', y, m, lead, day) && |current'.days| < 7
  {
    var date := Date(y, m, day);
    PlaceDay(weeks, current, y, m, lead, day);
    weeks', current' := weeks, CalendarWeek(current.days + [Some(day)], current.dates + [Some(FormatDate(date))]);
    if |current'.days| == 7 {
      CloseRow(weeks', current', y, m, lead, day);
      weeks', current' := weeks' + [current'], CalendarWeek([], []);
    }
  }

  /** Padding of a row: empty slots until it holds `size` (the leading and the trailing loop). */
  method PadWeek(w: CalendarWeek, y: int, m: int, size: nat) returns (r: CalendarWeek)
    requires 0 <= m < 12 && |w.days| <= size && RowOk(w, y, m)
    ensures RowOk(r, y, m)
    ensures r.days == w.days + Nones(size - |w.days|)
  {
    r := w;
    while |r.days| < size
      invariant |w.days| <= |r.days| <= size && RowOk(r, y, m)
      invariant r.days == w.days + Nones(|r.days| - |w.days|)
    {
      RowAppend(r, None, y, m);
      assert Nones<int>(|r.days| - |w.days|) + [None] == Nones(|r.days| + 1 - |w.days|);
      r := CalendarWeek(r.days + [None], r.dates + [None]);
    }
  }

  /** Slot `k` of row `r` is slot `7 * r + k` when the rows are read one after another. */
  lemma {:induction false} FlatDaysAt(weeks: seq<CalendarWeek>, r: nat, k: nat)
    requires r < |weeks| && k < 7
    requires forall i :: 0 <= i < |weeks| ==> |weeks[i].days| == 7
    ensures |FlatDays(weeks)| == 7 * |weeks| && FlatDays(weeks)[7 * r + k] == weeks[r].days[k]
  {
    var init := weeks[..|weeks| - 1];
    if r < |weeks| - 1 {
      FlatDaysAt(init, r, k);
    } else if |weeks| > 1 {
      FlatDaysAt(init, 0, 0);
    }
  }

  /**
   * In every row of a month grid a day slot is empty exactly when its date
   * slot is; a filled slot holds a day of the month and that day's date.
   */
  lemma GridSlots(weeks: seq<CalendarWeek>, y: int, m: int, lead: nat, r: nat, k: nat)
    requires 0 <= m < 12 && lead < 7 && IsMonthGrid(weeks, y, m, lead)
    requires r < |weeks| && k < 7
    ensures |weeks[r].days| == 7 && |weeks[r].dates| == 7
    ensures weeks[r].days[k].None? <==> weeks[r].dates[k].None?
    ensures weeks[r].days[k].Some? ==>
      var n := weeks[r].days[k].value;
      1 <= n <= DaysInMonth(y, m) && weeks[r].dates[k] == Some(FormatDate(Date(y, m, n)))
  {
    var dim := DaysInMonth(y, m);
    FlatDaysAt(weeks, r, k);
    DatesForAt(weeks[r].days, y, m, k);
    var i := 7 * r + k;
    var pre := Nones<int>(lead) + DayRun(dim);
    if i < lead {
      assert FlatDays(weeks)[i] == pre[i] == None;
    } else if i < lead + dim {
      assert FlatDays(weeks)[i] == pre[i] == DayRun(dim)[i - lead];
    } else {
      assert FlatDays(weeks)[i] == Nones<int>(7 * |weeks| - lead - dim)[i - lead - dim];
    }
  }

  /** January 2025 starts on a Wednesday: two empty slots, then days 1-5, and five rows in all. */
  lemma January2025(weeks: seq<CalendarWeek>)
    requires IsMonthGrid(weeks, 2025, 0, StartDayIndex(Date(2025, 0, 1)))
    ensures |weeks| == 5
    ensures weeks[0].days == [None, None, Some(1), Some(2), Some(3), Some(4), Some(5)]
  {
    assert Weekday(Date(2025, 0, 1)) == 3;
    var f := FlatDays(weeks);
    forall k | 0 <= k < 7
      ensures weeks[0].days[k] == f[k]
    {
      FlatDaysAt(weeks, 0, k);
    }
    assert f[..7] == [None, None, Some(1), Some(2), Some(3), Some(4), Some(5)];
  }

  // ---------------------------------------------------------------- month names

  const MonthNames: seq<string> := [
    "January", "February", "March", "April", "May", "June",
    "July", "August", "September", "October", "November", "December"]

  const ShortMonthNames: seq<string> := [
    "Jan", "Feb", "Mar", "Apr", "May", "Jun", "Jul", "Aug", "Sep", "Oct", "Nov", "Dec"]

  /** `getMonthName`: the table entry, and "January" for any index outside the table. */
  function GetMonthName(month: int): (r: string)
    ensures 0 <= month < 12 ==> r == MonthNames[month]
    ensures !(0 <= month < 12) ==> r == "January"
  {
    if 0 <= month < |MonthNames| then MonthNames[month] else "January"
  }

  /** `getShortMonthName`: the table entry, and "Jan" for any index outside the table. */
  function GetShortMonthName(month: int): (r: string)
    ensures 0 <= month < 12 ==> r == ShortMonthNames[month]
    ensures !(0 <= month < 12) ==> r == "Jan"
  {
    if 0 <= month < |ShortMonthNames| then ShortMonthNames[month] else "Jan"
  }


  // ---------------------------------------------------------------- month windows

  datatype MonthYear = MonthYear(month: int, year: int, shortLabel: string)

  /** The entry for `new Date(today.getFullYear(), today.getMonth() - i, 1)`. */
  function MonthsAgo(today: CivilDate, i: int): MonthYear {
    var d := MonthStart(today.year, today.month - i);
    MonthYear(d.month, d.year, GetShortMonthName(d.month))
  }

  /** `getLastNMonths`: the last `n` months, oldest first. */
  method GetLastNMonths(n: int, today: CivilDate) returns (months: seq<MonthYear>)
    ensures |months| == Max(n, 0)
    ensures forall k :: 0 <= k < |months| ==> months[k] == MonthsAgo(today, |months| - 1 - k)
  {
    months := [];
    var i := n - 1;
    while i >= 0
      invariant n <= 0 ==> i == n - 1 && months == []
      invariant n > 0 ==> -1 <= i <= n - 1 && |months| == n - 1 - i
      invariant forall k :: 0 <= k < |months| ==> months[k] == MonthsAgo(today, n - 1 - k)
    {
      months := months + [MonthsAgo(today, i)];
      i := i - 1;
    }
  }

  /** `getLast12Months`; the source repeats the loop of `getLastNMonths` with `n` fixed at 12. */
  method GetLast12Months(today: CivilDate) returns (months: seq<MonthYear>)
    ensures |months| == 12
    ensures forall k :: 0 <= k < 12 ==> months[k] == MonthsAgo(today, 11 - k)
  {
    months := GetLastNMonths(12, today);
  }

  /** Every entry names a month 0..11 and carries that month's short label. */
  lemma MonthsAgoWellFormed(today: CivilDate, i: int)
    ensures var e := MonthsAgo(today, i);
      0 <= e.month < 12 && e.shortLabel == GetShortMonthName(e.month) && e.shortLabel == ShortMonthNames[e.month]
  {
  }

  /** Each month is one after the entry before it, rolling December over into January of the next year. */
  lemma MonthsAgoStep(today: CivilDate, i: int)
    ensures var older, newer := MonthsAgo(today, i + 1), MonthsAgo(today, i);
      if older.month == 11 then newer.month == 0 && newer.year == older.year + 1
      else newer.month == older.month + 1 && newer.year == older.year
  {
    var a, b := MonthStart(today.year, today.month - i - 1), MonthStart(today.year, today.month - i);
    assert MonthIndex(b) == MonthIndex(a) + 1;
  }

  /** The newest entry is the current month (the constructor's 1900 offset aside). */
  lemma MonthsAgoZero(today: CivilDate)
    requires !(0 <= today.year <= 99)
    ensures MonthsAgo(today, 0).month == today.month && MonthsAgo(today, 0).year == today.year
  {
  }
}
