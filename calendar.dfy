/** Proleptic Gregorian civil dates and the bounds the dashboard asks the
    server for: `today`, `thisMonth` and `lastMonth`. Each bound is local
    midnight of a civil date; a local date is turned into epoch milliseconds
    with a fixed offset from UTC. */
module Calendar {
  import opened Common

  /** A civil date; `month` runs 1..12 (JavaScript's `getMonth()` is one less). */
  datatype Date = Date(year: int, month: int, day: int)

  predicate IsLeapYear(y: int) {
    y % 4 == 0 && (y % 100 != 0 || y % 400 == 0)
  }

  function DaysInMonth(y: int, m: int): int
    requires 1 <= m <= 12
  {
    if m == 2 then (if IsLeapYear(y) then 29 else 28)
    else if m == 4 || m == 6 || m == 9 || m == 11 then 30
    else 31
  }

  predicate ValidDate(d: Date) {
    1 <= d.month <= 12 && 1 <= d.day <= DaysInMonth(d.year, d.month)
  }

  function YearLength(y: int): int {
    if IsLeapYear(y) then 366 else 365
  }

  /** Days from 1 January 1970 to 1 January of `y` (negative before 1970). */
  function DaysBeforeYear(y: int): int
    decreases if y < 1970 then 1970 - y else y - 1970
  {
    if y == 1970 then 0
    else if y > 1970 then DaysBeforeYear(y - 1) + YearLength(y - 1)
    else DaysBeforeYear(y + 1) - YearLength(y)
  }

  /** Days from 1 January of `y` to the first of month `m`. */
  function DaysBeforeMonth(y: int, m: int): int
    requires 1 <= m <= 12
  {
    if m == 1 then 0 else DaysBeforeMonth(y, m - 1) + DaysInMonth(y, m - 1)
  }

  /** The number of days from 1 January 1970 to `d`. */
  function DayNumber(d: Date): int
    requires ValidDate(d)
  {
    DaysBeforeYear(d.year) + DaysBeforeMonth(d.year, d.month) + d.day - 1
  }

  lemma DaysBeforeYearStep(y: int)
    ensures DaysBeforeYear(y + 1) == DaysBeforeYear(y) + YearLength(y)
  {
  }

  lemma DaysBeforeMonthEnd(y: int)
    ensures DaysBeforeMonth(y, 12) + DaysInMonth(y, 12) == YearLength(y)
  {
    assert DaysBeforeMonth(y, 12) == DaysBeforeMonth(y, 11) + 30;
    assert DaysBeforeMonth(y, 11) == DaysBeforeMonth(y, 10) + 31;
    assert DaysBeforeMonth(y, 10) == DaysBeforeMonth(y, 9) + 30;
    assert DaysBeforeMonth(y, 9) == DaysBeforeMonth(y, 8) + 31;
    assert DaysBeforeMonth(y, 8) == DaysBeforeMonth(y, 7) + 31;
    assert DaysBeforeMonth(y, 7) == DaysBeforeMonth(y, 6) + 30;
    assert DaysBeforeMonth(y, 6) == DaysBeforeMonth(y, 5) + 31;
    assert DaysBeforeMonth(y, 5) == DaysBeforeMonth(y, 4) + 30;
    assert DaysBeforeMonth(y, 4) == DaysBeforeMonth(y, 3) + 31;
    assert DaysBeforeMonth(y, 3) == DaysBeforeMonth(y, 2) + DaysInMonth(y, 2);
    assert DaysBeforeMonth(y, 2) == 31;
  }

  /** The day after `d`: `date.setDate(date.getDate() + 1)`, which rolls over
      into the next month and the next year. */
  function NextDay(d: Date): Date
    requires ValidDate(d)
  {
    if d.day < DaysInMonth(d.year, d.month) then Date(d.year, d.month, d.day + 1)
    else if d.month < 12 then Date(d.year, d.month + 1, 1)
    else Date(d.year + 1, 1, 1)
  }

  /** `startOfMonth(d)`. */
  function StartOfMonth(d: Date): Date
  {
    Date(d.year, d.month, 1)
  }

  /** `new Date(d.getFullYear(), d.getMonth() + 1, 1)`: month 12 + 1 rolls
      into January of the next year. */
  function NextMonthStart(d: Date): Date
  {
    if d.month == 12 then Date(d.year + 1, 1, 1) else Date(d.year, d.month + 1, 1)
  }

  /** `startOfMonth(subMonths(d, 1))`: the first of the previous month. */
  function PrevMonthStart(d: Date): Date
  {
    if d.month == 1 then Date(d.year - 1, 12, 1) else Date(d.year, d.month - 1, 1)
  }

  /** The next day is a valid date, one day later. */
  lemma NextDayNumber(d: Date)
    requires ValidDate(d)
    ensures ValidDate(NextDay(d))
    ensures DayNumber(NextDay(d)) == DayNumber(d) + 1
  {
    if d.day == DaysInMonth(d.year, d.month) && d.month == 12 {
      DaysBeforeYearStep(d.year);
      DaysBeforeMonthEnd(d.year);
    }
  }

  /** A month spans exactly its number of days. */
  lemma MonthSpan(d: Date)
    requires ValidDate(d)
    ensures ValidDate(StartOfMonth(d)) && ValidDate(NextMonthStart(d))
    ensures DayNumber(NextMonthStart(d)) == DayNumber(StartOfMonth(d)) + DaysInMonth(d.year, d.month)
  {
    if d.month == 12 {
      DaysBeforeYearStep(d.year);
      DaysBeforeMonthEnd(d.year);
    }
  }

  /** The month after the previous month starts where this month starts. */
  lemma PrevMonthThenNext(d: Date)
    requires ValidDate(d)
    ensures ValidDate(PrevMonthStart(d))
    ensures NextMonthStart(PrevMonthStart(d)) == StartOfMonth(d)
  {
  }

  /** Epoch milliseconds of local midnight at the start of `d`, for a local
      time `utcOffsetMs` ahead of UTC. */
  function MidnightMs(d: Date, utcOffsetMs: int): int
    requires ValidDate(d)
  {
    DayNumber(d) * 86400000 - utcOffsetMs
  }

  datatype TimeRange = Today | ThisMonth | LastMonth

  /** The window `[start, end)` in epoch milliseconds. */
  datatype Window = Window(start: int, end: int)

  /** `getTimeRangeParams(range)` on the local date `now`. */
  function TimeRangeParams(range: TimeRange, now: Date, utcOffsetMs: int): Window
    requires ValidDate(now)
  {
    NextDayNumber(now);
    MonthSpan(now);
    PrevMonthThenNext(now);
    match range
    case Today => Window(MidnightMs(now, utcOffsetMs), MidnightMs(NextDay(now), utcOffsetMs))
    case ThisMonth => Window(MidnightMs(StartOfMonth(now), utcOffsetMs), MidnightMs(NextMonthStart(now), utcOffsetMs))
    case LastMonth => Window(MidnightMs(PrevMonthStart(now), utcOffsetMs), MidnightMs(StartOfMonth(now), utcOffsetMs))
  }

  lemma MidnightDifference(a: Date, b: Date, days: int, utcOffsetMs: int)
    requires ValidDate(a) && ValidDate(b) && DayNumber(b) == DayNumber(a) + days
    ensures MidnightMs(b, utcOffsetMs) - MidnightMs(a, utcOffsetMs) == days * 86400000
  {
  }

  /** `today` spans one day, starting at local midnight of `now`. */
  lemma TodaySpan(now: Date, utcOffsetMs: int)
    requires ValidDate(now)
    ensures TimeRangeParams(Today, now, utcOffsetMs).start == MidnightMs(now, utcOffsetMs)
    ensures TimeRangeParams(Today, now, utcOffsetMs).end - TimeRangeParams(Today, now, utcOffsetMs).start == 86400000
  {
    NextDayNumber(now);
    MidnightDifference(now, NextDay(now), 1, utcOffsetMs);
  }

  /** `thisMonth` runs from the first of this month to the first of the next,
      the length of this month. */
  lemma ThisMonthSpan(now: Date, utcOffsetMs: int)
    requires ValidDate(now)
    ensures TimeRangeParams(ThisMonth, now, utcOffsetMs).start == MidnightMs(Date(now.year, now.month, 1), utcOffsetMs)
    ensures TimeRangeParams(ThisMonth, now, utcOffsetMs).end ==
      MidnightMs(if now.month == 12 then Date(now.year + 1, 1, 1) else Date(now.year, now.month + 1, 1), utcOffsetMs)
    ensures TimeRangeParams(ThisMonth, now, utcOffsetMs).end - TimeRangeParams(ThisMonth, now, utcOffsetMs).start ==
      DaysInMonth(now.year, now.month) * 86400000
  {
    MonthSpan(now);
    MidnightDifference(StartOfMonth(now), NextMonthStart(now), DaysInMonth(now.year, now.month), utcOffsetMs);
  }

  /** `lastMonth` covers the whole previous month and ends exactly where
      `thisMonth` starts. */
  lemma LastMonthSpan(now: Date, utcOffsetMs: int)
    requires ValidDate(now)
    ensures TimeRangeParams(LastMonth, now, utcOffsetMs).end == TimeRangeParams(ThisMonth, now, utcOffsetMs).start
    ensures TimeRangeParams(LastMonth, now, utcOffsetMs).start ==
      MidnightMs(if now.month == 1 then Date(now.year - 1, 12, 1) else Date(now.year, now.month - 1, 1), utcOffsetMs)
    ensures TimeRangeParams(LastMonth, now, utcOffsetMs).end - TimeRangeParams(LastMonth, now, utcOffsetMs).start ==
      DaysInMonth(PrevMonthStart(now).year, PrevMonthStart(now).month) * 86400000
  {
    PrevMonthThenNext(now);
    MonthSpan(PrevMonthStart(now));
    MidnightDifference(PrevMonthStart(now), StartOfMonth(now),
                       DaysInMonth(PrevMonthStart(now).year, PrevMonthStart(now).month), utcOffsetMs);
  }

  /** Every range is a non-empty window, and `now`'s own midnight lies inside
      `today` and `thisMonth`. */
  lemma RangeNonEmpty(range: TimeRange, now: Date, utcOffsetMs: int)
    requires ValidDate(now)
    ensures TimeRangeParams(range, now, utcOffsetMs).start < TimeRangeParams(range, now, utcOffsetMs).end
    ensures range != LastMonth ==>
      TimeRangeParams(range, now, utcOffsetMs).start <= MidnightMs(now, utcOffsetMs) < TimeRangeParams(range, now, utcOffsetMs).end
  {
    match range
    case Today => TodaySpan(now, utcOffsetMs);
    case ThisMonth =>
      ThisMonthSpan(now, utcOffsetMs);
      MidnightDifference(StartOfMonth(now), now, now.day - 1, utcOffsetMs);
      MulAtLeast(DaysInMonth(now.year, now.month) - now.day + 1, 86400000);
    case LastMonth =>
      LastMonthSpan(now, utcOffsetMs);
      MulAtLeast(DaysInMonth(PrevMonthStart(now).year, PrevMonthStart(now).month), 86400000);
  }

  /** With a whole-hour UTC offset every bound is on an hour boundary. */
  lemma BoundsHourAligned(range: TimeRange, now: Date, utcOffsetMs: int)
    requires ValidDate(now) && utcOffsetMs % 3600000 == 0
    ensures TimeRangeParams(range, now, utcOffsetMs).start % 3600000 == 0
    ensures TimeRangeParams(range, now, utcOffsetMs).end % 3600000 == 0
  {
    NextDayNumber(now);
    MonthSpan(now);
    PrevMonthThenNext(now);
    match range
    case Today =>
      MidnightAligned(now, utcOffsetMs);
      MidnightAligned(NextDay(now), utcOffsetMs);
    case ThisMonth =>
      MidnightAligned(StartOfMonth(now), utcOffsetMs);
      MidnightAligned(NextMonthStart(now), utcOffsetMs);
    case LastMonth =>
      MidnightAligned(PrevMonthStart(now), utcOffsetMs);
      MidnightAligned(StartOfMonth(now), utcOffsetMs);
  }

  lemma MidnightAligned(d: Date, utcOffsetMs: int)
    requires ValidDate(d) && utcOffsetMs % 3600000 == 0
    ensures MidnightMs(d, utcOffsetMs) % 3600000 == 0
  {
    var r := utcOffsetMs / 3600000;
    assert utcOffsetMs == r * 3600000;
    DivUnique(MidnightMs(d, utcOffsetMs), 3600000, DayNumber(d) * 24 - r, 0);
  }
}
