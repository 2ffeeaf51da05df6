/** Proleptic Gregorian dates and the week-date rules of ISO 8601:2004,
    section 4.1.4 (weeks begin on Monday; week 01 of a year is the week that
    holds the year's first Thursday, equivalently 4 January).  pandas'
    `Series.dt.isocalendar()` follows these rules. */
module Calendar {

  datatype Date = Date(year: int, month: int, day: int)
  {
    predicate Valid() {
      1 <= month <= 12 && 1 <= day <= DaysInMonth(year, month)
    }
  }

  /** A date that exists in the calendar. */
  type CalendarDate = d: Date | d.Valid() witness Date(1970, 1, 1)

  /** A parsed `start_date_local`: the athlete's wall-clock start time. */
  datatype LocalDateTime = LocalDateTime(date: CalendarDate, hour: int, minute: int, second: int)

  /** The week-numbering year and the week of that year (1 to 53). */
  datatype IsoWeekDate = IsoWeekDate(year: int, week: int)

  predicate IsLeapYear(y: int) {
    y % 4 == 0 && (y % 100 != 0 || y % 400 == 0)
  }

  function DaysInYear(y: int): int {
    if IsLeapYear(y) then 366 else 365
  }

  function DaysInMonth(y: int, m: int): int {
    if m == 2 then (if IsLeapYear(y) then 29 else 28)
    else if m == 4 || m == 6 || m == 9 || m == 11 then 30
    else 31
  }

  /** Days of the year that precede the first day of month `m`. */
  function DaysBeforeMonth(y: int, m: int): (r: int)
    requires 1 <= m <= 12
    ensures 0 <= r && r + DaysInMonth(y, m) <= DaysInYear(y)
  {
    var leap := if m > 2 && IsLeapYear(y) then 1 else 0;
    leap +
    if m == 1 then 0 else if m == 2 then 31 else if m == 3 then 59
    else if m == 4 then 90 else if m == 5 then 120 else if m == 6 then 151
    else if m == 7 then 181 else if m == 8 then 212 else if m == 9 then 243
    else if m == 10 then 273 else if m == 11 then 304 else 334
  }

  /** The ordinal date: 1 for 1 January. */
  function DayOfYear(d: CalendarDate): (r: int)
    ensures 1 <= r <= DaysInYear(d.year)
  {
    DaysBeforeMonth(d.year, d.month) + d.day
  }

  /** Days from 0001-01-01 (a Monday) to 1 January of year `y`. */
  function DaysBeforeYear(y: int): int {
    365 * (y - 1) + (y - 1) / 4 - (y - 1) / 100 + (y - 1) / 400
  }

  /** Days elapsed since 0001-01-01, so that day 0 is a Monday. */
  function DayNumber(d: CalendarDate): int {
    DaysBeforeYear(d.year) + DayOfYear(d) - 1
  }

  /** ISO day of the week: 1 for Monday up to 7 for Sunday. */
  function IsoWeekday(d: CalendarDate): (r: int)
    ensures 1 <= r <= 7
  {
    DayNumber(d) % 7 + 1
  }

  /** The Monday-to-Sunday week, counted from the week of 0001-01-01, that
      holds `d`. */
  function WeekIndex(d: CalendarDate): int {
    DayNumber(d) / 7
  }

  /** The absolute week (as counted by WeekIndex) that holds 4 January of
      year `y`, and so the year's first Thursday: ISO week 1 of `y`. */
  function FirstWeek(y: int): int {
    (DaysBeforeYear(y) + 3) / 7
  }

  /** Number of ISO weeks in the week-numbering year `y`. */
  function WeeksInYear(y: int): int {
    FirstWeek(y + 1) - FirstWeek(y)
  }

  /** The ISO week date of `d`, by the ordinal-date algorithm: week
      (ordinal - weekday + 10) / 7, folding week 0 into the last week of the
      previous year and a week past the year's last into week 1 of the next. */
  function IsoCalendar(d: CalendarDate): IsoWeekDate {
    var w := (DayOfYear(d) - IsoWeekday(d) + 10) / 7;
    if w < 1 then IsoWeekDate(d.year - 1, WeeksInYear(d.year - 1))
    else if w > WeeksInYear(d.year) then IsoWeekDate(d.year + 1, 1)
    else IsoWeekDate(d.year, w)
  }

  /** Chronological order of week dates: by year, then by week. */
  predicate IsoBefore(a: IsoWeekDate, b: IsoWeekDate) {
    a.year < b.year || (a.year == b.year && a.week < b.week)
  }

  // ---------------------------------------------------------------------
  // Day counting

  lemma LeapYearLength(y: int)
    ensures DaysBeforeYear(y + 1) == DaysBeforeYear(y) + DaysInYear(y)
  {
    StepDiv(y - 1);
    MultipleOf100(y);
  }

  /** How the quotients by 4, 100 and 400 grow from `x` to `x + 1`. */
  lemma StepDiv(x: int)
    ensures (x + 1) / 4 - x / 4 == if (x + 1) % 4 == 0 then 1 else 0
    ensures (x + 1) / 100 - x / 100 == if (x + 1) % 100 == 0 then 1 else 0
    ensures (x + 1) / 400 - x / 400 == if (x + 1) % 400 == 0 then 1 else 0
  {
  }

  lemma MultipleOf100(y: int)
    ensures y % 100 == 0 ==> y % 4 == 0
    ensures y % 400 == 0 ==> y % 100 == 0
  {
    if y % 100 == 0 {
      var j := y / 100 * 25;
      assert y == 4 * j;
    }
    if y % 400 == 0 {
      var j := y / 400 * 4;
      assert y == 100 * j;
    }
  }

  /** Every week-numbering year has 52 or 53 weeks. */
  lemma FirstWeekStep(y: int)
    ensures 52 <= WeeksInYear(y) <= 53
  {
    LeapYearLength(y);
  }

  lemma {:induction false} FirstWeekMonotone(y1: int, y2: int)
    requires y1 < y2
    ensures FirstWeek(y1 + 1) <= FirstWeek(y2)
    ensures FirstWeek(y1) < FirstWeek(y2)
    decreases y2 - y1
  {
    FirstWeekStep(y1);
    if y1 + 1 < y2 {
      FirstWeekMonotone(y1 + 1, y2);
    }
  }

  // ---------------------------------------------------------------------
  // The ISO week date as a Monday-to-Sunday week

  /** The arithmetic behind IsoCalendarIsWeekOfYear, over the day numbers of
      1 January of the years y - 1 to y + 2 (`prev`, `start`, `next`,
      `after`) and the ordinal `doy` of a date of year y. */
  lemma WeekOfYearArithmetic(prev: int, start: int, next: int, after: int, doy: int)
    requires 365 <= start - prev && 365 <= next - start && 365 <= after - next
    requires 1 <= doy <= next - start
    ensures var n := start + doy - 1;
            var w := (doy - (n % 7 + 1) + 10) / 7;
            && w == n / 7 - (start + 3) / 7 + 1
            && (w < 1 ==> n / 7 == (start + 3) / 7 - 1 && (prev + 3) / 7 <= n / 7)
            && (w > (next + 3) / 7 - (start + 3) / 7 ==>
                  n / 7 == (next + 3) / 7 && n / 7 < (after + 3) / 7)
  {
    var n := start + doy - 1;
    var m := n / 7;
    assert n == 7 * m + n % 7;
    assert (doy - (n % 7 + 1) + 10) / 7 == (7 * m - start + 10) / 7;
  }

  lemma YearGaps(y: int)
    ensures DaysBeforeYear(y) - DaysBeforeYear(y - 1) >= 365
    ensures DaysBeforeYear(y + 1) - DaysBeforeYear(y) == DaysInYear(y)
    ensures DaysBeforeYear(y + 2) - DaysBeforeYear(y + 1) >= 365
  {
    LeapYearLength(y - 1);
    LeapYearLength(y);
    LeapYearLength(y + 1);
  }

  /** IsoCalendar places `d` in the year whose weeks span its absolute week,
      and numbers the week from that year's first week. */
  lemma IsoCalendarIsWeekOfYear(d: CalendarDate)
    ensures FirstWeek(IsoCalendar(d).year) <= WeekIndex(d) < FirstWeek(IsoCalendar(d).year + 1)
    ensures IsoCalendar(d).week == WeekIndex(d) - FirstWeek(IsoCalendar(d).year) + 1
  {
    var w := (DayOfYear(d) - IsoWeekday(d) + 10) / 7;
    if w < 1 {
      LastWeekOfPreviousYear(d);
    } else if w > WeeksInYear(d.year) {
      FirstWeekOfNextYear(d);
    } else {
      WeekOfOwnYear(d);
    }
  }

  lemma LastWeekOfPreviousYear(d: CalendarDate)
    requires (DayOfYear(d) - IsoWeekday(d) + 10) / 7 < 1
    ensures IsoCalendar(d) == IsoWeekDate(d.year - 1, FirstWeek(d.year) - FirstWeek(d.year - 1))
    ensures FirstWeek(d.year - 1) <= WeekIndex(d) == FirstWeek(d.year) - 1
  {
    var n := DayNumber(d);
    WeekOfYearFacts(d.year, DayOfYear(d));
    assert WeekIndex(d) == n / 7;
  }

  lemma FirstWeekOfNextYear(d: CalendarDate)
    requires (DayOfYear(d) - IsoWeekday(d) + 10) / 7 > WeeksInYear(d.year)
    ensures IsoCalendar(d) == IsoWeekDate(d.year + 1, 1)
    ensures WeekIndex(d) == FirstWeek(d.year + 1) < FirstWeek(d.year + 2)
  {
    var n := DayNumber(d);
    WeekOfYearFacts(d.year, DayOfYear(d));
    assert WeekIndex(d) == n / 7;
  }

  lemma WeekOfOwnYear(d: CalendarDate)
    requires 1 <= (DayOfYear(d) - IsoWeekday(d) + 10) / 7 <= WeeksInYear(d.year)
    ensures IsoCalendar(d) == IsoWeekDate(d.year, (DayOfYear(d) - IsoWeekday(d) + 10) / 7)
    ensures FirstWeek(d.year) <= WeekIndex(d) < FirstWeek(d.year + 1)
    ensures IsoCalendar(d).week == WeekIndex(d) - FirstWeek(d.year) + 1
  {
    var n := DayNumber(d);
    WeekOfYearFacts(d.year, DayOfYear(d));
    assert WeekIndex(d) == n / 7;
  }

  /** WeekOfYearArithmetic over the first weeks of the years around `y`, for
      the ordinal `doy` of a date of year `y`. */
  lemma WeekOfYearFacts(y: int, doy: int)
    requires 1 <= doy <= DaysInYear(y)
    ensures var n := DaysBeforeYear(y) + doy - 1;
            var w := (doy - (n % 7 + 1) + 10) / 7;
            && w == n / 7 - FirstWeek(y) + 1
            && (w < 1 ==> n / 7 == FirstWeek(y) - 1 && FirstWeek(y - 1) <= n / 7)
            && (w > FirstWeek(y + 1) - FirstWeek(y) ==>
                  n / 7 == FirstWeek(y + 1) && n / 7 < FirstWeek(y + 2))
  {
    YearGaps(y);
    WeekOfYearArithmetic(DaysBeforeYear(y - 1), DaysBeforeYear(y), DaysBeforeYear(y + 1),
                         DaysBeforeYear(y + 2), doy);
  }

  /** Two dates share an ISO week date exactly when they fall in the same
      Monday-to-Sunday week: each (year, week) pair is one 7-day window. */
  lemma SameIsoWeekIffSameWeekIndex(d1: CalendarDate, d2: CalendarDate)
    ensures IsoCalendar(d1) == IsoCalendar(d2) <==> WeekIndex(d1) == WeekIndex(d2)
  {
    IsoCalendarIsWeekOfYear(d1);
    IsoCalendarIsWeekOfYear(d2);
    var y1, y2 := IsoCalendar(d1).year, IsoCalendar(d2).year;
    if WeekIndex(d1) == WeekIndex(d2) {
      if y1 < y2 {
        FirstWeekMonotone(y1, y2);
      } else if y2 < y1 {
        FirstWeekMonotone(y2, y1);
      }
    }
  }

  /** Ordering weeks by (year, week) is ordering them in time. */
  lemma IsoWeekOrder(d1: CalendarDate, d2: CalendarDate)
    ensures WeekIndex(d1) < WeekIndex(d2) <==> IsoBefore(IsoCalendar(d1), IsoCalendar(d2))
  {
    IsoCalendarIsWeekOfYear(d1);
    IsoCalendarIsWeekOfYear(d2);
    var y1, y2 := IsoCalendar(d1).year, IsoCalendar(d2).year;
    if y1 < y2 {
      FirstWeekMonotone(y1, y2);
    } else if y2 < y1 {
      FirstWeekMonotone(y2, y1);
    }
  }

  /** The week date is well formed: week 1 up to the number of weeks of its
      year, and the year differs from the calendar year by at most one. */
  lemma IsoCalendarRange(d: CalendarDate)
    ensures 1 <= IsoCalendar(d).week <= WeeksInYear(IsoCalendar(d).year)
    ensures d.year - 1 <= IsoCalendar(d).year <= d.year + 1
  {
    IsoCalendarIsWeekOfYear(d);
    FirstWeekStep(d.year - 1);
  }

  /** A new ISO week begins exactly on a Monday. */
  lemma NewWeekStartsOnMonday(d1: CalendarDate, d2: CalendarDate)
    requires DayNumber(d2) == DayNumber(d1) + 1
    ensures IsoCalendar(d1) != IsoCalendar(d2) <==> IsoWeekday(d2) == 1
  {
    SameIsoWeekIffSameWeekIndex(d1, d2);
  }

  /** Week 1 of a year is the week that holds 4 January. */
  lemma FourthOfJanuaryIsInWeekOne(y: int)
    ensures IsoCalendar(Date(y, 1, 4)) == IsoWeekDate(y, 1)
  {
    FirstWeekStep(y);
  }

  /** A week belongs to the year that holds its Thursday. */
  lemma ThursdayDecidesTheYear(d: CalendarDate)
    requires IsoWeekday(d) == 4
    ensures IsoCalendar(d).year == d.year
  {
    IsoCalendarIsWeekOfYear(d);
    LeapYearLength(d.year);
    var n := DayNumber(d);
    assert n == 7 * WeekIndex(d) + 3;
    assert n <= DaysBeforeYear(d.year + 1) - 1;
    assert WeekIndex(d) < FirstWeek(d.year + 1);
    assert FirstWeek(d.year) <= WeekIndex(d);
    if IsoCalendar(d).year < d.year {
      FirstWeekMonotone(IsoCalendar(d).year, d.year);
    } else if IsoCalendar(d).year > d.year {
      FirstWeekMonotone(d.year, IsoCalendar(d).year);
    }
  }

  lemma LongYearArithmetic(start: int, next: int, leap: bool)
    requires next - start == if leap then 366 else 365
    ensures (next + 3) / 7 - (start + 3) / 7
            == if start % 7 + 1 == 4 || (leap && start % 7 + 1 == 3) then 53 else 52
  {
  }

  /** A year has 53 ISO weeks exactly when it begins on a Thursday, or is a
      leap year beginning on a Wednesday. */
  lemma LongYears(y: int)
    ensures WeeksInYear(y) == (if IsoWeekday(Date(y, 1, 1)) == 4
                                  || (IsLeapYear(y) && IsoWeekday(Date(y, 1, 1)) == 3)
                               then 53 else 52)
  {
    var start, next := DaysBeforeYear(y), DaysBeforeYear(y + 1);
    LeapYearLength(y);
    assert IsoWeekday(Date(y, 1, 1)) == start % 7 + 1 by {
      assert DayNumber(Date(y, 1, 1)) == start;
    }
    LongYearArithmetic(start, next, IsLeapYear(y));
    assert WeeksInYear(y) == (next + 3) / 7 - (start + 3) / 7;
  }
}
