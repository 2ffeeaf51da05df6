/** Row selections: the period and activity-type filter of the analysis page
    (pages/Analisi.py 876-887), the date filter of app.py (238-239) and
    app.py's "aerobic" range filter (533-539). */
module Filters {
  import opened Calendar
  import opened Activities
  import opened Seqs

  /** Chronological order of calendar dates. */
  predicate DateLeq(a: Date, b: Date) {
    a.year < b.year
    || (a.year == b.year && (a.month < b.month || (a.month == b.month && a.day <= b.day)))
  }

  /** `start <= dt.date <= end`: the time of day plays no part. */
  predicate InPeriod(a: Activity, start: Date, end: Date) {
    DateLeq(start, a.start.date) && DateLeq(a.start.date, end)
  }

  /** The analysis page's mask: the period, and the `type` column among the
      selected types unless no type is selected. */
  predicate Selected(a: Activity, start: Date, end: Date, types: seq<string>) {
    InPeriod(a, start, end) && (types == [] || a.sportType in types)
  }

  function FilterActivities(acts: seq<Activity>, start: Date, end: Date, types: seq<string>)
    : seq<Activity>
  {
    Keep(acts, a => Selected(a, start, end, types))
  }

  /** app.py's date mask. */
  function FilterByDate(acts: seq<Activity>, start: Date, end: Date): seq<Activity> {
    Keep(acts, a => InPeriod(a, start, end))
  }

  /** app.py's "aerobic" mask: distance and elevation gain within the chosen
      ranges, bounds included, and the chosen `type`. */
  predicate Aerobic(a: Activity, minDistance: real, maxDistance: real,
                    minElevation: real, maxElevation: real, sport: string) {
    && minDistance <= a.distance <= maxDistance
    && minElevation <= a.elevationGain <= maxElevation
    && a.sportType == sport
  }

  function AerobicFilter(acts: seq<Activity>, minDistance: real, maxDistance: real,
                         minElevation: real, maxElevation: real, sport: string): seq<Activity>
  {
    Keep(acts, a => Aerobic(a, minDistance, maxDistance, minElevation, maxElevation, sport))
  }

  lemma DateLeqTotalOrder(a: Date, b: Date, c: Date)
    ensures DateLeq(a, a)
    ensures DateLeq(a, b) || DateLeq(b, a)
    ensures DateLeq(a, b) && DateLeq(b, a) ==> a == b
    ensures DateLeq(a, b) && DateLeq(b, c) ==> DateLeq(a, c)
  {
  }

  /** Day numbers order dates as DateLeq does, so the period is a range of
      consecutive days. */
  lemma DateLeqIsDayOrder(a: CalendarDate, b: CalendarDate)
    ensures DateLeq(a, b) <==> DayNumber(a) <= DayNumber(b)
  {
    if a.year < b.year {
      YearsApart(a, b);
    } else if b.year < a.year {
      YearsApart(b, a);
    } else if a.month < b.month || (a.month == b.month && a.day < b.day) {
      MonthsApart(a, b);
    } else if b.month < a.month || (a.month == b.month && b.day < a.day) {
      MonthsApart(b, a);
    }
  }

  lemma YearsApart(a: CalendarDate, b: CalendarDate)
    requires a.year < b.year
    ensures DayNumber(a) < DayNumber(b)
  {
    LeapYearLength(a.year);
    DaysBeforeYearMonotone(a.year + 1, b.year);
  }

  lemma {:induction false} DaysBeforeYearMonotone(y1: int, y2: int)
    requires y1 <= y2
    ensures DaysBeforeYear(y1) <= DaysBeforeYear(y2)
    decreases y2 - y1
  {
    if y1 < y2 {
      LeapYearLength(y1);
      DaysBeforeYearMonotone(y1 + 1, y2);
    }
  }

  lemma MonthsApart(a: CalendarDate, b: CalendarDate)
    requires a.year == b.year && (a.month < b.month || (a.month == b.month && a.day < b.day))
    ensures DayOfYear(a) < DayOfYear(b)
  {
    if a.month < b.month {
      DaysBeforeMonthMonotone(a.year, a.month, b.month);
    }
  }

  lemma DaysBeforeMonthMonotone(y: int, m1: int, m2: int)
    requires 1 <= m1 < m2 <= 12
    ensures DaysBeforeMonth(y, m1) + DaysInMonth(y, m1) <= DaysBeforeMonth(y, m2)
  {
  }

  /** The analysis page's filter keeps exactly the activities of the period
      whose type is selected (any type when none is), in their order. */
  lemma FilterActivitiesSpec(acts: seq<Activity>, start: Date, end: Date, types: seq<string>,
                             a: Activity)
    ensures a in FilterActivities(acts, start, end, types) <==>
              a in acts && DateLeq(start, a.start.date) && DateLeq(a.start.date, end)
              && (types == [] || a.sportType in types)
    ensures multiset(FilterActivities(acts, start, end, types))[a] ==
              if DateLeq(start, a.start.date) && DateLeq(a.start.date, end)
                 && (types == [] || a.sportType in types)
              then multiset(acts)[a] else 0
    ensures IsSubsequence(FilterActivities(acts, start, end, types), acts)
  {
    KeepMultiplicity(acts, a => Selected(a, start, end, types), a);
    KeepMembership(acts, a => Selected(a, start, end, types), a);
    KeepIsSubsequence(acts, a => Selected(a, start, end, types));
  }

  /** With no type selected the page filters by date only, as app.py does. */
  lemma NoTypeSelectedIsDateFilter(acts: seq<Activity>, start: Date, end: Date)
    ensures FilterActivities(acts, start, end, []) == FilterByDate(acts, start, end)
  {
    KeepExtensional(acts, a => Selected(a, start, end, []), a => InPeriod(a, start, end));
  }

  /** app.py's date filter keeps exactly the activities of the period, in
      order, and filtering again changes nothing. */
  lemma FilterByDateSpec(acts: seq<Activity>, start: Date, end: Date, a: Activity)
    ensures a in FilterByDate(acts, start, end) <==>
              a in acts && DateLeq(start, a.start.date) && DateLeq(a.start.date, end)
    ensures multiset(FilterByDate(acts, start, end))[a] ==
              if DateLeq(start, a.start.date) && DateLeq(a.start.date, end) then multiset(acts)[a] else 0
    ensures IsSubsequence(FilterByDate(acts, start, end), acts)
    ensures FilterByDate(FilterByDate(acts, start, end), start, end) == FilterByDate(acts, start, end)
  {
    KeepMembership(acts, a => InPeriod(a, start, end), a);
    KeepMultiplicity(acts, a => InPeriod(a, start, end), a);
    KeepIsSubsequence(acts, a => InPeriod(a, start, end));
    KeepIdempotent(acts, a => InPeriod(a, start, end));
  }

  /** A period that ends before it starts selects nothing. */
  lemma EmptyPeriod(acts: seq<Activity>, start: Date, end: Date, types: seq<string>)
    requires !DateLeq(start, end)
    ensures FilterActivities(acts, start, end, types) == []
  {
    var r := FilterActivities(acts, start, end, types);
    if r != [] {
      DateLeqTotalOrder(start, r[0].start.date, end);
      assert false;
    }
  }

  /** The aerobic filter keeps exactly the activities in both ranges with the
      chosen type, in order. */
  lemma AerobicFilterSpec(acts: seq<Activity>, minDistance: real, maxDistance: real,
                          minElevation: real, maxElevation: real, sport: string, a: Activity)
    ensures a in AerobicFilter(acts, minDistance, maxDistance, minElevation, maxElevation, sport)
            <==> a in acts && minDistance <= a.distance <= maxDistance
                 && minElevation <= a.elevationGain <= maxElevation && a.sportType == sport
    ensures multiset(AerobicFilter(acts, minDistance, maxDistance, minElevation, maxElevation, sport))[a]
            == if minDistance <= a.distance <= maxDistance
                  && minElevation <= a.elevationGain <= maxElevation && a.sportType == sport
               then multiset(acts)[a] else 0
    ensures IsSubsequence(AerobicFilter(acts, minDistance, maxDistance, minElevation, maxElevation, sport), acts)
  {
    var p := a => Aerobic(a, minDistance, maxDistance, minElevation, maxElevation, sport);
    KeepMultiplicity(acts, p, a);
    KeepMembership(acts, p, a);
    KeepIsSubsequence(acts, p);
  }
}
