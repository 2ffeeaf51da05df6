/** Weekly aggregation: the per-week sums of pages/Analisi.py (910-924,
    1324-1328), keyed by ISO year and week, and of app.py (259-263, 444-445),
    keyed by the ISO week number alone; the longest run of each week with its
    share of the week's running distance (pages/Analisi.py 1130-1149); and
    app.py's longest-activity-per-week table ordered by distance (356-385). */
module Weekly {
  import opened Calendar
  import opened Activities
  import opened Seqs
  import opened Grouping
  import opened Floats

  /** The analysis page's key, `(isocalendar().year, isocalendar().week)`,
      represented by the Monday-to-Sunday week that holds the start date.
      Calendar.SameIsoWeekIffSameWeekIndex and Calendar.IsoWeekOrder show that
      it separates and orders activities exactly as the pair does. */
  function IsoWeekKey(a: Activity): int {
    WeekIndex(a.start.date)
  }

  /** app.py's key: `isocalendar().week` alone. */
  function WeekNumberKey(a: Activity): int {
    IsoCalendar(a.start.date).week
  }

  function DistanceOf(a: Activity): real {
    a.distance
  }

  function MovingTimeOf(a: Activity): real {
    a.movingTime
  }

  /** One row of `weekly_distance` joined with `weekly_sessions`: the
      distance and moving-time sums and the `size()` of a week. */
  datatype WeekRow = WeekRow(week: int, distance: real, time: real, sessions: nat)

  function RowDistance(r: WeekRow): real {
    r.distance
  }

  function RowTime(r: WeekRow): real {
    r.time
  }

  function RowOf(acts: seq<Activity>, key: Activity -> int, k: int): WeekRow {
    var g := Group(acts, key, k);
    WeekRow(k, Total(g, DistanceOf), Total(g, MovingTimeOf), |g|)
  }

  function RowsFor(acts: seq<Activity>, key: Activity -> int, ks: seq<int>): seq<WeekRow> {
    if ks == [] then [] else [RowOf(acts, key, ks[0])] + RowsFor(acts, key, ks[1..])
  }

  /** The per-week table, weeks ascending. */
  function WeeklyTotals(acts: seq<Activity>, key: Activity -> int): seq<WeekRow> {
    RowsFor(acts, key, Keys(acts, key))
  }

  function SessionCount(rows: seq<WeekRow>): nat {
    if rows == [] then 0 else rows[0].sessions + SessionCount(rows[1..])
  }

  lemma {:induction false} RowsForSums(acts: seq<Activity>, key: Activity -> int, ks: seq<int>)
    ensures Total(RowsFor(acts, key, ks), RowDistance) == SumOver(acts, key, ks, DistanceOf)
    ensures Total(RowsFor(acts, key, ks), RowTime) == SumOver(acts, key, ks, MovingTimeOf)
    ensures SessionCount(RowsFor(acts, key, ks)) == CountOver(acts, key, ks)
  {
    if ks != [] {
      RowsForSums(acts, key, ks[1..]);
    }
  }

  lemma {:induction false} RowsForAt(acts: seq<Activity>, key: Activity -> int, ks: seq<int>, i: int)
    requires 0 <= i < |ks|
    ensures |RowsFor(acts, key, ks)| == |ks| && RowsFor(acts, key, ks)[i] == RowOf(acts, key, ks[i])
  {
    if i > 0 {
      RowsForAt(acts, key, ks[1..], i - 1);
    } else {
      RowsForLength(acts, key, ks);
    }
  }

  lemma {:induction false} RowsForLength(acts: seq<Activity>, key: Activity -> int, ks: seq<int>)
    ensures |RowsFor(acts, key, ks)| == |ks|
  {
    if ks != [] {
      RowsForLength(acts, key, ks[1..]);
    }
  }

  /** The weeks partition the activities: summed over the weeks, distance,
      moving time and session counts equal the totals of the activities. */
  lemma WeeklyTotalsConserve(acts: seq<Activity>, key: Activity -> int)
    ensures Total(WeeklyTotals(acts, key), RowDistance) == Total(acts, DistanceOf)
    ensures Total(WeeklyTotals(acts, key), RowTime) == Total(acts, MovingTimeOf)
    ensures SessionCount(WeeklyTotals(acts, key)) == |acts|
  {
    RowsForSums(acts, key, Keys(acts, key));
    KeysPartition(acts, key, DistanceOf);
    KeysPartition(acts, key, MovingTimeOf);
  }

  /** One row per week that has an activity, weeks ascending. */
  lemma WeeklyTotalsWeeks(acts: seq<Activity>, key: Activity -> int)
    ensures var rows := WeeklyTotals(acts, key);
            && |rows| == |Keys(acts, key)|
            && forall i :: 0 <= i < |rows| ==> rows[i].week == Keys(acts, key)[i]
  {
    var ks := Keys(acts, key);
    RowsForLength(acts, key, ks);
    forall i | 0 <= i < |ks| ensures WeeklyTotals(acts, key)[i].week == ks[i] {
      RowsForAt(acts, key, ks, i);
    }
  }

  /** Every week row has at least one session and comes from an activity of
      that week, and every activity's week has a row. */
  lemma WeeklyTotalsCover(acts: seq<Activity>, key: Activity -> int)
    ensures var rows := WeeklyTotals(acts, key);
            && (forall i :: 0 <= i < |rows| ==>
                  rows[i].sessions > 0 && exists a :: a in acts && key(a) == rows[i].week)
            && (forall a :: a in acts ==> exists i :: 0 <= i < |rows| && rows[i].week == key(a))
  {
    var ks := Keys(acts, key);
    var rows := WeeklyTotals(acts, key);
    RowsForLength(acts, key, ks);
    forall i | 0 <= i < |rows|
      ensures rows[i].sessions > 0 && exists a :: a in acts && key(a) == rows[i].week
    {
      RowsForAt(acts, key, ks, i);
      GroupNonEmpty(acts, key, ks[i]);
      var j :| 0 <= j < |acts| && key(acts[j]) == ks[i];
      assert acts[j] in acts;
    }
    forall a | a in acts
      ensures exists i :: 0 <= i < |rows| && rows[i].week == key(a)
    {
      var j :| 0 <= j < |acts| && acts[j] == a;
      var i :| 0 <= i < |ks| && ks[i] == key(a);
      RowsForAt(acts, key, ks, i);
    }
  }

  /** app.py's buckets ignore the year: 2 January 2023 and 1 January 2024
      are both in week 1 (of ISO years 2023 and 2024), so their activities
      share one bucket. */
  lemma WeekNumberMergesYears()
    ensures IsoCalendar(Date(2023, 1, 2)) == IsoWeekDate(2023, 1)
    ensures IsoCalendar(Date(2024, 1, 1)) == IsoWeekDate(2024, 1)
  {
    assert WeekIndex(Date(2023, 1, 2)) == WeekIndex(Date(2023, 1, 4)) by {
      assert DayNumber(Date(2023, 1, 2)) == 738521 && DayNumber(Date(2023, 1, 4)) == 738523;
    }
    InWeekOne(Date(2023, 1, 2));
    assert WeekIndex(Date(2024, 1, 1)) == WeekIndex(Date(2024, 1, 4)) by {
      assert DayNumber(Date(2024, 1, 1)) == 738885 && DayNumber(Date(2024, 1, 4)) == 738888;
    }
    InWeekOne(Date(2024, 1, 1));
  }

  lemma InWeekOne(d: CalendarDate)
    requires d.month == 1 && d.day <= 4
    requires WeekIndex(d) == WeekIndex(Date(d.year, 1, 4))
    ensures IsoCalendar(d) == IsoWeekDate(d.year, 1)
  {
    SameIsoWeekIffSameWeekIndex(d, Date(d.year, 1, 4));
    FourthOfJanuaryIsInWeekOne(d.year);
  }

  /** Index of the first row of greatest distance in a non-empty group:
      `nlargest(1, 'distance')`, which keeps the first of tied rows. */
  function LongestIndex(g: seq<Activity>): (k: nat)
    requires g != []
    ensures k < |g|
    ensures forall i :: 0 <= i < |g| ==> g[i].distance <= g[k].distance
    ensures forall i :: 0 <= i < k ==> g[i].distance < g[k].distance
  {
    if |g| == 1 then 0
    else
      var k := LongestIndex(g[1..]) + 1;
      if g[0].distance >= g[k].distance then 0 else k
  }

  function LongestOf(acts: seq<Activity>, key: Activity -> int, ks: seq<int>): seq<Activity>
    requires forall k :: k in ks ==> |Group(acts, key, k)| > 0
  {
    if ks == [] then []
    else
      var g := Group(acts, key, ks[0]);
      [g[LongestIndex(g)]] + LongestOf(acts, key, ks[1..])
  }

  /** The longest activity of each week, weeks ascending. */
  function LongestPerWeek(acts: seq<Activity>, key: Activity -> int): seq<Activity> {
    var ks := Keys(acts, key);
    forall k | k in ks ensures |Group(acts, key, k)| > 0 {
      GroupNonEmpty(acts, key, k);
    }
    LongestOf(acts, key, ks)
  }

  lemma {:induction false} LongestOfAt(acts: seq<Activity>, key: Activity -> int, ks: seq<int>, i: int)
    requires forall k :: k in ks ==> |Group(acts, key, k)| > 0
    requires 0 <= i < |ks|
    ensures |LongestOf(acts, key, ks)| == |ks|
    ensures var g := Group(acts, key, ks[i]); LongestOf(acts, key, ks)[i] == g[LongestIndex(g)]
  {
    if i > 0 {
      LongestOfAt(acts, key, ks[1..], i - 1);
    } else if |ks| > 1 {
      LongestOfAt(acts, key, ks[1..], 0);
    }
  }

  /** One activity per week bucket, of that week, whose distance no activity
      of the same week exceeds. */
  lemma LongestPerWeekSpec(acts: seq<Activity>, key: Activity -> int)
    ensures |LongestPerWeek(acts, key)| == |Keys(acts, key)|
    ensures forall i :: 0 <= i < |LongestPerWeek(acts, key)| ==>
              var a := LongestPerWeek(acts, key)[i];
              && a in acts && key(a) == Keys(acts, key)[i]
              && forall b :: b in acts && key(b) == key(a) ==> b.distance <= a.distance
  {
    var ks := Keys(acts, key);
    forall k | k in ks ensures |Group(acts, key, k)| > 0 {
      GroupNonEmpty(acts, key, k);
    }
    var r := LongestPerWeek(acts, key);
    if ks != [] {
      LongestOfAt(acts, key, ks, 0);
    }
    forall i | 0 <= i < |r|
      ensures r[i] in acts && key(r[i]) == ks[i]
      ensures forall b :: b in acts && key(b) == key(r[i]) ==> b.distance <= r[i].distance
    {
      LongestOfAt(acts, key, ks, i);
      var g := Group(acts, key, ks[i]);
      GroupMembership(acts, key, ks[i], r[i]);
      forall b | b in acts && key(b) == key(r[i]) ensures b.distance <= r[i].distance {
        GroupMembership(acts, key, ks[i], b);
      }
    }
  }

  // ---------------------------------------------------------------------
  // Longest run and its share of the week (pages/Analisi.py 1130-1149)

  predicate IsRun(a: Activity) {
    a.sport == "Run"
  }

  /** A row of `longest_runs` after the merge: the run, the week's running
      total it was merged with, and `distance / weekly_total * 100`. */
  datatype LongestRunRow = LongestRunRow(run: Activity, weeklyTotal: real, percentage: Ext)

  function ShareRows(runs: seq<Activity>, ks: seq<int>): seq<LongestRunRow>
    requires forall k :: k in ks ==> |Group(runs, IsoWeekKey, k)| > 0
  {
    if ks == [] then []
    else
      var g := Group(runs, IsoWeekKey, ks[0]);
      var longest := g[LongestIndex(g)];
      var total := Total(g, DistanceOf);
      [LongestRunRow(longest, total, Scale(Div(longest.distance, total), 100.0))]
        + ShareRows(runs, ks[1..])
  }

  /** The runs (`sport == 'Run'`) of the filtered activities. */
  function Runs(acts: seq<Activity>): seq<Activity> {
    Keep(acts, IsRun)
  }

  function LongestRunShares(acts: seq<Activity>): seq<LongestRunRow> {
    var runs := Runs(acts);
    var ks := Keys(runs, IsoWeekKey);
    forall k | k in ks ensures |Group(runs, IsoWeekKey, k)| > 0 {
      GroupNonEmpty(runs, IsoWeekKey, k);
    }
    ShareRows(runs, ks)
  }

  lemma {:induction false} ShareRowsAt(runs: seq<Activity>, ks: seq<int>, i: int)
    requires forall k :: k in ks ==> |Group(runs, IsoWeekKey, k)| > 0
    requires 0 <= i < |ks|
    ensures |ShareRows(runs, ks)| == |ks|
    ensures var g := Group(runs, IsoWeekKey, ks[i]);
            var row := ShareRows(runs, ks)[i];
            && row.run == g[LongestIndex(g)] && row.weeklyTotal == Total(g, DistanceOf)
            && row.percentage == Scale(Div(row.run.distance, row.weeklyTotal), 100.0)
  {
    if i > 0 {
      ShareRowsAt(runs, ks[1..], i - 1);
    } else if |ks| > 1 {
      ShareRowsAt(runs, ks[1..], 0);
    }
  }

  lemma {:induction false} ShareRowsLength(runs: seq<Activity>, ks: seq<int>)
    requires forall k :: k in ks ==> |Group(runs, IsoWeekKey, k)| > 0
    ensures |ShareRows(runs, ks)| == |ks|
  {
    if ks != [] {
      ShareRowsLength(runs, ks[1..]);
    }
  }

  /** For distances that are not negative, each week's longest run is a
      run of that week, and its share of the week's running distance is at
      most 100 % and at least 100 % divided by the number of runs that week
      (the longest run is at least the average); a week whose runs are all
      0 km has NaN as its share. */
  lemma LongestRunShareBounds(acts: seq<Activity>, i: int)
    requires forall j :: 0 <= j < |acts| ==> acts[j].distance >= 0.0
    requires 0 <= i < |LongestRunShares(acts)|
    ensures var row := LongestRunShares(acts)[i];
            && row.run in acts && IsRun(row.run)
            && 0.0 <= row.run.distance <= row.weeklyTotal
            && (row.weeklyTotal == 0.0 ==> row.percentage == NaN)
            && (row.weeklyTotal > 0.0 ==>
                  && row.percentage.Finite? && row.percentage.value <= 100.0
                  && Repeat(|Group(Runs(acts), IsoWeekKey, IsoWeekKey(row.run))|,
                            row.percentage.value) >= 100.0)
  {
    var runs := Runs(acts);
    var ks := Keys(runs, IsoWeekKey);
    forall k | k in ks ensures |Group(runs, IsoWeekKey, k)| > 0 {
      GroupNonEmpty(runs, IsoWeekKey, k);
    }
    ShareRowsLength(runs, ks);
    ShareRowsAt(runs, ks, i);
    var g := Group(runs, IsoWeekKey, ks[i]);
    var row := LongestRunShares(acts)[i];
    KeepMembership(acts, IsRun, row.run);
    GroupMembership(runs, IsoWeekKey, ks[i], row.run);
    forall j | 0 <= j < |g| ensures g[j].distance >= 0.0 {
      GroupMembership(runs, IsoWeekKey, ks[i], g[j]);
      KeepMembership(acts, IsRun, g[j]);
    }
    GroupShare(g, LongestIndex(g));
  }

  /** A longest row of a group of non-negative distances and its share of
      the group's total; `Repeat(|g|, p)` is the share counted once per row. */
  lemma GroupShare(g: seq<Activity>, k: int)
    requires 0 <= k < |g|
    requires forall j :: 0 <= j < |g| ==> 0.0 <= g[j].distance <= g[k].distance
    ensures var d, t := g[k].distance, Total(g, DistanceOf);
            var p := Scale(Div(d, t), 100.0);
            && 0.0 <= d <= t
            && (t == 0.0 ==> p == NaN)
            && (t > 0.0 ==> p.Finite? && p.value <= 100.0 && Repeat(|g|, p.value) >= 100.0)
  {
    LongestWithinTotal(g, k);
    TotalWithinCountTimesLongest(g, k);
    ShareOf(g[k].distance, Total(g, DistanceOf), |g|);
  }

  lemma LongestWithinTotal(g: seq<Activity>, k: int)
    requires 0 <= k < |g|
    requires forall j :: 0 <= j < |g| ==> 0.0 <= g[j].distance
    ensures 0.0 <= g[k].distance <= Total(g, DistanceOf)
  {
    assert forall j :: 0 <= j < |g| ==> 0.0 <= DistanceOf(g[j]);
    TotalBoundsElements(g, DistanceOf, k);
  }

  lemma TotalWithinCountTimesLongest(g: seq<Activity>, k: int)
    requires 0 <= k < |g|
    requires forall j :: 0 <= j < |g| ==> g[j].distance <= g[k].distance
    ensures Total(g, DistanceOf) <= Repeat(|g|, g[k].distance)
  {
    assert forall j :: 0 <= j < |g| ==> DistanceOf(g[j]) <= DistanceOf(g[k]);
    TotalAtMostMaxTimesCount(g, DistanceOf, g[k].distance);
  }

  /** The arithmetic of the share: `d / t * 100` lies between `100 / n` and
      100 when `d <= t <= n * d`. */
  lemma ShareOf(d: real, t: real, n: nat)
    requires 0.0 <= d <= t && t <= Repeat(n, d)
    ensures var p := Scale(Div(d, t), 100.0);
            && (t == 0.0 ==> p == NaN)
            && (t > 0.0 ==> p.Finite? && p.value <= 100.0 && Repeat(n, p.value) >= 100.0)
  {
    if t > 0.0 {
      var q := d / t;
      assert Div(d, t) == Finite(q);
      RepeatIsProduct(n, d);
      RepeatIsProduct(n, q * 100.0);
      assert q * t == d;
      assert q * n as real * t == n as real * d;
      assert q * n as real >= 1.0;
    } else {
      assert Div(d, t) == NaN;
    }
  }

  // ---------------------------------------------------------------------
  // The display order of app.py's longest-activity table (383-385)

  predicate SortedByDistanceDesc(s: seq<Activity>) {
    forall i, j :: 0 <= i < j < |s| ==> s[i].distance >= s[j].distance
  }

  function InsertByDistance(a: Activity, s: seq<Activity>): (r: seq<Activity>)
    requires SortedByDistanceDesc(s)
    ensures forall x :: x in r <==> x in s || x == a
    ensures SortedByDistanceDesc(r)
    ensures multiset(r) == multiset(s) + multiset{a}
  {
    if s == [] || a.distance >= s[0].distance then
      assert forall j :: 0 <= j < |s| ==> a.distance >= s[j].distance;
      ConsSorted(a, s);
      [a] + s
    else
      var rest := InsertByDistance(a, s[1..]);
      assert s == [s[0]] + s[1..];
      forall j | 0 <= j < |rest| ensures s[0].distance >= rest[j].distance {
        assert rest[j] in rest;
        if rest[j] != a {
          var k :| 0 <= k < |s[1..]| && s[1..][k] == rest[j];
          assert s[k + 1] == rest[j];
        }
      }
      ConsSorted(s[0], rest);
      [s[0]] + rest
  }

  lemma ConsSorted(x: Activity, rest: seq<Activity>)
    requires SortedByDistanceDesc(rest)
    requires forall j :: 0 <= j < |rest| ==> x.distance >= rest[j].distance
    ensures SortedByDistanceDesc([x] + rest)
  {
    var r := [x] + rest;
    forall i, j | 0 <= i < j < |r| ensures r[i].distance >= r[j].distance {
      assert r[j] == rest[j - 1];
      if i > 0 {
        assert r[i] == rest[i - 1];
      }
    }
  }

  /** `sort_values('sort_distance', ascending=False)`: the same rows, longest
      first. */
  function SortByDistanceDesc(s: seq<Activity>): (r: seq<Activity>)
    ensures SortedByDistanceDesc(r)
    ensures multiset(r) == multiset(s)
  {
    if s == [] then []
    else
      assert s == [s[0]] + s[1..];
      InsertByDistance(s[0], SortByDistanceDesc(s[1..]))
  }
}
