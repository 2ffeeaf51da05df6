/** The pace-ratio intensity classifier (pages/Analisi.py 341-347,
    371-411), the easy-session percentage (361-369, 519-533), the heart-rate
    labels (349-359) and the weekly counts per zone (1575-1580). */
module Intensity {
  import opened Wrappers
  import opened Exceptions
  import opened Floats
  import opened Text
  import opened Calendar
  import opened Activities
  import opened Seqs
  import opened Grouping
  import opened Pace

  /** `intensity_zone_pace`: "Alta" (hard), "Moderada", "Baixa" (easy). */
  datatype Zone = Alta | Moderada | Baixa

  /** `label_intensity` on a number: both boundaries belong to the harder
      label. */
  function LabelIntensity(index: real): (z: Zone)
    ensures z == Alta <==> index <= 0.95
    ensures z == Moderada <==> 0.95 < index <= 1.15
    ensures z == Baixa <==> 1.15 < index
  {
    if index <= 0.95 then Alta else if index <= 1.15 then Moderada else Baixa
  }

  /** `label_intensity` on a column value: NaN and +inf fail both
      comparisons and are labelled "Baixa"; -inf passes the first. */
  function LabelExt(x: Ext): (z: Zone)
    ensures z == Alta <==> AtMost(x, 0.95)
    ensures z == Moderada <==> !AtMost(x, 0.95) && AtMost(x, 1.15)
    ensures z == Baixa <==> !AtMost(x, 1.15)
  {
    match x
    case Finite(v) => LabelIntensity(v)
    case NegInf => Alta
    case _ => Baixa
  }

  /** Zones from hardest to easiest. */
  function Easiness(z: Zone): nat {
    match z
    case Alta => 0
    case Moderada => 1
    case Baixa => 2
  }

  /** A larger index (a slower pace relative to the reference) never gives
      a harder label. */
  lemma LabelIntensityMonotone(i: real, j: real)
    requires i <= j
    ensures Easiness(LabelIntensity(i)) <= Easiness(LabelIntensity(j))
  {
    if LabelIntensity(j) == Alta {
      assert LabelIntensity(i) == Alta;
    } else if LabelIntensity(j) == Moderada {
      assert LabelIntensity(i) != Baixa;
    }
  }

  /** `intensity_index = average_pace / adjusted_reference_pace`, a missing
      pace being NaN. */
  function IntensityIndex(pace: Option<real>, adjusted: real): Ext {
    DivOpt(pace, adjusted)
  }

  /** With a positive reference a run is hard exactly when its pace is at
      most 95 % of the reference, easy exactly when it is above 115 %, and a
      run without a pace counts as easy. */
  lemma ZoneByPace(pace: Option<real>, adjusted: real)
    requires adjusted > 0.0
    ensures pace.None? ==> LabelExt(IntensityIndex(pace, adjusted)) == Baixa
    ensures pace.Some? ==>
              var z := LabelExt(IntensityIndex(pace, adjusted));
              && (z == Alta <==> pace.value <= 0.95 * adjusted)
              && (z == Baixa <==> pace.value > 1.15 * adjusted)
  {
    if pace.Some? {
      assert IntensityIndex(pace, adjusted) == Finite(pace.value / adjusted);
      QuotientAtMost(pace.value, adjusted, 0.95);
      QuotientAtMost(pace.value, adjusted, 1.15);
    }
  }

  lemma QuotientAtMost(p: real, a: real, c: real)
    requires a > 0.0
    ensures p / a <= c <==> p <= c * a
  {
    var q := p / a;
    assert q * a == p;
    if q <= c {
      assert q * a <= c * a;
    } else {
      assert q * a > c * a;
    }
  }

  /** The zone of an activity: its `average_pace` (from its average speed)
      against the adjusted reference; an activity with no recorded speed has
      no pace and counts as easy. */
  function ZoneOf(a: Activity, adjusted: real): (z: Zone)
    ensures a.averageSpeed == 0.0 ==> z == Baixa
  {
    LabelExt(IntensityIndex(SpeedToPace(Some(a.averageSpeed)), adjusted))
  }

  /** The rows `add_intensity_index` is applied to: `sport` is "Run" or
      "Hike". */
  predicate IsRunOrHike(a: Activity) {
    a.sport == "Run" || a.sport == "Hike"
  }

  function CountZone(zs: seq<Zone>, z: Zone): (n: nat)
    ensures n <= |zs|
  {
    if zs == [] then 0 else (if zs[0] == z then 1 else 0) + CountZone(zs[1..], z)
  }

  /** Every row has exactly one label. */
  lemma {:induction false} ZoneCountsAddUp(zs: seq<Zone>)
    ensures CountZone(zs, Alta) + CountZone(zs, Moderada) + CountZone(zs, Baixa) == |zs|
  {
    if zs != [] {
      ZoneCountsAddUp(zs[1..]);
    }
  }

  /** The share of "Baixa" rows in percent, unrounded. */
  function EasyShare(zs: seq<Zone>): (r: real)
    requires zs != []
    ensures 0.0 <= r <= 100.0
    ensures r == 0.0 <==> CountZone(zs, Baixa) == 0
    ensures r == 100.0 <==> CountZone(zs, Baixa) == |zs|
  {
    var n, e := |zs| as real, CountZone(zs, Baixa) as real;
    PercentOf(e, n);
    e / n * 100.0
  }

  lemma PercentOf(e: real, n: real)
    requires 0.0 <= e <= n && 0.0 < n
    ensures 0.0 <= e / n * 100.0 <= 100.0
    ensures e / n * 100.0 == 0.0 <==> e == 0.0
    ensures e / n * 100.0 == 100.0 <==> e == n
  {
    var q := e / n;
    QuotientBounds(e, n, q);
  }

  /** A quotient of `0 <= e <= n` by a positive `n` lies in [0, 1], and is 0
      or 1 exactly at the ends. */
  lemma QuotientBounds(e: real, n: real, q: real)
    requires 0.0 <= e <= n && 0.0 < n && q == e / n
    ensures 0.0 <= q <= 1.0
    ensures q == 0.0 <==> e == 0.0
    ensures q == 1.0 <==> e == n
  {
    assert q * n == e;
  }

  /** `compute_easy_percentage`: 0.0 for no rows, otherwise the easy share
      rounded to one decimal. */
  function EasyPercentage(zs: seq<Zone>): (r: real)
    ensures zs == [] ==> r == 0.0
    ensures zs != [] ==> EasyShare(zs) - 0.05 <= r <= EasyShare(zs) + 0.05
    ensures zs != [] ==> r * 10.0 == RoundHalfEven(EasyShare(zs) * 10.0) as real
    ensures 0.0 <= r <= 100.0
  {
    if zs == [] then 0.0
    else
      var x := EasyShare(zs);
      var n := RoundHalfEven(x * 10.0);
      assert 0 <= n <= 1000;
      Round1(x)
  }

  /** The page colours the easy share green when `easy_percentage >= 80`
      (1569); the rounding to one decimal moves that threshold down to a
      share of 79.95 %. */
  lemma EasyColourThreshold(zs: seq<Zone>)
    requires zs != []
    ensures EasyPercentage(zs) >= 80.0 <==> EasyShare(zs) >= 79.95
  {
    Round1AtLeast(EasyShare(zs), 800);
  }

  /** The result of `analyze_intensity_distribution`. */
  datatype IntensityAnalysis = IntensityAnalysis(easyPercentage: real, deviation: real)

  /** `analyze_intensity_distribution`: the easy share and its distance from
      the 80 % of the 80/20 rule; no rows divides by zero. */
  function AnalyzeIntensityDistribution(zs: seq<Zone>): (r: Result<IntensityAnalysis, PyError>)
    ensures r.Failure? <==> zs == []
    ensures r.Failure? ==> r.error == ZeroDivisionError
    ensures r.Success? ==>
              && r.value.easyPercentage == EasyShare(zs)
              && 0.0 <= r.value.deviation <= 80.0
              && (r.value.easyPercentage == 80.0 + r.value.deviation
                  || r.value.easyPercentage == 80.0 - r.value.deviation)
  {
    if zs == [] then Failure(ZeroDivisionError)
    else
      var e := EasyShare(zs);
      Success(IntensityAnalysis(e, if e < 80.0 then 80.0 - e else e - 80.0))
  }

  // ---------------------------------------------------------------------
  // Heart-rate labels (`add_hr_intensity_index`)

  datatype HrZone = Easy | Moderate | Hard

  function SumPresent(xs: seq<Option<real>>): real {
    if xs == [] then 0.0
    else (if xs[0].Some? then xs[0].value else 0.0) + SumPresent(xs[1..])
  }

  function CountPresent(xs: seq<Option<real>>): (n: nat)
    ensures n <= |xs|
  {
    if xs == [] then 0 else (if xs[0].Some? then 1 else 0) + CountPresent(xs[1..])
  }

  /** `Series.mean()`: missing values are skipped; none present gives NaN. */
  function MeanSkipNa(xs: seq<Option<real>>): (r: Option<real>)
    ensures r.Some? <==> CountPresent(xs) > 0
  {
    var n := CountPresent(xs);
    if n == 0 then None else Some(SumPresent(xs) / n as real)
  }

  /** The heart-rate label against the mean: below 95 % is easy, below 105 %
      moderate; anything else, and any comparison with NaN, is hard. */
  function HrLabel(x: Option<real>, mean: Option<real>): (z: HrZone)
    ensures x.None? || mean.None? ==> z == Hard
  {
    if x.Some? && mean.Some? then
      if x.value < mean.value * 0.95 then Easy
      else if x.value < mean.value * 1.05 then Moderate
      else Hard
    else Hard
  }

  function HrHardness(z: HrZone): nat {
    match z
    case Easy => 0
    case Moderate => 1
    case Hard => 2
  }

  /** With a positive mean a higher heart rate never gets an easier label,
      and a heart rate at the mean is moderate. */
  lemma HrLabelMonotone(x: real, y: real, mean: real)
    requires 0.0 < mean && x <= y
    ensures HrHardness(HrLabel(Some(x), Some(mean))) <= HrHardness(HrLabel(Some(y), Some(mean)))
    ensures HrLabel(Some(mean), Some(mean)) == Moderate
  {
    if HrLabel(Some(y), Some(mean)) == Easy {
      assert HrLabel(Some(x), Some(mean)) == Easy;
    } else if HrLabel(Some(y), Some(mean)) == Moderate {
      assert HrLabel(Some(x), Some(mean)) != Hard;
    }
  }

  /** Some present value is at least the mean, so with a positive mean not
      every activity with a heart rate is labelled easy. */
  lemma {:induction false} SomeAtLeastMean(xs: seq<Option<real>>)
    requires CountPresent(xs) > 0
    ensures exists i :: 0 <= i < |xs| && xs[i].Some? && xs[i].value >= MeanSkipNa(xs).value
  {
    var m := MeanSkipNa(xs).value;
    var n := CountPresent(xs);
    if forall i :: 0 <= i < |xs| && xs[i].Some? ==> xs[i].value < m {
      SumBelow(xs, m);
      RepeatIsProduct(n, m);
      assert false;
    }
  }

  lemma {:induction false} SumBelow(xs: seq<Option<real>>, m: real)
    requires CountPresent(xs) > 0
    requires forall i :: 0 <= i < |xs| && xs[i].Some? ==> xs[i].value < m
    ensures SumPresent(xs) < Repeat(CountPresent(xs), m)
  {
    if xs[0].Some? {
      if CountPresent(xs[1..]) > 0 {
        SumBelow(xs[1..], m);
      } else {
        NoneLeft(xs[1..]);
      }
    } else {
      SumBelow(xs[1..], m);
    }
  }

  lemma {:induction false} NoneLeft(xs: seq<Option<real>>)
    requires CountPresent(xs) == 0
    ensures SumPresent(xs) == 0.0
  {
    if xs != [] {
      NoneLeft(xs[1..]);
    }
  }

  lemma HrNotAllEasy(xs: seq<Option<real>>)
    requires CountPresent(xs) > 0 && MeanSkipNa(xs).value > 0.0
    ensures exists i :: 0 <= i < |xs| && HrLabel(xs[i], MeanSkipNa(xs)) != Easy
  {
    SomeAtLeastMean(xs);
    var i :| 0 <= i < |xs| && xs[i].Some? && xs[i].value >= MeanSkipNa(xs).value;
    assert HrLabel(xs[i], MeanSkipNa(xs)) != Easy;
  }

  // ---------------------------------------------------------------------
  // Sessions per week and zone (`intensity_by_week`)

  /** A row of `df_intensity`: the activity and its zone. */
  datatype Labelled = Labelled(act: Activity, zone: Zone)

  /** The zones in the order `groupby` sorts their labels:
      "Alta" < "Baixa" < "Moderada". */
  function LabelOrder(z: Zone): (k: nat)
    ensures k < 3
  {
    match z
    case Alta => 0
    case Baixa => 1
    case Moderada => 2
  }

  function ZoneAt(k: int): (z: Zone)
    requires 0 <= k < 3
    ensures LabelOrder(z) == k
  {
    if k == 0 then Alta else if k == 1 then Baixa else Moderada
  }

  /** The group key `(year, week, intensity_zone_pace)`, as one integer
      ordered as the triple is. */
  function WeekZoneKey(l: Labelled): int {
    WeekIndex(l.act.start.date) * 3 + LabelOrder(l.zone)
  }

  /** The key determines week and zone, and is ordered by week, then zone. */
  lemma WeekZoneKeyDecodes(l: Labelled, m: Labelled)
    ensures WeekZoneKey(l) / 3 == WeekIndex(l.act.start.date)
    ensures ZoneAt(WeekZoneKey(l) % 3) == l.zone
    ensures WeekZoneKey(l) == WeekZoneKey(m) <==>
              WeekIndex(l.act.start.date) == WeekIndex(m.act.start.date) && l.zone == m.zone
    ensures WeekZoneKey(l) < WeekZoneKey(m) <==>
              || WeekIndex(l.act.start.date) < WeekIndex(m.act.start.date)
              || (WeekIndex(l.act.start.date) == WeekIndex(m.act.start.date)
                  && LabelOrder(l.zone) < LabelOrder(m.zone))
  {
  }

  /** One row of `intensity_by_week`. */
  datatype ZoneCount = ZoneCount(week: int, zone: Zone, count: nat)

  function ZoneCounts(ls: seq<Labelled>, ks: seq<int>): (rows: seq<ZoneCount>)
    ensures |rows| == |ks|
  {
    if ks == [] then []
    else
      [ZoneCount(ks[0] / 3, ZoneAt(ks[0] % 3), |Group(ls, WeekZoneKey, ks[0])|)]
        + ZoneCounts(ls, ks[1..])
  }

  function IntensityByWeek(ls: seq<Labelled>): seq<ZoneCount> {
    ZoneCounts(ls, Keys(ls, WeekZoneKey))
  }

  function CountSum(rows: seq<ZoneCount>): nat {
    if rows == [] then 0 else rows[0].count + CountSum(rows[1..])
  }

  lemma {:induction false} ZoneCountsSum(ls: seq<Labelled>, ks: seq<int>)
    ensures CountSum(ZoneCounts(ls, ks)) == CountOver(ls, WeekZoneKey, ks)
    ensures |ZoneCounts(ls, ks)| == |ks|
  {
    if ks != [] {
      ZoneCountsSum(ls, ks[1..]);
    }
  }

  lemma {:induction false} ZoneCountsAt(ls: seq<Labelled>, ks: seq<int>, i: int)
    requires 0 <= i < |ks|
    ensures |ZoneCounts(ls, ks)| == |ks|
    ensures ZoneCounts(ls, ks)[i] == ZoneCount(ks[i] / 3, ZoneAt(ks[i] % 3), |Group(ls, WeekZoneKey, ks[i])|)
  {
    ZoneCountsSum(ls, ks);
    if i > 0 {
      ZoneCountsAt(ls, ks[1..], i - 1);
    }
  }

  /** The weekly zone counts add up to the number of labelled sessions, and
      each row counts the sessions of its week with its zone, at least one. */
  lemma IntensityByWeekSpec(ls: seq<Labelled>, i: int, l: Labelled)
    requires 0 <= i < |IntensityByWeek(ls)|
    ensures CountSum(IntensityByWeek(ls)) == |ls|
    ensures var row := IntensityByWeek(ls)[i];
            var g := Group(ls, WeekZoneKey, Keys(ls, WeekZoneKey)[i]);
            && row.count == |g| > 0
            && (l in g <==> l in ls && WeekIndex(l.act.start.date) == row.week && l.zone == row.zone)
  {
    var ks := Keys(ls, WeekZoneKey);
    ZoneCountsSum(ls, ks);
    KeysPartition(ls, WeekZoneKey, _ => 0.0);
    ZoneCountsAt(ls, ks, i);
    GroupNonEmpty(ls, WeekZoneKey, ks[i]);
    GroupMembership(ls, WeekZoneKey, ks[i], l);
    var m :| 0 <= m < |ls| && WeekZoneKey(ls[m]) == ks[i];
    WeekZoneKeyDecodes(ls[m], l);
  }
}
