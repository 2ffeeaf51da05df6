/** The tables the pages change in place: the activities frame that
    `add_intensity_index` and `add_hr_intensity_index` add columns to
    (pages/Analisi.py 349-411, 1538-1539), the weekly table whose change
    columns are added and whose time column is converted to hours
    (pages/Analisi.py 922-923, 1025; app.py 304), and the longest-run table
    whose columns are rewritten as text (app.py 366-378). */
module Frames {
  import opened Wrappers
  import opened Exceptions
  import opened Floats
  import opened Seqs
  import opened Activities
  import opened Weekly
  import opened Volume
  import opened Pace
  import opened Intensity
  import opened Display
  import opened Summary

  // ---------------------------------------------------------------------
  // Columns as functions of the frame

  /** `df['average_speed'].apply(speed_to_pace)`. */
  function PaceColumn(acts: seq<Activity>): (c: seq<Option<real>>)
    ensures |c| == |acts|
  {
    seq(|acts|, i requires 0 <= i < |acts| => SpeedToPace(Some(acts[i].averageSpeed)))
  }

  /** `df["average_pace"] / adjusted_reference_pace`. */
  function IndexColumn(pace: seq<Option<real>>, adjusted: real): (c: seq<Ext>)
    ensures |c| == |pace|
  {
    seq(|pace|, i requires 0 <= i < |pace| => IntensityIndex(pace[i], adjusted))
  }

  /** `df["intensity_index"].apply(label_intensity)`. */
  function ZoneColumn(index: seq<Ext>): (c: seq<Zone>)
    ensures |c| == |index|
  {
    seq(|index|, i requires 0 <= i < |index| => LabelExt(index[i]))
  }

  function HeartRates(acts: seq<Activity>): (c: seq<Option<real>>)
    ensures |c| == |acts|
  {
    seq(|acts|, i requires 0 <= i < |acts| => acts[i].averageHeartrate)
  }

  /** The `hr_intensity` column: each heart rate against the mean of the
      frame's heart rates. */
  function HrColumn(acts: seq<Activity>): (c: seq<HrZone>)
    ensures |c| == |acts|
  {
    var hrs := HeartRates(acts);
    var mean := MeanSkipNa(hrs);
    seq(|acts|, i requires 0 <= i < |acts| => HrLabel(hrs[i], mean))
  }

  /** The message `add_intensity_index` raises when the pace column is
      missing. */
  const MissingPaceMessage: string := "DataFrame must contain a 'average_pace' column in min/km"

  // ---------------------------------------------------------------------
  // The activities frame

  /** A frame of activities and the columns the analysis page adds to it;
      a column that has not been added is None. */
  class ActivityFrame {
    var activities: seq<Activity>
    var averagePace: Option<seq<Option<real>>>
    var intensityIndex: Option<seq<Ext>>
    var intensityZone: Option<seq<Zone>>
    var hrIntensity: Option<seq<HrZone>>

    /** Every added column has one entry per row. */
    ghost predicate Valid()
      reads this
    {
      && (averagePace.Some? ==> |averagePace.value| == |activities|)
      && (intensityIndex.Some? ==> |intensityIndex.value| == |activities|)
      && (intensityZone.Some? ==> |intensityZone.value| == |activities|)
      && (hrIntensity.Some? ==> |hrIntensity.value| == |activities|)
    }

    /** A frame with the Strava columns only. */
    constructor(acts: seq<Activity>)
      ensures Valid()
      ensures activities == acts
      ensures averagePace.None? && intensityIndex.None? && intensityZone.None? && hrIntensity.None?
    {
      activities := acts;
      averagePace := None;
      intensityIndex := None;
      intensityZone := None;
      hrIntensity := None;
    }

    /** `df['average_pace'] = df['average_speed'].apply(speed_to_pace)`. */
    method AddAveragePace()
      requires Valid()
      modifies this
      ensures Valid()
      ensures averagePace == Some(PaceColumn(activities))
      ensures activities == old(activities) && intensityIndex == old(intensityIndex)
      ensures intensityZone == old(intensityZone) && hrIntensity == old(hrIntensity)
    {
      averagePace := Some(PaceColumn(activities));
    }

    /** `add_intensity_index`: ValueError, and nothing written, without the
      pace column; otherwise the index and zone columns are written from
      the pace and the distance-adjusted reference, and the adjusted
      reference is returned as text. */
    method AddIntensityIndex(referencePace: real, raceDistance: real)
      returns (r: Result<string, PyError>)
      requires Valid()
      modifies this
      ensures Valid()
      ensures old(averagePace).None? ==>
                r == Failure(ValueError(MissingPaceMessage)) && intensityIndex == old(intensityIndex)
                && intensityZone == old(intensityZone)
      ensures old(averagePace).Some? ==>
                var adjusted := AdjustedReferencePace(referencePace, raceDistance);
                && r == Success(DecimalPaceToStr(adjusted))
                && intensityIndex == Some(IndexColumn(old(averagePace).value, adjusted))
                && intensityZone == Some(ZoneColumn(intensityIndex.value))
      ensures activities == old(activities) && averagePace == old(averagePace)
      ensures hrIntensity == old(hrIntensity)
    {
      if averagePace.None? {
        return Failure(ValueError(MissingPaceMessage));
      }
      var adjusted := AdjustedReferencePace(referencePace, raceDistance);
      intensityIndex := Some(IndexColumn(averagePace.value, adjusted));
      intensityZone := Some(ZoneColumn(intensityIndex.value));
      r := Success(DecimalPaceToStr(adjusted));
    }

    /** `add_hr_intensity_index`: the `hr_intensity` column. */
    method AddHrIntensity()
      requires Valid()
      modifies this
      ensures Valid()
      ensures hrIntensity == Some(HrColumn(activities))
      ensures activities == old(activities) && averagePace == old(averagePace)
      ensures intensityIndex == old(intensityIndex) && intensityZone == old(intensityZone)
    {
      hrIntensity := Some(HrColumn(activities));
    }
  }

  /** The zone a frame row gets is the zone of its activity: the pace
      column and the index column together label each activity as
      Intensity.ZoneOf does. */
  lemma ZoneColumnOfActivities(acts: seq<Activity>, adjusted: real)
    ensures var zs := ZoneColumn(IndexColumn(PaceColumn(acts), adjusted));
            |zs| == |acts| && forall i :: 0 <= i < |acts| ==> zs[i] == ZoneOf(acts[i], adjusted)
  {
  }

  /** The page's sequence (1538-1539): the pace column, then
      `add_intensity_index` on the runs and hikes (the pace of a row depends
      on that row alone, so the column is built on the selected rows). The
      zones are those the summary is computed from, and the text is the
      adjusted reference pace. */
  method IntensityOfRuns(acts: seq<Activity>, referencePace: real, raceDistance: real)
    returns (zones: seq<Zone>, referenceText: Result<string, PyError>)
    ensures zones == RunZones(acts, AdjustedReferencePace(referencePace, raceDistance))
    ensures referenceText == Success(DecimalPaceToStr(AdjustedReferencePace(referencePace, raceDistance)))
  {
    var frame := new ActivityFrame(Keep(acts, IsRunOrHike));
    frame.AddAveragePace();
    referenceText := frame.AddIntensityIndex(referencePace, raceDistance);
    zones := frame.intensityZone.value;
    ZoneColumnOfActivities(frame.activities, AdjustedReferencePace(referencePace, raceDistance));
  }

  /** On the frame of all activities (the page never calls it), the
      heart-rate column labels some activity other than easy whenever the
      mean heart rate is positive. */
  lemma HrColumnNotAllEasy(acts: seq<Activity>)
    requires CountPresent(HeartRates(acts)) > 0 && MeanSkipNa(HeartRates(acts)).value > 0.0
    ensures exists i :: 0 <= i < |acts| && HrColumn(acts)[i] != Easy
  {
    var hrs := HeartRates(acts);
    HrNotAllEasy(hrs);
    var i :| 0 <= i < |hrs| && HrLabel(hrs[i], MeanSkipNa(hrs)) != Easy;
    assert HrColumn(acts)[i] == HrLabel(hrs[i], MeanSkipNa(hrs));
  }

  // ---------------------------------------------------------------------
  // The weekly table

  function Distances(rows: seq<WeekRow>): (c: seq<real>)
    ensures |c| == |rows|
  {
    seq(|rows|, i requires 0 <= i < |rows| => rows[i].distance)
  }

  function Times(rows: seq<WeekRow>): (c: seq<real>)
    ensures |c| == |rows|
  {
    seq(|rows|, i requires 0 <= i < |rows| => rows[i].time)
  }

  function InHours(rows: seq<WeekRow>): (r: seq<WeekRow>)
    ensures |r| == |rows|
  {
    seq(|rows|, i requires 0 <= i < |rows| => rows[i].(time := rows[i].time / 60.0))
  }

  /** `weekly_distance`: the week rows and the change columns added to
      them. */
  class WeekTable {
    var rows: seq<WeekRow>
    var distancePct: Option<seq<Ext>>
    var timePct: Option<seq<Ext>>

    constructor(weeks: seq<WeekRow>)
      ensures rows == weeks && distancePct.None? && timePct.None?
    {
      rows := weeks;
      distancePct := None;
      timePct := None;
    }

    /** `Distance_pct` and `Time_pct`: the week-over-week changes. */
    method AddPctChanges()
      modifies this
      ensures rows == old(rows)
      ensures distancePct == Some(PctChanges(Distances(rows)))
      ensures timePct == Some(PctChanges(Times(rows)))
    {
      distancePct := Some(PctChanges(Distances(rows)));
      timePct := Some(PctChanges(Times(rows)));
    }

    /** `weekly_distance['Time'] = weekly_distance['Time'] / 60`: minutes to
      hours; the change columns are not recomputed. */
    method ConvertTimeToHours()
      modifies this
      ensures rows == InHours(old(rows))
      ensures distancePct == old(distancePct) && timePct == old(timePct)
    {
      rows := InHours(rows);
    }
  }

  /** The conversion to hours changes only the time column, and the change
      column computed before it is still the change of the converted
      times. */
  lemma ConversionKeepsChanges(rows: seq<WeekRow>)
    ensures Distances(InHours(rows)) == Distances(rows)
    ensures PctChanges(Times(InHours(rows))) == PctChanges(Times(rows))
  {
    assert Times(InHours(rows)) == Scaled(Times(rows), 60.0);
    PctChangesScaleInvariant(Times(rows), 60.0);
  }

  /** The page's sequence (922-923, then 1025) on the weekly totals: the
      time changes shown are those of the hours, and the distance changes
      are those the volume analysis classifies. */
  method WeeklyChanges(acts: seq<Activity>) returns (distancePct: seq<Ext>, timePct: seq<Ext>, hours: seq<real>)
    ensures distancePct == PctChanges(WeeklyDistances(acts))
    ensures hours == Times(InHours(WeeklyTotals(acts, IsoWeekKey)))
    ensures timePct == PctChanges(hours)
  {
    var table := new WeekTable(WeeklyTotals(acts, IsoWeekKey));
    table.AddPctChanges();
    table.ConvertTimeToHours();
    assert Distances(WeeklyTotals(acts, IsoWeekKey)) == WeeklyDistances(acts);
    ConversionKeepsChanges(WeeklyTotals(acts, IsoWeekKey));
    distancePct, timePct := table.distancePct.value, table.timePct.value;
    hours := Times(table.rows);
  }

  // ---------------------------------------------------------------------
  // The longest-run display table

  /** The `moving_time` column as text. */
  function TimeLabels(runs: seq<Activity>): (c: seq<string>)
    ensures |c| == |runs|
  {
    seq(|runs|, i requires 0 <= i < |runs| => MovingTimeLabel(runs[i].movingTime))
  }

  /** The `average_speed` column as pace text; `apply` stops at the first
      row that raises, so one zero speed fails the whole column. */
  function PaceLabels(runs: seq<Activity>): (r: Result<seq<string>, PyError>)
    ensures r.Failure? <==> exists i :: 0 <= i < |runs| && runs[i].averageSpeed == 0.0
    ensures r.Failure? ==> r.error == ZeroDivisionError
    ensures r.Success? ==> |r.value| == |runs|
                           && forall i :: 0 <= i < |runs| ==> Success(r.value[i]) == SpeedPaceLabel(runs[i].averageSpeed)
  {
    if runs == [] then Success([])
    else
      match SpeedPaceLabel(runs[0].averageSpeed)
      case Failure(e) => Failure(e)
      case Success(first) =>
        match PaceLabels(runs[1..])
        case Failure(e) => Failure(e)
        case Success(rest) =>
          assert forall i :: 1 <= i < |runs| ==> runs[i] == runs[1..][i - 1];
          Success([first] + rest)
  }

  /** The longest runs and their text columns, as app.py rewrites them. */
  class LongestRunsTable {
    var runs: seq<Activity>
    var timeText: Option<seq<string>>
    var paceText: Option<seq<string>>

    constructor(longest: seq<Activity>)
      ensures runs == longest && timeText.None? && paceText.None?
    {
      runs := longest;
      timeText := None;
      paceText := None;
    }

    method FormatMovingTime()
      modifies this
      ensures runs == old(runs) && paceText == old(paceText)
      ensures timeText == Some(TimeLabels(runs))
    {
      timeText := Some(TimeLabels(runs));
    }

    /** On failure the column keeps its old value and the error is
      returned. */
    method FormatPace() returns (error: Option<PyError>)
      modifies this
      ensures runs == old(runs) && timeText == old(timeText)
      ensures error.Some? <==> PaceLabels(runs).Failure?
      ensures error.Some? ==> error.value == ZeroDivisionError && paceText == old(paceText)
      ensures error.None? ==> paceText == Some(PaceLabels(runs).value)
    {
      match PaceLabels(runs)
      case Failure(e) =>
        error := Some(e);
      case Success(labels) =>
        paceText := Some(labels);
        error := None;
    }
  }
}
