/** `display_training_summary` (pages/Analisi.py 536-597): the three
    analyses turned into verdicts, and the page's call of it (1672). */
module Summary {
  import opened Wrappers
  import opened Exceptions
  import opened Floats
  import opened Seqs
  import opened Activities
  import opened Weekly
  import opened Volume
  import opened Frequency
  import opened Intensity

  datatype VolumeVerdict = TooLargeChanges | GradualProgression

  datatype RecoveryVerdict = NoRecoveryWeeks | InconsistentVolume | TooFewRecoveries | RecoveryIncluded

  datatype FrequencyVerdict = ConsistentFrequency(sessionsPerWeek: nat) | IrregularFrequency

  datatype IntensityVerdict = GoodBalance | TooIntense | Unbalanced

  datatype TrainingSummary = TrainingSummary(
    volume: VolumeVerdict, recovery: RecoveryVerdict,
    frequency: FrequencyVerdict, intensity: IntensityVerdict)

  /** `pct_too_large > 50`; NaN fails the comparison. */
  function VolumeVerdictOf(v: VolumeAnalysis): VolumeVerdict {
    if Greater(v.pctTooLarge, 50.0) then TooLargeChanges else GradualProgression
  }

  /** The recovery box: no recovery week, then a frequency below 2, then one
      above 5, in that order. */
  function RecoveryVerdictOf(v: VolumeAnalysis): RecoveryVerdict {
    if !v.hasRecovery then NoRecoveryWeeks
    else if v.recoveryFreq < 2.0 then InconsistentVolume
    else if v.recoveryFreq > 5.0 then TooFewRecoveries
    else RecoveryIncluded
  }

  /** `cv < 25`, decided on the square of cv (see Frequency.CvThreshold); a
      NaN cv fails the comparison. */
  function FrequencyVerdictOf(f: FrequencyAnalysis): FrequencyVerdict {
    if Less(f.cvSquared, 625.0) then ConsistentFrequency(f.modeSessions) else IrregularFrequency
  }

  /** `abs(deviation) <= 10`, otherwise `easy_percentage < 70`. */
  function IntensityVerdictOf(i: IntensityAnalysis): IntensityVerdict {
    var d := if i.deviation < 0.0 then -i.deviation else i.deviation;
    if d <= 10.0 then GoodBalance
    else if i.easyPercentage < 70.0 then TooIntense
    else Unbalanced
  }

  /** `display_training_summary`: the volume analysis cannot fail; the
      frequency analysis runs next and raises first, then the intensity
      analysis. */
  function TrainingSummaryOf(distances: seq<real>, sessions: seq<nat>, zones: seq<Zone>)
    : (r: Result<TrainingSummary, PyError>)
  {
    var v := AnalyzeVolumeProgression(distances);
    match AnalyzeFrequencyConsistency(sessions)
    case Failure(e) => Failure(e)
    case Success(f) =>
      match AnalyzeIntensityDistribution(zones)
      case Failure(e) => Failure(e)
      case Success(i) =>
        Success(TrainingSummary(VolumeVerdictOf(v), RecoveryVerdictOf(v),
                                FrequencyVerdictOf(f), IntensityVerdictOf(i)))
  }

  /** The summary fails exactly when there is no week or no run: KeyError
      for no week, checked first, ZeroDivisionError for no run. */
  lemma TrainingSummaryFailures(distances: seq<real>, sessions: seq<nat>, zones: seq<Zone>)
    ensures TrainingSummaryOf(distances, sessions, zones).Failure? <==> sessions == [] || zones == []
    ensures sessions == [] ==> TrainingSummaryOf(distances, sessions, zones) == Failure(KeyError(Label(0)))
    ensures sessions != [] && zones == [] ==>
              TrainingSummaryOf(distances, sessions, zones) == Failure(ZeroDivisionError)
  {
  }

  /** The intensity box: a good balance exactly for 70-90 % easy sessions,
      too intense below 70 %, unbalanced above 90 %. */
  lemma IntensityVerdictSpec(zones: seq<Zone>)
    requires zones != []
    ensures var e := EasyShare(zones);
            var v := IntensityVerdictOf(AnalyzeIntensityDistribution(zones).value);
            && (v == GoodBalance <==> 70.0 <= e <= 90.0)
            && (v == TooIntense <==> e < 70.0)
            && (v == Unbalanced <==> e > 90.0)
  {
  }

  /** The volume box warns exactly when more than half of the weeks (the
      first one included) changed by more than 15 %. */
  lemma VolumeVerdictSpec(distances: seq<real>)
    ensures VolumeVerdictOf(AnalyzeVolumeProgression(distances)) == TooLargeChanges <==>
              2 * CountWhere(PctChanges(distances), IsTooLarge) > |distances|
  {
    var ps := PctChanges(distances);
    var ideal, tooLarge, r := CountWhere(ps, IsIdeal), CountWhere(ps, IsTooLarge), CountWhere(ps, IsRecovery);
    assert AnalyzeVolumeProgression(distances) == Volume.Summarize(|ps|, ideal, tooLarge, r);
    VolumeVerdictCounts(|ps|, ideal, tooLarge, r);
  }

  lemma VolumeVerdictCounts(weeks: nat, ideal: nat, tooLarge: nat, recoveries: nat)
    ensures VolumeVerdictOf(Volume.Summarize(weeks, ideal, tooLarge, recoveries)) == TooLargeChanges
            <==> 2 * tooLarge > weeks
  {
    if weeks > 0 {
      var n := weeks as real;
      assert Volume.Summarize(weeks, ideal, tooLarge, recoveries).pctTooLarge
             == Finite(tooLarge as real / n * 100.0);
      QuotientCompare(tooLarge as real, n, 0.5);
    }
  }

  /** The recovery box: no recovery week; a recovery week at least every
      other week; fewer than one in five weeks; or in between. */
  lemma RecoveryVerdictSpec(distances: seq<real>)
    ensures var r := CountWhere(PctChanges(distances), IsRecovery);
            var n := |distances|;
            var v := RecoveryVerdictOf(AnalyzeVolumeProgression(distances));
            && (v == NoRecoveryWeeks <==> r == 0)
            && (v == InconsistentVolume <==> r > 0 && n < 2 * r)
            && (v == TooFewRecoveries <==> r > 0 && n > 5 * r)
            && (v == RecoveryIncluded <==> r > 0 && 2 * r <= n <= 5 * r)
  {
    var ps := PctChanges(distances);
    var ideal, tooLarge, r := CountWhere(ps, IsIdeal), CountWhere(ps, IsTooLarge), CountWhere(ps, IsRecovery);
    assert AnalyzeVolumeProgression(distances) == Volume.Summarize(|ps|, ideal, tooLarge, r);
    RecoveryVerdictCounts(|ps|, ideal, tooLarge, r);
  }

  lemma RecoveryVerdictCounts(weeks: nat, ideal: nat, tooLarge: nat, recoveries: nat)
    ensures var v := RecoveryVerdictOf(Volume.Summarize(weeks, ideal, tooLarge, recoveries));
            && (v == NoRecoveryWeeks <==> recoveries == 0)
            && (v == InconsistentVolume <==> recoveries > 0 && weeks < 2 * recoveries)
            && (v == TooFewRecoveries <==> recoveries > 0 && weeks > 5 * recoveries)
            && (v == RecoveryIncluded <==> recoveries > 0 && 2 * recoveries <= weeks <= 5 * recoveries)
  {
    if recoveries > 0 {
      var n, r := weeks as real, recoveries as real;
      assert Volume.Summarize(weeks, ideal, tooLarge, recoveries).recoveryFreq == n / r;
      QuotientCompare(n, r, 2.0);
      QuotientCompare(n, r, 5.0);
    }
  }

  /** The frequency box praises the week counts exactly when there are two
      weeks or more, some with sessions, and their cv is below 25 %; the
      number it quotes is the mode. */
  lemma FrequencyVerdictSpec(sessions: seq<nat>)
    requires sessions != []
    ensures var f := AnalyzeFrequencyConsistency(sessions).value;
            var v := FrequencyVerdictOf(f);
            && (v.ConsistentFrequency? <==> f.cvSquared.Finite? && f.cvSquared.value < 625.0)
            && (v.ConsistentFrequency? ==>
                  |sessions| >= 2 && v.sessionsPerWeek == Mode(sessions)
                  && exists i :: 0 <= i < |sessions| && sessions[i] > 0)
  {
    CvSquaredDefined(sessions);
  }

  /** The same positive number of sessions every week, over two weeks or
      more, is consistent at that number. */
  lemma SteadyWeeksAreConsistent(sessions: seq<nat>)
    requires |sessions| >= 2 && sessions[0] > 0
    requires forall i :: 0 <= i < |sessions| ==> sessions[i] == sessions[0]
    ensures FrequencyVerdictOf(AnalyzeFrequencyConsistency(sessions).value)
            == ConsistentFrequency(sessions[0])
  {
    ConstantWeeksHaveNoVariation(sessions);
    ModeSpec(sessions);
  }

  /** The weekly distance column of the page. */
  function WeeklyDistances(acts: seq<Activity>): (ds: seq<real>)
    ensures |ds| == |WeeklyTotals(acts, IsoWeekKey)|
  {
    var rows := WeeklyTotals(acts, IsoWeekKey);
    seq(|rows|, i requires 0 <= i < |rows| => rows[i].distance)
  }

  /** The zone column of `df_intensity`: the runs and hikes of the period,
      labelled against the reference. */
  function RunZones(acts: seq<Activity>, adjusted: real): (zs: seq<Zone>)
    ensures |zs| == |Keep(acts, IsRunOrHike)|
  {
    var runs := Keep(acts, IsRunOrHike);
    seq(|runs|, i requires 0 <= i < |runs| => ZoneOf(runs[i], adjusted))
  }

  /** The summary as the page calls it on the filtered activities. */
  function PageSummary(acts: seq<Activity>, adjusted: real): Result<TrainingSummary, PyError> {
    TrainingSummaryOf(WeeklyDistances(acts), WeeklySessions(acts), RunZones(acts, adjusted))
  }

  /** `weekly_sessions['Sessions'].mode()[0]` (1334): the page takes the
      mode of the weekly session counts itself, long before it shows the
      summary (1672). `mode()` sorts the most frequent counts, so `[0]` is
      the smallest of them; `[0]` of the empty mode raises KeyError. */
  function PageModeSessions(acts: seq<Activity>): (r: Result<nat, PyError>)
    ensures r.Failure? <==> acts == []
    ensures r.Failure? ==> r.error == KeyError(Label(0))
    ensures r.Success? ==> var s := WeeklySessions(acts);
              && r.value in s && forall x :: x in s ==> Count(s, x) <= Count(s, r.value)
    ensures r.Success? ==> var s := WeeklySessions(acts);
              forall x :: x in s && Count(s, x) == Count(s, r.value) ==> r.value <= x
  {
    var s := WeeklySessions(acts);
    WeeklySessionsSpec(acts);
    if s == [] then Failure(KeyError(Label(0)))
    else
      ModeSpec(s);
      Success(Mode(s))
  }

  /** The page reaches the summary only with activities: an empty period
      raises by line 1334 at the latest. With activities the frequency
      analysis never fails, since the weekly tables come from the same
      activities, and the summary fails exactly when the period has no run
      or hike, with ZeroDivisionError. On the tables of an empty period
      `display_training_summary` would raise KeyError. */
  lemma PageSummaryFailures(acts: seq<Activity>, adjusted: real)
    ensures acts == [] ==> PageModeSessions(acts).Failure?
    ensures PageSummary(acts, adjusted).Failure? <==> forall a :: a in acts ==> !IsRunOrHike(a)
    ensures acts != [] && (forall a :: a in acts ==> !IsRunOrHike(a)) ==>
              PageSummary(acts, adjusted) == Failure(ZeroDivisionError)
    ensures acts == [] ==> PageSummary(acts, adjusted) == Failure(KeyError(Label(0)))
  {
    WeeklySessionsSpec(acts);
    TrainingSummaryFailures(WeeklyDistances(acts), WeeklySessions(acts), RunZones(acts, adjusted));
    forall a ensures a in Keep(acts, IsRunOrHike) <==> a in acts && IsRunOrHike(a) {
      KeepMembership(acts, IsRunOrHike, a);
    }
    if Keep(acts, IsRunOrHike) != [] {
      assert Keep(acts, IsRunOrHike)[0] in Keep(acts, IsRunOrHike);
    }
  }
}
