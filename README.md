# Training-load analytics of the Strava dashboard, modelled in Dafny

The dashboard pulls a runner's Strava activities, turns each JSON record
into a row of an activities table (kilometres, minutes, km/h), filters the
rows by period and activity type, and analyses the training load:

- weekly distance, moving time and session counts, grouped by ISO week;
- the week-over-week change of the weekly distance and the classification
  of the changes (ideal, too large, recovery week);
- the regularity of the weekly session counts (coefficient of variation,
  the mode);
- the share of each week's running distance taken by its longest run;
- an intensity zone for every run or hike, from its pace against a
  distance-adjusted reference race pace, and the share of easy sessions
  against the 80/20 rule;
- the summary boxes that turn those three analyses into verdicts.

The model follows the analysis page (`pages/Analisi.py`) and the older
single page (`app.py`). One module per component:

| module | file | what it holds |
|---|---|---|
| Wrappers, Exceptions | wrappers.dfy | `Option`, `Result`, and the Python exceptions the code can raise |
| Floats | floats.dfy | IEEE-style results of a division (finite, ±inf, NaN) and the comparisons pandas makes on them |
| Text | text.dfy | `str(n)`, `f"{n:02d}"`, `int()` truncation and `round()` (half to even) |
| Calendar | calendar.dfy | Gregorian dates and the ISO 8601 week date that `dt.isocalendar()` computes |
| Seqs, Grouping | seqs.dfy, grouping.dfy | boolean masks, sums, and `groupby` over an integer key with sorted keys |
| Activities | activities.dfy | the normalisation of Strava records (`get_activities`) |
| Filters | filters.dfy | the period / type masks and app.py's aerobic mask |
| Weekly | weekly.dfy | the weekly tables, the longest activity of each week, the longest-run share, the sort by distance |
| Volume | volume.dfy | `pct_change` and `analyze_volume_progression` |
| Frequency | frequency.dfy | `weekly_sessions` and `analyze_frequency_consistency` |
| Pace | pace.dfy | pace/speed conversions, `decimal_pace_to_str`, the distance factor of the reference pace |
| Reference | reference.dfy | the detected race and the manual reference pace |
| Intensity | intensity.dfy | `label_intensity`, the zone of an activity, `compute_easy_percentage`, `analyze_intensity_distribution`, the heart-rate label, the zone counts per week |
| Display | display.dfy | the text of the moving-time and pace columns |
| Summary | summary.dfy | `display_training_summary` |
| Frames | frames.dfy | the tables the pages change in place, as classes: the activities frame with its added columns, the weekly table, the longest-run table |

Where the code raises (a missing key, a division by zero, `mode()[0]` of
an empty column) the model returns a `Failure`
carrying the exception. Where NaN or an infinity decides a branch, it is
modelled explicitly (`Floats.Ext`).

Code and docstrings disagree in a few places. The model follows the code:

- `analyze_volume_progression`'s docstring speaks of 8-12 % ideal changes.
  The code tests 6 % to 15 %, both bounds included.
- The docstring of `add_intensity_index` asks for a `pace_decimal` column.
  The code requires `average_pace` and raises ValueError without it.
- A record missing a required key is not skipped: `activity["..."]` raises
  KeyError, and the whole list is lost.
- Both percentages of the volume analysis divide by the number of weeks.
  The first week has no change and counts in no numerator.
- A run without a speed gets a NaN intensity index. `label_intensity`
  labels NaN "Baixa" (easy), because both comparisons fail.
- app.py groups by the ISO week number alone, so week 1 of two different
  years lands in one bucket (Weekly.WeekNumberMergesYears).
- `analyze_intensity_distribution` has no guard for an empty table. A
  period with activities but no run or hike makes the summary raise
  ZeroDivisionError (Summary.PageSummaryFailures). An empty period never
  reaches the summary: the page raises by line 1334 at the latest, where
  `mode()[0]` of the empty session column raises KeyError
  (Summary.PageModeSessions).
- A detected race with a zero speed does not fall back to the manual
  entry: the page writes the race's speed as a pace with `60/x` before it
  calls `speed_to_pace`, and raises ZeroDivisionError there
  (Reference.DetectedReference).

## Model

| member | source | states |
|---|---|---|
| Activities.NormalizeRecord | pages/Analisi.py:286-307 | a record normalises exactly when every key read with `[...]` is present; a failure is the KeyError of one of those keys; a success converts metres to km, seconds to minutes, m/s to km/h, and takes the optional keys as they are |
| Activities.NormalizeToRaw | pages/Analisi.py:288-306 | the unit conversions lose nothing: the record of a row normalises back to that row |
| Activities.GetActivities | pages/Analisi.py:286-307 | the loop builds one row per record in order, or stops with the first KeyError |
| Activities.NormalizeAllRows | app.py:110-131 | the list succeeds exactly when every record has its keys, and row i is record i normalised |
| Activities.NormalizeAllFirstError | pages/Analisi.py:287-289 | a failing list reports the error of its first incomplete record |
| Activities.FailurePersists | pages/Analisi.py:287-307 | a failure in a prefix of the records is the failure of the whole list |
| Calendar.SameIsoWeekIffSameWeekIndex | pages/Analisi.py:910-913 | two dates share `(isocalendar().year, isocalendar().week)` exactly when they lie in the same Monday-to-Sunday week |
| Calendar.IsoWeekOrder | pages/Analisi.py:910-913 | ordering groups by (year, week) orders the weeks in time |
| Calendar.IsoCalendarRange | pages/Analisi.py:910-913 | the week number lies between 1 and the number of weeks of its year, and the week year is within one of the calendar year |
| Calendar.NewWeekStartsOnMonday | pages/Analisi.py:910-913 | consecutive days change ISO week exactly when the second one is a Monday |
| Calendar.FourthOfJanuaryIsInWeekOne | pages/Analisi.py:910-913 | week 1 of a year holds 4 January |
| Calendar.ThursdayDecidesTheYear | pages/Analisi.py:910-913 | a week belongs to the year of its Thursday |
| Calendar.LongYears | pages/Analisi.py:910-913 | a year has 53 ISO weeks exactly when it starts on a Thursday, or is a leap year starting on a Wednesday |
| Filters.FilterActivitiesSpec | pages/Analisi.py:876-887 | the filter keeps exactly the activities of the period whose type is selected (any type when none is), every copy of each, in their order |
| Filters.NoTypeSelectedIsDateFilter | pages/Analisi.py:876-880 | with no type selected the page filters by date only, exactly as app.py does |
| Filters.DateLeqIsDayOrder | pages/Analisi.py:878-879 | comparing the `date` part of the start orders the days in time |
| Filters.FilterByDateSpec | app.py:238-239 | the date mask keeps exactly the activities of the period, every copy of each, in order, and applying it twice changes nothing |
| Filters.EmptyPeriod | pages/Analisi.py:876-887 | a period that ends before it starts selects nothing |
| Filters.AerobicFilterSpec | app.py:533-539 | the aerobic mask keeps exactly the activities in both ranges, bounds included, with the chosen type, every copy of each, in order |
| Weekly.WeeklyTotalsConserve | pages/Analisi.py:910-917 | summed over the weeks, distance, time and session counts equal the totals of the activities |
| Weekly.WeeklyTotalsWeeks | pages/Analisi.py:910-917 | one row per week that has an activity, in the ascending order of the week keys |
| Weekly.WeeklyTotalsCover | pages/Analisi.py:1324-1328 | each week row counts at least one session and belongs to an activity of that week; every activity's week has a row |
| Weekly.WeekNumberMergesYears | app.py:259-263 | 2 January 2023 and 1 January 2024 both have week number 1, so app.py's buckets merge them |
| Weekly.LongestIndex | pages/Analisi.py:1136-1141 | `nlargest(1, 'distance')` picks a row no row of the group exceeds, the first of tied rows |
| Weekly.LongestPerWeekSpec | app.py:356-358 | one activity per week bucket, of that week, longer than or as long as every activity of that week |
| Weekly.LongestRunShareBounds | pages/Analisi.py:1130-1149 | each week's longest run is a run of that week; its share of the week's running distance lies between 100 % / runs and 100 %, or is NaN when every run that week is 0 km |
| Weekly.SortByDistanceDesc | app.py:383-385 | the longest-run rows sorted longest first, as a permutation of the rows |
| Volume.PctChanges | pages/Analisi.py:479 | the first week's change is NaN, and every later one is the change from the week before |
| Volume.PctChange | pages/Analisi.py:922-923 | with a non-zero previous week the change p satisfies p * prev = (cur - prev) * 100; a zero previous week gives an infinity or NaN |
| Volume.PctChangesScaleInvariant | pages/Analisi.py:1025 | dividing the column by a positive constant leaves its changes unchanged |
| Volume.ChangeClasses | pages/Analisi.py:482-483 | after a positive week, a change is ideal exactly when the new week is 6-15 % away from it, and too large exactly when it is more than 15 % away |
| Volume.RecoveryWeek | pages/Analisi.py:490 | among non-negative distances a recovery week follows a week with distance and falls below 80 % of it |
| Volume.FirstWeekUnclassified | pages/Analisi.py:479-490 | the first week is never ideal, too large nor a recovery week |
| Volume.VolumeSharesBounded | pages/Analisi.py:486-487 | with one week or more both percentages are finite, not negative, and sum to less than 100 |
| Volume.HasRecoverySpec | pages/Analisi.py:497 | `has_recovery` holds exactly when some week after the first drops by more than 20 % |
| Volume.RecoveryFreqSpec | pages/Analisi.py:491 | the recovery frequency is weeks per recovery week, above 1, and the number of weeks when there is no recovery week |
| Volume.VolumeExample | pages/Analisi.py:472-498 | weeks 100, 105, 40, 95 km: no ideal change, 50 % too large, one recovery week in 4 |
| Volume.IdealExample | pages/Analisi.py:482-486 | weeks 50, 55, 60, 66 km: 75 % of the weeks change ideally |
| Frequency.WeeklySessionsSpec | pages/Analisi.py:1324-1328 | every listed week has a session, the counts add up to the number of activities, and there is a week exactly when there is an activity |
| Frequency.ModeSpec | pages/Analisi.py:508 | `mode()[0]` is a value of the column, no value is more frequent, and no smaller value is as frequent |
| Frequency.ModeAmong | pages/Analisi.py:1334 | the first mode of a candidate list is one of them and none comes before it |
| Frequency.SampleVariance | pages/Analisi.py:505 | `std()` squared is defined exactly for two weeks or more, and never negative |
| Frequency.CvSquaredDefined | pages/Analisi.py:505 | cv is a number exactly when there are two weeks or more and some week has a session |
| Frequency.AnalyzeFrequencyConsistency | pages/Analisi.py:500-517 | the analysis raises KeyError exactly when there are no weeks |
| Frequency.ConsistentShareBounds | pages/Analisi.py:511 | the share of weeks at the mode is in (0, 100], and 100 exactly when every week has the mode |
| Frequency.CvThreshold | pages/Analisi.py:578 | a non-negative cv is below 25 exactly when its square is below 625 |
| Frequency.ConstantWeeksHaveNoVariation | pages/Analisi.py:505 | equal positive weekly counts give cv 0; all-zero counts give NaN |
| Pace.PaceToSpeed | pages/Analisi.py:322-326 | speed times pace is 60, and a zero pace raises ZeroDivisionError |
| Pace.SpeedToPace | pages/Analisi.py:413-418 | no pace for a missing or zero speed; otherwise pace times speed is 60 |
| Pace.PaceSpeedRoundTrip | pages/Analisi.py:322-326 | a positive pace turned into a speed and back is the same pace |
| Pace.SpeedPaceRoundTrip | pages/Analisi.py:413-418 | a non-zero speed turned into a pace and back is the same speed |
| Pace.DecimalPaceToStr | pages/Analisi.py:328-338 | the text is the truncated minutes, a colon and the fraction's seconds rounded half to even, at least two digits |
| Pace.DecimalPaceExamples | pages/Analisi.py:332-334 | 5.5 renders as "5:30 min/km" and 4.25 as "4:15 min/km" |
| Pace.DecimalPaceSixtySeconds | pages/Analisi.py:336-338 | 4.995 renders as "4:60 min/km" |
| Pace.ReferenceSixtySeconds | pages/Analisi.py:402-403 | the page reaches the 60-second text: a 4:51 min/km reference over 10 km is adjusted to 4.9955 min/km and returned as "4:60 min/km" |
| Pace.PaceLabelSpec | pages/Analisi.py:328-338 | the intended rendering prints `m:ss` with ss below 60, and m:ss is the pace to the nearest second |
| Pace.PaceLabelAgrees | pages/Analisi.py:336-338 | where the seconds as written stay below 60, both renderings agree |
| Pace.PaceLabelCarries | pages/Analisi.py:336-338 | 4.995 renders as "5:00 min/km" when rendered as intended |
| Pace.ClosestIndex | pages/Analisi.py:398 | the chosen race distance is at the smallest gap from the race, and the first such distance |
| Pace.FactorByDistance | pages/Analisi.py:389-399 | the factor is 1.05 up to 7.5 km, 1.03 up to 12.5, 1.00 up to 18.05, 0.98 up to 31.65, 0.95 beyond |
| Pace.AdjustedReferenceBounds | pages/Analisi.py:402 | the adjusted reference stays within 95 % and 105 % of the reference pace |
| Pace.AdjustedReferenceExample | pages/Analisi.py:402-403 | 4:30 min/km over 10 km becomes 4.635 min/km, which `decimal_pace_to_str` and the corrected rendering both write "4:38 min/km" |
| Reference.FastestRaceFrom | pages/Analisi.py:1454 | the index found is a race of greatest average speed, and there is one exactly when a race exists |
| Reference.DetectRaceSpec | pages/Analisi.py:1454 | the detected race is a race at least as fast as every race, and none is detected exactly when there is no race |
| Reference.DetectedReference | pages/Analisi.py:1460-1489 | a race with a zero speed raises ZeroDivisionError in the race display; otherwise there is a reference exactly when a race was found, its pace is `speed_to_pace` of the race's speed (pace times speed is 60) and its distance the race's |
| Reference.ManualReference | pages/Analisi.py:1500-1509 | the manual pace is minutes + seconds/60 within [2, 11) min/km, over 5 to 100 km |
| Reference.SelectReference | pages/Analisi.py:1511-1535 | the detected race's reference when there is one and it stays selected; the manual entry when there is none or it is chosen |
| Reference.SelectedPacePositive | pages/Analisi.py:1460-1535 | with positive race speeds the detection does not raise and the selected reference pace is positive |
| Intensity.LabelIntensity | pages/Analisi.py:341-347 | "Alta" exactly at index ≤ 0.95, "Moderada" exactly in (0.95, 1.15], "Baixa" exactly above 1.15 |
| Intensity.LabelExt | pages/Analisi.py:341-347 | on a column value NaN and +inf fail both comparisons and get "Baixa" |
| Intensity.LabelIntensityMonotone | pages/Analisi.py:341-347 | a larger index never gives a harder label |
| Intensity.ZoneByPace | pages/Analisi.py:407-409 | with a positive reference a run is hard exactly at pace ≤ 95 % of it and easy exactly above 115 %; a run without pace is easy |
| Intensity.ZoneOf | pages/Analisi.py:413-418 | an activity with zero speed has no pace and counts as easy |
| Intensity.ZoneCountsAddUp | pages/Analisi.py:409 | every row has exactly one of the three labels |
| Intensity.EasyShare | pages/Analisi.py:525 | the easy share is in [0, 100], 0 exactly when no row is easy, 100 exactly when all are |
| Intensity.EasyPercentage | pages/Analisi.py:361-369 | 0.0 for no rows; otherwise the easy share rounded half to even to one decimal (so within 0.05 of it), in [0, 100] |
| Intensity.EasyColourThreshold | pages/Analisi.py:1569 | the page's `easy_percentage >= 80` holds exactly when the easy share is at least 79.95 % |
| Intensity.AnalyzeIntensityDistribution | pages/Analisi.py:519-533 | ZeroDivisionError exactly for no rows; otherwise the easy share and its distance from 80 |
| Intensity.MeanSkipNa | pages/Analisi.py:357 | the mean exists exactly when some heart rate is present |
| Intensity.HrLabel | pages/Analisi.py:358 | a missing heart rate or mean compares false and is "Hard" |
| Intensity.HrLabelMonotone | pages/Analisi.py:358 | a higher heart rate never gets an easier label; a heart rate at the mean is "Moderate" |
| Intensity.SomeAtLeastMean | pages/Analisi.py:357 | some present heart rate is at least the mean |
| Intensity.HrNotAllEasy | pages/Analisi.py:357-358 | with a positive mean some activity is not labelled "Easy" |
| Intensity.WeekZoneKeyDecodes | pages/Analisi.py:1575-1580 | the group key determines the week and the zone, and is ordered by week, then zone |
| Intensity.IntensityByWeekSpec | pages/Analisi.py:1575-1580 | the zone counts add up to the number of labelled sessions, and each row counts the sessions of its week and zone, at least one |
| Display.Mod60 | app.py:369-371 | `x % 60` is in [0, 60) and `x // 60` sixties plus it give x back |
| Display.MovingTimeLabelSpec | app.py:369-371 | an hour or more is written as hours and minutes below 60 adding up to the whole minutes; less as the whole minutes |
| Display.RaceTimeLabelSpec | pages/Analisi.py:1469-1471 | a race time is written `h:mm`, two-digit minutes below 60, adding up to the whole minutes |
| Display.SpeedPaceLabel | app.py:376-378 | a zero speed raises ZeroDivisionError at `60/x`, any other gives a label |
| Display.SpeedPaceLabelSpec | pages/Analisi.py:1472-1474 | a positive speed is written `m:ss`, seconds below 60, the pace truncated to whole seconds |
| Display.SpeedPaceLabelTruncates | app.py:376-378 | 13 km/h is written "4:36 min/km" here but "4:37 min/km" by `decimal_pace_to_str` |
| Summary.TrainingSummaryFailures | pages/Analisi.py:543-545 | the summary fails exactly when there is no week (KeyError, checked first) or no run (ZeroDivisionError) |
| Summary.VolumeVerdictSpec | pages/Analisi.py:556-561 | the volume box warns exactly when more than half of the weeks changed by more than 15 % |
| Summary.RecoveryVerdictSpec | pages/Analisi.py:563-573 | the recovery box: none; a recovery at least every other week; fewer than one in five weeks; or in between |
| Summary.FrequencyVerdictSpec | pages/Analisi.py:578-583 | the frequency box praises exactly a finite cv below 25, and then quotes the mode |
| Summary.SteadyWeeksAreConsistent | pages/Analisi.py:578-580 | the same positive number of sessions every week is consistent at that number |
| Summary.IntensityVerdictSpec | pages/Analisi.py:588-597 | good balance exactly for 70-90 % easy, too intense below 70 %, unbalanced above 90 % |
| Summary.PageModeSessions | pages/Analisi.py:1330-1334 | the page's own `mode()[0]` of the weekly session counts raises KeyError exactly for an empty period, and is otherwise the smallest of the most frequent counts |
| Summary.PageSummaryFailures | pages/Analisi.py:1672 | an empty period has raised before the summary; with activities the summary fails exactly when there is no run or hike, with ZeroDivisionError |
| Frames.ActivityFrame.AddAveragePace | pages/Analisi.py:1538 | the pace column is added from the speeds, and nothing else changes |
| Frames.ActivityFrame.AddIntensityIndex | pages/Analisi.py:371-411 | ValueError and no change without the pace column; otherwise the index and zone columns are written and the adjusted reference is returned as `decimal_pace_to_str` writes it |
| Frames.ActivityFrame.AddHrIntensity | pages/Analisi.py:349-359 | the heart-rate label column is added, and nothing else changes |
| Frames.ZoneColumnOfActivities | pages/Analisi.py:407-409 | the zone a frame row gets is its activity's zone |
| Frames.IntensityOfRuns | pages/Analisi.py:1538-1539 | the zones of the runs and hikes are those the summary uses, and the text is `decimal_pace_to_str` of the adjusted reference pace |
| Frames.HrColumnNotAllEasy | pages/Analisi.py:357-358 | with a positive mean heart rate some row of the column is not "Easy" |
| Frames.WeekTable.AddPctChanges | pages/Analisi.py:922-923 | the distance and time change columns are the changes of those columns |
| Frames.WeekTable.ConvertTimeToHours | pages/Analisi.py:1025 | the time column is divided by 60; the change columns stay as they are |
| Frames.ConversionKeepsChanges | app.py:304 | the conversion to hours changes only the time column, and its changes stay the same |
| Frames.WeeklyChanges | pages/Analisi.py:910-1025 | the distance changes are those the volume analysis classifies, and the time changes are those of the hours |
| Frames.PaceLabels | app.py:376-378 | the column fails with ZeroDivisionError exactly when some speed is zero, and otherwise has one label per row |
| Frames.LongestRunsTable.FormatMovingTime | app.py:369-371 | the moving-time column becomes its labels |
| Frames.LongestRunsTable.FormatPace | app.py:376-378 | the pace column becomes its labels, or stays as it was and the ZeroDivisionError is returned |

## Left out

- Fetching activities from Strava (OAuth, paging, the rate-limit loop), Supabase storage, segments, the OpenAI text, the Plotly charts and every Streamlit widget are I/O and are not modelled. Inputs the user picks (period, types, ranges, race entry, radio choice) are parameters.
- Parsing the timestamps (`pd.to_datetime`) is not modelled: an activity carries an already parsed date and time.
- Floating point is modelled by exact reals. Binary rounding, e.g. of `round(x, 1)` or of the `/1000`, `/60` and `* 3.6` conversions, is not modelled. NaN and infinities are modelled only where they decide a branch.
- Missing (NaN) speeds, distances and times are not modelled: those columns are reals. Only the optional keys are `Option`s.
- Frequency.CvSquared: the coefficient of variation is kept as its square, because the model has no square root. Frequency.CvThreshold shows that the verdict's test `cv < 25` is the same as `cvSquared < 625`.
- Weekly.LongestIndex and Reference.FastestRaceFrom pick the first of tied rows. The source's unstable sort promises only some row of greatest value, and the contract of Reference.FastestRaceFrom states only that. The order among tied rows after pandas' sorts and group applies is not modelled beyond that.
- The longest-run table of the analysis page is sorted by date, newest first, before it is shown (pages/Analisi.py:1160). That display order is not modelled; the rows and their text columns are.
- Weekly.SortByDistanceDesc: the sort is proved sorted and a permutation; whether tied rows keep their order (stability) is not stated.
- The distance labels (`f"{x:.1f} km"`, `f"{int(x)} km"`), the date label `strftime('%d/%m/%Y')` and the `S{week:02d}` week labels are not modelled.
- `avg_sessions`, the average runs per week, `race_speed_manual` (computed, never used by the analysis) and the `highlight_high_percentage` styling are not modelled.
- The case where every speed is missing is not modelled: there `average_pace` would be a column of None rather than floats.
- `add_hr_intensity_index` is modelled (Frames.ActivityFrame.AddHrIntensity), though the pages never call it.
- Frames.IntensityOfRuns builds the pace column on the run and hike rows only; the page builds it on all rows and then selects. A row's pace depends on that row alone, so the values are the same.
- Concurrency and Streamlit's session state are not modelled.

## Findings

| source | as written | input that shows it | evidently intended | confidence | as-written member | corrected member |
|---|---|---|---|---|---|---|
| pages/Analisi.py:336-338 | `decimal_pace_to_str` truncates the minutes, then rounds the seconds of the fraction separately, so a fraction that rounds to 60 s is printed as 60 | pace 4.995 min/km gives "4:60 min/km" | round the pace to whole seconds first, then split: "5:00 min/km" | not executed | Pace.DecimalPaceSixtySeconds | Pace.PaceLabelSpec |

The page reaches this case: Pace.ReferenceSixtySeconds shows that a
4:51 min/km reference over 10 km is adjusted to 4.9955 min/km and shown
as "4:60 min/km". The model of `add_intensity_index` keeps the text as
written (Frames.ActivityFrame.AddIntensityIndex). The corrected rendering,
Pace.PaceLabel, stands beside it: Pace.PaceLabelAgrees shows the two
renderings agree whenever the seconds as written stay below 60, and
Pace.PaceLabelCarries shows the corrected text for 4.995.
