/** The reference pace of the intensity analysis (pages/Analisi.py
    1454-1535): the fastest race of the period, or a pace and distance
    entered by hand. */
module Reference {
  import opened Wrappers
  import opened Activities
  import opened Exceptions
  import opened Pace
  import opened Display

  /** A reference pace (min/km) and the distance (km) it was run over. */
  datatype RaceReference = RaceReference(pace: real, distance: real)

  /** Strava marks a race with `workout_type` 1; a missing value is NaN and
      compares unequal. */
  predicate IsRace(a: Activity) {
    a.workoutType == Some(1)
  }

  /** Index of the first race of greatest average speed among `acts[i..]`. */
  function FastestRaceFrom(acts: seq<Activity>, i: nat): (r: Option<nat>)
    requires i <= |acts|
    ensures r.Some? <==> exists j :: i <= j < |acts| && IsRace(acts[j])
    ensures r.Some? ==> i <= r.value < |acts| && IsRace(acts[r.value])
    ensures r.Some? ==> forall j :: i <= j < |acts| && IsRace(acts[j]) ==>
                          acts[j].averageSpeed <= acts[r.value].averageSpeed
    decreases |acts| - i
  {
    if i == |acts| then None
    else
      var rest := FastestRaceFrom(acts, i + 1);
      if !IsRace(acts[i]) then rest
      else if rest.None? || acts[i].averageSpeed >= acts[rest.value].averageSpeed then Some(i)
      else rest
  }

  /** `df[df['workout_type'] == 1].sort_values('average_speed',
      ascending=False).head(1)`: a race of greatest average speed, if any. */
  function DetectRace(acts: seq<Activity>): Option<Activity> {
    match FastestRaceFrom(acts, 0)
    case None => None
    case Some(k) => Some(acts[k])
  }

  /** The detected race is a race of the period at least as fast as every
      other race, and there is none exactly when the period has no race. */
  lemma DetectRaceSpec(acts: seq<Activity>)
    ensures DetectRace(acts).None? <==> forall j :: 0 <= j < |acts| ==> !IsRace(acts[j])
    ensures DetectRace(acts).Some? ==>
              var r := DetectRace(acts).value;
              && r in acts && IsRace(r)
              && forall a :: a in acts && IsRace(a) ==> a.averageSpeed <= r.averageSpeed
  {
    var k := FastestRaceFrom(acts, 0);
    if k.Some? {
      forall a | a in acts && IsRace(a) ensures a.averageSpeed <= acts[k.value].averageSpeed {
        var j :| 0 <= j < |acts| && acts[j] == a;
      }
    }
  }

  /** The detected reference. Before it reads the race's pace, the page
      shows the race with its speed written as a pace by the lambda of
      Display.SpeedPaceLabel, so a race with a zero speed raises
      ZeroDivisionError there, before `speed_to_pace` is reached. Otherwise
      the reference is the race's pace from its speed, and its distance. */
  function DetectedReference(acts: seq<Activity>): (r: Result<Option<RaceReference>, PyError>)
    ensures r.Failure? <==> DetectRace(acts).Some? && DetectRace(acts).value.averageSpeed == 0.0
    ensures r.Failure? ==> r.error == ZeroDivisionError
                           && SpeedPaceLabel(DetectRace(acts).value.averageSpeed) == Failure(r.error)
    ensures r.Success? ==> (r.value.Some? <==> DetectRace(acts).Some?)
    ensures r.Success? && r.value.Some? ==>
              Some(r.value.value.pace) == SpeedToPace(Some(DetectRace(acts).value.averageSpeed))
              && r.value.value.pace * DetectRace(acts).value.averageSpeed == 60.0
              && r.value.value.distance == DetectRace(acts).value.distance
  {
    match DetectRace(acts)
    case None => Success(None)
    case Some(race) =>
      if race.averageSpeed == 0.0 then Failure(ZeroDivisionError)
      else Success(Some(RaceReference(60.0 / race.averageSpeed, race.distance)))
  }

  /** The manual entry: minutes in 2..10, seconds in 0..59 and a distance in
      5..100 km, as the number inputs allow; the pace is
      `minutes + seconds / 60`. */
  function ManualReference(minutes: int, seconds: int, distanceKm: int): (r: RaceReference)
    requires 2 <= minutes <= 10 && 0 <= seconds <= 59 && 5 <= distanceKm <= 100
    ensures 2.0 <= r.pace < 11.0 && 5.0 <= r.distance <= 100.0
    ensures r.pace * 60.0 == (minutes * 60 + seconds) as real
  {
    RaceReference(minutes as real + seconds as real / 60.0, distanceKm as real)
  }

  /** The radio choice: the detected race when there is one and it is kept
      selected (the default), the manual entry otherwise. */
  function SelectReference(detected: Option<RaceReference>, manual: RaceReference,
                           manualChosen: bool): (r: RaceReference)
    ensures detected.None? || manualChosen ==> r == manual
    ensures detected.Some? && !manualChosen ==> r == detected.value
  {
    if detected.Some? && !manualChosen then detected.value else manual
  }

  /** With positive race speeds the detection does not raise, and a
      manual pace of at least two minutes gives a positive reference pace,
      whichever is selected. */
  lemma SelectedPacePositive(acts: seq<Activity>, minutes: int, seconds: int, distanceKm: int,
                             manualChosen: bool)
    requires 2 <= minutes <= 10 && 0 <= seconds <= 59 && 5 <= distanceKm <= 100
    requires forall a :: a in acts && IsRace(a) ==> a.averageSpeed > 0.0
    ensures DetectedReference(acts).Success?
    ensures SelectReference(DetectedReference(acts).value,
                            ManualReference(minutes, seconds, distanceKm), manualChosen).pace > 0.0
  {
    DetectRaceSpec(acts);
    var d := DetectedReference(acts);
    if d.Success? && d.value.Some? {
      var race := DetectRace(acts).value;
      assert d.value.value.pace * race.averageSpeed == 60.0;
    }
  }
}
