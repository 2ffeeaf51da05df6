/** Strava activity records and their normalisation into the analysis's
    rows (pages/Analisi.py `get_activities`, and the same loop in app.py). */
module Activities {
  import opened Wrappers
  import opened Exceptions
  import opened Calendar

  /** The `athlete` object nested in a Strava record. */
  datatype RawAthlete = RawAthlete(id: Option<int>)

  /** A Strava summary activity as a JSON object: every key may be absent.
      Distances are in metres, times in seconds, speeds in m/s; the start is
      the already-parsed `start_date_local`. */
  datatype RawActivity = RawActivity(
    athlete: Option<RawAthlete>,
    id: Option<int>,
    name: Option<string>,
    activityType: Option<string>,        // "type", e.g. "Run"
    sportType: Option<string>,           // "sport_type", e.g. "TrailRun"
    startDateLocal: Option<LocalDateTime>,
    distance: Option<real>,
    movingTime: Option<real>,
    elapsedTime: Option<real>,
    totalElevationGain: Option<real>,
    averageSpeed: Option<real>,
    maxSpeed: Option<real>,
    averageHeartrate: Option<real>,
    maxHeartrate: Option<real>,
    elevHigh: Option<real>,
    elevLow: Option<real>,
    averageTemp: Option<real>,
    workoutType: Option<int>)

  /** One row of the activities table: kilometres, minutes and km/h. */
  datatype Activity = Activity(
    athleteId: int,
    id: int,
    name: string,
    sport: string,                       // column "sport", from "type"
    sportType: string,                   // column "type", from "sport_type"
    start: LocalDateTime,                // column "datetime_local"
    distance: real,                      // km
    movingTime: real,                    // minutes
    elapsedTime: real,                   // minutes
    elevationGain: real,                 // metres
    averageSpeed: real,                  // km/h
    maxSpeed: real,                      // km/h
    averageHeartrate: Option<real>,
    maxHeartrate: Option<real>,
    elevHigh: Option<real>,
    elevLow: Option<real>,
    averageTemp: Option<real>,
    workoutType: Option<int>)

  /** Every key that the normalisation reads with `[...]` is present. */
  predicate HasRequiredKeys(r: RawActivity) {
    && r.athlete.Some? && r.athlete.value.id.Some?
    && r.id.Some? && r.name.Some? && r.activityType.Some? && r.sportType.Some?
    && r.startDateLocal.Some? && r.distance.Some? && r.movingTime.Some?
    && r.elapsedTime.Some? && r.totalElevationGain.Some?
    && r.averageSpeed.Some? && r.maxSpeed.Some?
  }

  /** The keys read with `[...]`, in the order the dictionary literal
      evaluates them. */
  const RequiredKeys: seq<string> :=
    ["athlete", "id", "name", "type", "sport_type", "start_date_local", "distance",
     "moving_time", "elapsed_time", "total_elevation_gain", "average_speed", "max_speed"]

  /** Builds one row; a missing key raises KeyError for the first missing key
      in evaluation order (`activity["athlete"]["id"]` raises for "id" when
      the athlete object lacks it). */
  function NormalizeRecord(r: RawActivity): (res: Result<Activity, PyError>)
    ensures res.Success? <==> HasRequiredKeys(r)
    ensures res.Failure? ==> res.error.KeyError? && res.error.key.Name? && res.error.key.name in RequiredKeys
    ensures res.Success? ==>
              var a := res.value;
              && a.athleteId == r.athlete.value.id.value && a.id == r.id.value
              && a.name == r.name.value && a.sport == r.activityType.value
              && a.sportType == r.sportType.value && a.start == r.startDateLocal.value
              && a.distance * 1000.0 == r.distance.value
              && a.movingTime * 60.0 == r.movingTime.value
              && a.elapsedTime * 60.0 == r.elapsedTime.value
              && a.elevationGain == r.totalElevationGain.value
              && a.averageSpeed / 3.6 == r.averageSpeed.value
              && a.maxSpeed / 3.6 == r.maxSpeed.value
    ensures res.Success? ==>
              var a := res.value;
              && a.averageHeartrate == r.averageHeartrate && a.maxHeartrate == r.maxHeartrate
              && a.elevHigh == r.elevHigh && a.elevLow == r.elevLow
              && a.averageTemp == r.averageTemp && a.workoutType == r.workoutType
  {
    if r.athlete.None? then Failure(KeyError(Name("athlete")))
    else if r.athlete.value.id.None? then Failure(KeyError(Name("id")))
    else if r.id.None? then Failure(KeyError(Name("id")))
    else if r.name.None? then Failure(KeyError(Name("name")))
    else if r.activityType.None? then Failure(KeyError(Name("type")))
    else if r.sportType.None? then Failure(KeyError(Name("sport_type")))
    else if r.startDateLocal.None? then Failure(KeyError(Name("start_date_local")))
    else if r.distance.None? then Failure(KeyError(Name("distance")))
    else if r.movingTime.None? then Failure(KeyError(Name("moving_time")))
    else if r.elapsedTime.None? then Failure(KeyError(Name("elapsed_time")))
    else if r.totalElevationGain.None? then Failure(KeyError(Name("total_elevation_gain")))
    else if r.averageSpeed.None? then Failure(KeyError(Name("average_speed")))
    else if r.maxSpeed.None? then Failure(KeyError(Name("max_speed")))
    else
      Success(Activity(
        r.athlete.value.id.value, r.id.value, r.name.value, r.activityType.value,
        r.sportType.value, r.startDateLocal.value,
        r.distance.value / 1000.0, r.movingTime.value / 60.0, r.elapsedTime.value / 60.0,
        r.totalElevationGain.value, r.averageSpeed.value * 3.6, r.maxSpeed.value * 3.6,
        r.averageHeartrate, r.maxHeartrate, r.elevHigh, r.elevLow, r.averageTemp,
        r.workoutType))
  }

  /** The Strava record a row came from (every key present, units back to
      metres, seconds and m/s). */
  function ToRaw(a: Activity): RawActivity {
    RawActivity(
      Some(RawAthlete(Some(a.athleteId))), Some(a.id), Some(a.name), Some(a.sport),
      Some(a.sportType), Some(a.start), Some(a.distance * 1000.0),
      Some(a.movingTime * 60.0), Some(a.elapsedTime * 60.0), Some(a.elevationGain),
      Some(a.averageSpeed / 3.6), Some(a.maxSpeed / 3.6),
      a.averageHeartrate, a.maxHeartrate, a.elevHigh, a.elevLow, a.averageTemp,
      a.workoutType)
  }

  /** Normalising the record of a row gives the row back: the unit
      conversions lose nothing. */
  lemma NormalizeToRaw(a: Activity)
    ensures NormalizeRecord(ToRaw(a)) == Success(a)
  {
    var b := NormalizeRecord(ToRaw(a)).value;
    assert b.distance == a.distance && b.movingTime == a.movingTime;
    assert b.elapsedTime == a.elapsedTime;
    assert b.averageSpeed == a.averageSpeed && b.maxSpeed == a.maxSpeed;
  }

  /** The list the loop builds: one row per record, in order, or the
      KeyError of the first record that lacks a key. */
  function NormalizeAll(raws: seq<RawActivity>): Result<seq<Activity>, PyError>
    decreases |raws|
  {
    if raws == [] then Success([])
    else
      match NormalizeAll(raws[..|raws| - 1])
      case Failure(e) => Failure(e)
      case Success(prefix) =>
        match NormalizeRecord(raws[|raws| - 1])
        case Failure(e) => Failure(e)
        case Success(a) => Success(prefix + [a])
  }

  /** A failure in a prefix is the failure of the whole list. */
  lemma {:induction false} FailurePersists(raws: seq<RawActivity>, i: int)
    requires 0 <= i <= |raws| && NormalizeAll(raws[..i]).Failure?
    ensures NormalizeAll(raws) == NormalizeAll(raws[..i])
    decreases |raws| - i
  {
    if i < |raws| {
      assert raws[..i + 1][..i] == raws[..i];
      FailurePersists(raws, i + 1);
    } else {
      assert raws[..i] == raws;
    }
  }

  /** The normalisation loop of `get_activities`. */
  method GetActivities(raws: seq<RawActivity>) returns (res: Result<seq<Activity>, PyError>)
    ensures res == NormalizeAll(raws)
  {
    var activityData: seq<Activity> := [];
    var i := 0;
    while i < |raws|
      invariant 0 <= i <= |raws|
      invariant NormalizeAll(raws[..i]) == Success(activityData)
    {
      assert raws[..i + 1][..i] == raws[..i];
      var row := NormalizeRecord(raws[i]);
      if row.Failure? {
        FailurePersists(raws, i + 1);
        return Failure(row.error);
      }
      activityData := activityData + [row.value];
      i := i + 1;
    }
    assert raws[..i] == raws;
    return Success(activityData);
  }

  /** The list succeeds exactly when every record has its keys; then it has
      one row per record, row i being record i normalised. */
  lemma {:induction false} NormalizeAllRows(raws: seq<RawActivity>)
    ensures NormalizeAll(raws).Success? <==> forall i :: 0 <= i < |raws| ==> HasRequiredKeys(raws[i])
    ensures NormalizeAll(raws).Success? ==>
              && |NormalizeAll(raws).value| == |raws|
              && forall i :: 0 <= i < |raws| ==>
                   Success(NormalizeAll(raws).value[i]) == NormalizeRecord(raws[i])
    decreases |raws|
  {
    if raws != [] {
      var init := raws[..|raws| - 1];
      NormalizeAllRows(init);
      assert forall i :: 0 <= i < |init| ==> init[i] == raws[i];
    }
  }

  /** A failing list reports the KeyError of its first incomplete record. */
  lemma {:induction false} NormalizeAllFirstError(raws: seq<RawActivity>, j: int)
    requires 0 <= j < |raws| && !HasRequiredKeys(raws[j])
    requires forall i :: 0 <= i < j ==> HasRequiredKeys(raws[i])
    ensures NormalizeAll(raws) == Failure(NormalizeRecord(raws[j]).error)
  {
    var pre := raws[..j];
    NormalizeAllRows(pre);
    assert raws[..j + 1][..j] == pre;
    FailurePersists(raws, j + 1);
  }
}
