/** Paces (minutes per km) and speeds (km/h), the text form of a pace, and
    the distance-adjusted reference pace (pages/Analisi.py 322-338, 389-418). */
module Pace {
  import opened Wrappers
  import opened Exceptions
  import opened Text

  /** `pace_to_speed(minutes, seconds)`: 60 / (minutes + seconds / 60); a
      zero pace raises ZeroDivisionError. */
  function PaceToSpeed(minutes: real, seconds: real): (r: Result<real, PyError>)
    ensures r.Success? <==> minutes + seconds / 60.0 != 0.0
    ensures r.Failure? ==> r.error == ZeroDivisionError
    ensures r.Success? ==> r.value * (minutes + seconds / 60.0) == 60.0
  {
    var totalMinutes := minutes + seconds / 60.0;
    if totalMinutes == 0.0 then Failure(ZeroDivisionError) else Success(60.0 / totalMinutes)
  }

  /** `speed_to_pace`: no pace for a missing or zero speed; any other speed,
      negative ones included, gives 60 / speed. */
  function SpeedToPace(speed: Option<real>): (r: Option<real>)
    ensures r.Some? <==> speed.Some? && speed.value != 0.0
    ensures r.Some? ==> r.value * speed.value == 60.0
  {
    match speed
    case None => None
    case Some(v) => if v == 0.0 then None else Some(60.0 / v)
  }

  /** A positive pace turned into a speed and back is the same pace. */
  lemma PaceSpeedRoundTrip(minutes: real, seconds: real)
    requires minutes + seconds / 60.0 > 0.0
    ensures PaceToSpeed(minutes, seconds).Success?
    ensures SpeedToPace(Some(PaceToSpeed(minutes, seconds).value)) == Some(minutes + seconds / 60.0)
  {
    var p := minutes + seconds / 60.0;
    var v := PaceToSpeed(minutes, seconds).value;
    assert v != 0.0;
    assert v == 60.0 / p;
    assert 60.0 / (60.0 / p) == p;
  }

  /** A non-zero speed turned into a pace and back is the same speed. */
  lemma SpeedPaceRoundTrip(speed: real)
    requires speed != 0.0
    ensures SpeedToPace(Some(speed)).Some?
    ensures PaceToSpeed(SpeedToPace(Some(speed)).value, 0.0) == Success(speed)
  {
    var p := SpeedToPace(Some(speed)).value;
    assert p != 0.0;
    assert p == 60.0 / speed;
    assert p + 0.0 / 60.0 == p;
    assert 60.0 / (60.0 / speed) == speed;
  }

  /** `decimal_pace_to_str` as written: whole minutes by truncation, then the
      fraction of a minute rounded to seconds separately, so a fraction
      that rounds up to 60 s is printed as 60. */
  function DecimalPaceToStr(pace: real): (s: string)
    ensures 0.0 <= pace ==>
              var m, sec := Trunc(pace), RoundHalfEven((pace - Trunc(pace) as real) * 60.0);
              && 0 <= sec <= 60
              && s == NatToString(m) + ":" + Pad2(sec) + " min/km"
  {
    var minutes := Trunc(pace);
    var seconds := RoundHalfEven((pace - minutes as real) * 60.0);
    IntToString(minutes) + ":" + Pad2(seconds) + " min/km"
  }

  /** The two renderings in the docstring of `decimal_pace_to_str`. */
  lemma DecimalPaceExamples()
    ensures DecimalPaceToStr(5.5) == "5:30 min/km"
    ensures DecimalPaceToStr(4.25) == "4:15 min/km"
  {
    assert Trunc(5.5) == 5 && RoundHalfEven(0.5 * 60.0) == 30;
    assert NatToString(30) == "30";
    assert Trunc(4.25) == 4 && RoundHalfEven(0.25 * 60.0) == 15;
    assert NatToString(15) == "15";
  }

  /** A pace just under five minutes is printed with 60 seconds. */
  lemma DecimalPaceSixtySeconds()
    ensures DecimalPaceToStr(4.995) == "4:60 min/km"
  {
    assert Trunc(4.995) == 4;
    assert (4.995 - 4.0) * 60.0 == 59.7;
    assert RoundHalfEven(59.7) == 60;
    assert NatToString(60) == "60";
  }

  /** The page reaches that case: a manual reference of 4:51 min/km over
      10 km is adjusted to 4.9955 min/km, printed "4:60 min/km". */
  lemma ReferenceSixtySeconds()
    ensures AdjustedReferencePace(4.85, 10.0) == 4.9955
    ensures DecimalPaceToStr(4.9955) == "4:60 min/km"
  {
    FactorByDistance(10.0);
    assert Trunc(4.9955) == 4;
    assert (4.9955 - 4.0) * 60.0 == 59.73;
    assert RoundHalfEven(59.73) == 60;
    assert NatToString(60) == "60";
  }

  /** The intended rendering: the pace rounded to whole seconds, then split
      into minutes and seconds, so the seconds stay below 60. */
  function PaceLabel(pace: real): string {
    var total := RoundHalfEven(pace * 60.0);
    var magnitude := if total < 0 then -total else total;
    (if total < 0 then "-" else "") + NatToString(magnitude / 60) + ":" + Pad2(magnitude % 60)
      + " min/km"
  }

  /** A non-negative pace is printed as `m:ss` with `ss` below 60, and
      `m:ss` is the pace to the nearest second. */
  lemma PaceLabelSpec(pace: real)
    requires 0.0 <= pace
    ensures exists m: nat, sec: nat ::
              && sec < 60
              && PaceLabel(pace) == NatToString(m) + ":" + Pad2(sec) + " min/km"
              && pace * 60.0 - 0.5 <= (m * 60 + sec) as real <= pace * 60.0 + 0.5
  {
    var total := RoundHalfEven(pace * 60.0);
    assert total >= 0;
    var m: nat, sec: nat := total / 60, total % 60;
    assert m * 60 + sec == total;
    assert PaceLabel(pace) == NatToString(m) + ":" + Pad2(sec) + " min/km";
  }

  /** Where the as-written seconds stay below 60 the two renderings agree. */
  lemma PaceLabelAgrees(pace: real)
    requires 0.0 <= pace
    requires RoundHalfEven((pace - Trunc(pace) as real) * 60.0) < 60
    ensures PaceLabel(pace) == DecimalPaceToStr(pace)
  {
    var m := Trunc(pace);
    var sec := RoundHalfEven((pace - m as real) * 60.0);
    RoundHalfEvenShift(m * 60, (pace - m as real) * 60.0);
    assert (m * 60) as real + (pace - m as real) * 60.0 == pace * 60.0;
    var total := RoundHalfEven(pace * 60.0);
    assert total == m * 60 + sec;
    assert 0 <= sec;
    assert total / 60 == m && total % 60 == sec;
  }

  /** The pace of the finding above, rendered as intended. */
  lemma PaceLabelCarries()
    ensures PaceLabel(4.995) == "5:00 min/km"
  {
    assert RoundHalfEven(4.995 * 60.0) == 300;
    assert NatToString(5) == "5" && NatToString(0) == "0";
  }

  /** The race distances (km) of `distance_factors`, in insertion order,
      and their pace factors. */
  const RaceDistances: seq<real> := [5.0, 10.0, 15.0, 21.1, 42.2]
  const DistanceFactors: seq<real> := [1.05, 1.03, 1.00, 0.98, 0.95]

  function Gap(a: real, b: real): real {
    if a <= b then b - a else a - b
  }

  /** `min(keys, key=lambda d: abs(d - race_distance))`: the first key at the
      smallest distance from the race, as `min` keeps the first minimum. */
  function ClosestIndex(keys: seq<real>, race: real): (k: nat)
    requires keys != []
    ensures k < |keys|
    ensures forall i :: 0 <= i < |keys| ==> Gap(keys[k], race) <= Gap(keys[i], race)
    ensures forall i :: 0 <= i < k ==> Gap(keys[i], race) > Gap(keys[k], race)
  {
    if |keys| == 1 then 0
    else
      var k := ClosestIndex(keys[1..], race) + 1;
      if Gap(keys[0], race) <= Gap(keys[k], race) then 0 else k
  }

  function Factor(race: real): real {
    DistanceFactors[ClosestIndex(RaceDistances, race)]
  }

  /** `reference_pace * factor`. */
  function AdjustedReferencePace(referencePace: real, raceDistance: real): real {
    referencePace * Factor(raceDistance)
  }

  /** The factor by race distance: each table distance owns the race
      distances up to the midpoint with the next one, a midpoint going to
      the shorter distance. */
  lemma FactorByDistance(race: real)
    ensures race <= 7.5 ==> Factor(race) == 1.05
    ensures 7.5 < race <= 12.5 ==> Factor(race) == 1.03
    ensures 12.5 < race <= 18.05 ==> Factor(race) == 1.00
    ensures 18.05 < race <= 31.65 ==> Factor(race) == 0.98
    ensures 31.65 < race ==> Factor(race) == 0.95
  {
    var k := ClosestIndex(RaceDistances, race);
    assert Gap(RaceDistances[k], race) <= Gap(RaceDistances[0], race);
    assert Gap(RaceDistances[k], race) <= Gap(RaceDistances[1], race);
    assert Gap(RaceDistances[k], race) <= Gap(RaceDistances[2], race);
    assert Gap(RaceDistances[k], race) <= Gap(RaceDistances[3], race);
    assert Gap(RaceDistances[k], race) <= Gap(RaceDistances[4], race);
    assert k > 0 ==> Gap(RaceDistances[0], race) > Gap(RaceDistances[k], race);
    assert k > 1 ==> Gap(RaceDistances[1], race) > Gap(RaceDistances[k], race);
    assert k > 2 ==> Gap(RaceDistances[2], race) > Gap(RaceDistances[k], race);
    assert k > 3 ==> Gap(RaceDistances[3], race) > Gap(RaceDistances[k], race);
  }

  /** The adjustment moves a non-negative pace by at most 5 % either way. */
  lemma AdjustedReferenceBounds(referencePace: real, raceDistance: real)
    requires 0.0 <= referencePace
    ensures 0.95 * referencePace <= AdjustedReferencePace(referencePace, raceDistance)
                                 <= 1.05 * referencePace
  {
    FactorByDistance(raceDistance);
  }

  /** 4:30 min/km over 10 km becomes 4.635 min/km, written 4:38 min/km both
      as the page writes it and as intended. */
  lemma AdjustedReferenceExample()
    ensures AdjustedReferencePace(4.5, 10.0) == 4.635
    ensures PaceLabel(4.635) == "4:38 min/km"
    ensures DecimalPaceToStr(4.635) == "4:38 min/km"
  {
    FactorByDistance(10.0);
    assert RoundHalfEven(4.635 * 60.0) == 278;
    assert NatToString(4) == "4" && NatToString(38) == "38";
    assert Trunc(4.635) == 4;
    assert RoundHalfEven((4.635 - 4.0) * 60.0) == 38;
    assert IntToString(4) == "4" && Pad2(38) == "38";
  }
}
