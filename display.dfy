/** The text labels of the longest-run and race tables: moving times
    (app.py 369-371, pages/Analisi.py 1469-1471) and paces from speeds
    (app.py 376-378, pages/Analisi.py 1472-1474). */
module Display {
  import opened Wrappers
  import opened Exceptions
  import opened Text
  import opened Pace

  /** Python's `x // 60` on a float: the floor of the quotient. */
  function FloorDiv60(x: real): int {
    (x / 60.0).Floor
  }

  /** Python's `x % 60` on a float: what is left after `x // 60` sixties,
      never negative. */
  function Mod60(x: real): (r: real)
    ensures 0.0 <= r < 60.0
    ensures FloorDiv60(x) as real * 60.0 + r == x
  {
    x - FloorDiv60(x) as real * 60.0
  }

  /** `f"{int(x//60)}h{int(x%60)}min" if x >= 60 else f"{int(x)}min"`. */
  function MovingTimeLabel(x: real): string {
    if x >= 60.0 then IntToString(FloorDiv60(x)) + "h" + IntToString(Trunc(Mod60(x))) + "min"
    else IntToString(Trunc(x)) + "min"
  }

  /** `f"{int(x//60)}:{int(x%60):02d}"`. */
  function RaceTimeLabel(x: real): string {
    IntToString(FloorDiv60(x)) + ":" + Pad2(Trunc(Mod60(x)))
  }

  /** Whole sixties and what is left, for a non-negative amount: the two
      parts give back its whole units, the second stays below 60. */
  lemma SplitSixty(x: real)
    requires 0.0 <= x
    ensures FloorDiv60(x) >= 0 && 0 <= Trunc(Mod60(x)) < 60
    ensures FloorDiv60(x) * 60 + Trunc(Mod60(x)) == x.Floor
  {
    var h := FloorDiv60(x);
    var r := Mod60(x);
    var m := r.Floor;
    assert h as real * 60.0 + r == x;
    assert (h * 60 + m) as real <= x < (h * 60 + m + 1) as real;
  }

  /** A time of an hour or more is shown as hours and minutes below 60 that
      add up to its whole minutes; a shorter one as its whole minutes. */
  lemma MovingTimeLabelSpec(x: real)
    requires 0.0 <= x
    ensures x >= 60.0 ==>
              exists h: nat, m: nat ::
                && 1 <= h && m < 60 && h * 60 + m == x.Floor
                && MovingTimeLabel(x) == NatToString(h) + "h" + NatToString(m) + "min"
    ensures x < 60.0 ==> MovingTimeLabel(x) == NatToString(x.Floor) + "min"
  {
    SplitSixty(x);
    if x >= 60.0 {
      var h: nat, m: nat := FloorDiv60(x), Trunc(Mod60(x));
      assert 1 <= h by {
        assert 1.0 <= x / 60.0;
      }
      assert MovingTimeLabel(x) == NatToString(h) + "h" + NatToString(m) + "min";
    }
  }

  /** A race time is shown as `h:mm`, the minutes as two digits below 60,
      and the two add up to its whole minutes. */
  lemma RaceTimeLabelSpec(x: real)
    requires 0.0 <= x
    ensures exists h: nat, m: nat ::
              && m < 60 && h * 60 + m == x.Floor
              && RaceTimeLabel(x) == NatToString(h) + ":" + Pad2(m)
              && |Pad2(m)| == 2 && ParseNat(Pad2(m)) == m
  {
    SplitSixty(x);
    var h: nat, m: nat := FloorDiv60(x), Trunc(Mod60(x));
    assert RaceTimeLabel(x) == NatToString(h) + ":" + Pad2(m);
  }

  /** Python's `p % 1` on a float: the part above the floor. */
  function Frac(p: real): (r: real)
    ensures 0.0 <= r < 1.0
  {
    p - p.Floor as real
  }

  /** `f"{int((60/x))}:{int((60/x)%1 * 60):02d} min/km"` on a speed: the
      whole minutes and the truncated seconds of the pace. `apply` hands
      each value to the lambda as a Python float, so a zero speed raises
      ZeroDivisionError at `60/x`. */
  function SpeedPaceLabel(x: real): (r: Result<string, PyError>)
    ensures r.Failure? <==> x == 0.0
    ensures r.Failure? ==> r.error == ZeroDivisionError
  {
    if x == 0.0 then Failure(ZeroDivisionError)
    else
      var p := 60.0 / x;
      Success(IntToString(Trunc(p)) + ":" + Pad2(Trunc(Frac(p) * 60.0)) + " min/km")
  }

  /** For a positive speed the label is `m:ss` with `ss` below 60, and
      `m:ss` is the pace of `speed_to_pace` truncated to whole seconds. */
  lemma SpeedPaceLabelSpec(x: real)
    requires x > 0.0
    ensures SpeedToPace(Some(x)).Some? && SpeedPaceLabel(x).Success?
    ensures var pace := SpeedToPace(Some(x)).value;
            exists m: nat, sec: nat ::
              && sec < 60
              && SpeedPaceLabel(x).value == NatToString(m) + ":" + Pad2(sec) + " min/km"
              && (m * 60 + sec) as real <= pace * 60.0 < (m * 60 + sec + 1) as real
  {
    var p := 60.0 / x;
    assert SpeedToPace(Some(x)).value == p;
    assert p > 0.0;
    var m: nat := Trunc(p);
    var sec: nat := Trunc(Frac(p) * 60.0);
    assert m == p.Floor;
    assert sec as real <= Frac(p) * 60.0 < sec as real + 1.0;
    assert Frac(p) * 60.0 == p * 60.0 - (m * 60) as real;
    assert SpeedPaceLabel(x).value == NatToString(m) + ":" + Pad2(sec) + " min/km";
  }

  /** The truncated label of a speed and the rounded label of the same
      pace can differ: 13 km/h is 4.615... min/km, shown as 4:36 here and
      as 4:37 by `decimal_pace_to_str`. */
  lemma SpeedPaceLabelTruncates()
    ensures SpeedPaceLabel(13.0) == Success("4:36 min/km")
    ensures DecimalPaceToStr(60.0 / 13.0) == "4:37 min/km"
  {
    var p := 60.0 / 13.0;
    assert Trunc(p) == 4;
    assert Frac(p) == 8.0 / 13.0;
    assert Trunc(Frac(p) * 60.0) == 36;
    assert NatToString(4) == "4" && NatToString(36) == "36";
    assert IntToString(4) == "4" && Pad2(36) == "36";
    assert "4" + ":" + "36" + " min/km" == "4:36 min/km";
    assert SpeedPaceLabel(13.0).value == IntToString(4) + ":" + Pad2(36) + " min/km";
    assert (p - 4.0) * 60.0 == 480.0 / 13.0;
    assert RoundHalfEven(480.0 / 13.0) == 37;
    assert NatToString(37) == "37";
  }
}
