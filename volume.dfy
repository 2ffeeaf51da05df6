/** Week-over-week change of the weekly sums (pages/Analisi.py 922-923) and
    `analyze_volume_progression` (472-498). */
module Volume {
  import opened Floats

  /** `Series.pct_change() * 100` at one week: `cur / prev - 1`, in
      percent; a zero previous week gives an infinity or NaN. */
  function PctChange(prev: real, cur: real): (r: Ext)
    ensures prev != 0.0 ==> r.Finite? && r.value * prev == (cur - prev) * 100.0
    ensures prev == 0.0 ==> r == Div(cur, 0.0)
  {
    match Div(cur, prev)
    case Finite(q) => Finite((q - 1.0) * 100.0)
    case other => other
  }

  /** The change column: undefined (NaN) for the first week. */
  function PctChanges(xs: seq<real>): (r: seq<Ext>)
    ensures |r| == |xs|
    ensures xs != [] ==> r[0] == NaN
    ensures forall i :: 1 <= i < |xs| ==> r[i] == PctChange(xs[i - 1], xs[i])
  {
    seq(|xs|, i requires 0 <= i < |xs| => if i == 0 then NaN else PctChange(xs[i - 1], xs[i]))
  }

  /** Dividing a column by a positive constant, as the conversion of the
      `Time` column from minutes to hours does, leaves its changes as they
      were. */
  lemma PctChangeScaleInvariant(prev: real, cur: real, c: real)
    requires c > 0.0
    ensures PctChange(prev / c, cur / c) == PctChange(prev, cur)
  {
    if prev != 0.0 {
      assert (cur / c) / (prev / c) == cur / prev;
    } else {
      assert cur / c > 0.0 <==> cur > 0.0;
      assert cur / c < 0.0 <==> cur < 0.0;
    }
  }

  function Scaled(xs: seq<real>, c: real): (ys: seq<real>)
    requires c > 0.0
    ensures |ys| == |xs| && forall i :: 0 <= i < |xs| ==> ys[i] == xs[i] / c
  {
    seq(|xs|, i requires 0 <= i < |xs| => xs[i] / c)
  }

  lemma PctChangesScaleInvariant(xs: seq<real>, c: real)
    requires c > 0.0
    ensures PctChanges(Scaled(xs, c)) == PctChanges(xs)
  {
    var ys := Scaled(xs, c);
    var a, b := PctChanges(ys), PctChanges(xs);
    forall i | 0 <= i < |xs| ensures a[i] == b[i] {
      if i > 0 {
        PctChangeScaleInvariant(xs[i - 1], xs[i], c);
      }
    }
  }

  /** `(abs(pct) >= 6) & (abs(pct) <= 15)`. */
  predicate IsIdeal(p: Ext) {
    AtLeast(Abs(p), 6.0) && AtMost(Abs(p), 15.0)
  }

  /** `abs(pct) > 15`. */
  predicate IsTooLarge(p: Ext) {
    Greater(Abs(p), 15.0)
  }

  /** `pct < -20`. */
  predicate IsRecovery(p: Ext) {
    Less(p, -20.0)
  }

  /** `mask.sum()`. */
  function CountWhere(ps: seq<Ext>, f: Ext -> bool): (n: nat)
    ensures n <= |ps|
  {
    if ps == [] then 0 else (if f(ps[0]) then 1 else 0) + CountWhere(ps[1..], f)
  }

  lemma {:induction false} CountWherePositive(ps: seq<Ext>, f: Ext -> bool)
    ensures CountWhere(ps, f) > 0 <==> exists i :: 0 <= i < |ps| && f(ps[i])
  {
    if ps != [] {
      CountWherePositive(ps[1..], f);
      if f(ps[0]) {
      } else if exists i :: 0 <= i < |ps| && f(ps[i]) {
        var i :| 0 <= i < |ps| && f(ps[i]);
        assert f(ps[1..][i - 1]);
      }
    }
  }

  /** Two masks that never hold together count every row at most once. */
  lemma {:induction false} CountWhereDisjoint(ps: seq<Ext>, f: Ext -> bool, g: Ext -> bool)
    requires forall i :: 0 <= i < |ps| ==> !(f(ps[i]) && g(ps[i]))
    ensures CountWhere(ps, f) + CountWhere(ps, g) <= |ps|
  {
    if ps != [] {
      CountWhereDisjoint(ps[1..], f, g);
    }
  }

  /** The result of `analyze_volume_progression`. */
  datatype VolumeAnalysis = VolumeAnalysis(
    pctIdealChanges: Ext, pctTooLarge: Ext, recoveryFreq: real, hasRecovery: bool)

  /** `analyze_volume_progression` on the `Distance` column. The
      percentages divide by the number of weeks, the first week (whose
      change is undefined) included; with no weeks they are 0/0, NaN. */
  function AnalyzeVolumeProgression(distances: seq<real>): VolumeAnalysis {
    var ps := PctChanges(distances);
    Summarize(|ps|, CountWhere(ps, IsIdeal), CountWhere(ps, IsTooLarge), CountWhere(ps, IsRecovery))
  }

  /** The shares and the recovery frequency from the week counts: the
      recovery frequency is `len(df) / max(recoveries, 1)`. */
  function Summarize(weeks: nat, ideal: nat, tooLarge: nat, recoveries: nat): VolumeAnalysis {
    var n := weeks as real;
    VolumeAnalysis(
      Scale(Div(ideal as real, n), 100.0),
      Scale(Div(tooLarge as real, n), 100.0),
      if recoveries > 0 then n / recoveries as real else n,
      recoveries > 0)
  }

  /** The first week has no change: it is neither ideal, too large nor a
      recovery week. */
  lemma FirstWeekUnclassified(distances: seq<real>)
    requires distances != []
    ensures var p := PctChanges(distances)[0];
            !IsIdeal(p) && !IsTooLarge(p) && !IsRecovery(p)
  {
  }

  /** A change is never both ideal and too large; with at least one week
      both percentages are finite, and together they stay below 100 because
      the first week counts in the denominator but never in a numerator. */
  lemma VolumeSharesBounded(distances: seq<real>)
    requires distances != []
    ensures var v := AnalyzeVolumeProgression(distances);
            && v.pctIdealChanges.Finite? && v.pctTooLarge.Finite?
            && 0.0 <= v.pctIdealChanges.value && 0.0 <= v.pctTooLarge.value
            && v.pctIdealChanges.value + v.pctTooLarge.value < 100.0
  {
    var ps := PctChanges(distances);
    assert !IsIdeal(ps[0]) && !IsTooLarge(ps[0]);
    CountWhereDisjoint(ps[1..], IsIdeal, IsTooLarge);
    var a, b := CountWhere(ps, IsIdeal), CountWhere(ps, IsTooLarge);
    assert a == CountWhere(ps[1..], IsIdeal) && b == CountWhere(ps[1..], IsTooLarge);
    SharesBelowWhole(a as real, b as real, |ps| as real);
  }

  lemma SharesBelowWhole(a: real, b: real, n: real)
    requires 0.0 <= a && 0.0 <= b && a + b <= n - 1.0 && n >= 1.0
    ensures 0.0 <= a / n * 100.0 && 0.0 <= b / n * 100.0
    ensures a / n * 100.0 + b / n * 100.0 < 100.0
  {
    assert a / n * 100.0 + b / n * 100.0 == (a + b) / n * 100.0;
    assert (a + b) / n < 1.0;
  }

  /** Among non-negative weekly distances, a recovery week follows a week
      with some distance and falls below 80 % of it. */
  lemma RecoveryWeek(prev: real, cur: real)
    requires 0.0 <= prev && 0.0 <= cur
    ensures IsRecovery(PctChange(prev, cur)) <==> 0.0 < prev && cur < 0.8 * prev
  {
    if prev > 0.0 {
      assert PctChange(prev, cur) == Finite((cur / prev - 1.0) * 100.0);
      QuotientCompare(cur, prev, 0.8);
    }
  }

  /** With a positive previous week, a change is ideal exactly when the new
      week is 6-15 % above or below it, and too large exactly when it is
      more than 15 % away. */
  lemma ChangeClasses(prev: real, cur: real)
    requires 0.0 < prev
    ensures IsIdeal(PctChange(prev, cur)) <==>
              (1.06 * prev <= cur <= 1.15 * prev || 0.85 * prev <= cur <= 0.94 * prev)
    ensures IsTooLarge(PctChange(prev, cur)) <==> (cur > 1.15 * prev || cur < 0.85 * prev)
  {
    var q := cur / prev;
    assert PctChange(prev, cur) == Finite((q - 1.0) * 100.0);
    QuotientCompare(cur, prev, 1.06);
    QuotientCompare(cur, prev, 1.15);
    QuotientCompare(cur, prev, 0.85);
    QuotientCompare(cur, prev, 0.94);
  }

  lemma QuotientCompare(x: real, y: real, c: real)
    requires 0.0 < y
    ensures x / y <= c <==> x <= c * y
    ensures x / y < c <==> x < c * y
  {
    var q := x / y;
    assert q * y == x;
    if q <= c {
      assert q * y <= c * y;
    } else {
      assert q * y > c * y;
    }
    if q < c {
      assert q * y < c * y;
    } else {
      assert q * y >= c * y;
    }
  }

  /** `has_recovery` holds exactly when some week after the first drops by
      more than 20 %. */
  lemma HasRecoverySpec(distances: seq<real>)
    ensures AnalyzeVolumeProgression(distances).hasRecovery <==>
              exists i :: 1 <= i < |distances| && IsRecovery(PctChange(distances[i - 1], distances[i]))
  {
    var ps := PctChanges(distances);
    CountWherePositive(ps, IsRecovery);
    if exists i :: 1 <= i < |distances| && IsRecovery(PctChange(distances[i - 1], distances[i])) {
      var i :| 1 <= i < |distances| && IsRecovery(PctChange(distances[i - 1], distances[i]));
      assert IsRecovery(ps[i]);
    }
  }

  /** The recovery frequency is weeks per recovery week, above one since the
      first week is never a recovery week, and the number of weeks when
      there is none. */
  lemma RecoveryFreqSpec(distances: seq<real>)
    ensures var v := AnalyzeVolumeProgression(distances);
            var r := CountWhere(PctChanges(distances), IsRecovery);
            && (!v.hasRecovery ==> v.recoveryFreq == |distances| as real)
            && (v.hasRecovery ==> r > 0 && v.recoveryFreq == |distances| as real / r as real
                                  && v.recoveryFreq > 1.0)
  {
    var ps := PctChanges(distances);
    var r := CountWhere(ps, IsRecovery);
    if r > 0 {
      assert r <= |ps| - 1 by {
        assert ps != [] && !IsRecovery(ps[0]);
        assert r == CountWhere(ps[1..], IsRecovery);
      }
    }
    var v := Summarize(|ps|, CountWhere(ps, IsIdeal), CountWhere(ps, IsTooLarge), r);
    SummarizeRecovery(|ps|, CountWhere(ps, IsIdeal), CountWhere(ps, IsTooLarge), r);
    assert AnalyzeVolumeProgression(distances) == v;
  }

  lemma SummarizeRecovery(weeks: nat, ideal: nat, tooLarge: nat, recoveries: nat)
    requires recoveries > 0 ==> recoveries < weeks
    ensures var v := Summarize(weeks, ideal, tooLarge, recoveries);
            && (recoveries == 0 ==> !v.hasRecovery && v.recoveryFreq == weeks as real)
            && (recoveries > 0 ==> v.hasRecovery && v.recoveryFreq == weeks as real / recoveries as real
                                   && v.recoveryFreq > 1.0)
  {
    if recoveries > 0 {
      FrequencyAboveOne(recoveries as real, weeks as real);
    }
  }

  lemma FrequencyAboveOne(r: real, n: real)
    requires 1.0 <= r <= n - 1.0
    ensures n / r > 1.0
  {
  }

  lemma VolumeExampleChanges()
    ensures PctChanges([100.0, 105.0, 40.0, 95.0])
            == [NaN, Finite(5.0), Finite((40.0 / 105.0 - 1.0) * 100.0), Finite(137.5)]
  {
    var ps := PctChanges([100.0, 105.0, 40.0, 95.0]);
    assert ps[1] == PctChange(100.0, 105.0) == Finite(5.0);
    assert ps[2] == PctChange(105.0, 40.0);
    assert ps[3] == PctChange(40.0, 95.0) == Finite(137.5);
  }

  /** A build with one sharp drop and one sharp rise: two of four weeks are
      too large, none ideal, one recovery week in four. */
  lemma VolumeExample(distances: seq<real>)
    requires distances == [100.0, 105.0, 40.0, 95.0]
    ensures AnalyzeVolumeProgression(distances)
            == VolumeAnalysis(Finite(0.0), Finite(50.0), 4.0, true)
  {
    VolumeExampleChanges();
    var drop := (40.0 / 105.0 - 1.0) * 100.0;
    assert drop < -60.0 by {
      assert 40.0 / 105.0 < 0.4;
    }
    VolumeExampleCounts(drop);
    var ps := PctChanges(distances);
    assert |ps| == 4;
    assert CountWhere(ps, IsIdeal) == 0 && CountWhere(ps, IsTooLarge) == 2
           && CountWhere(ps, IsRecovery) == 1;
    assert AnalyzeVolumeProgression(distances) == Summarize(4, 0, 2, 1);
    SummarizeExample();
  }

  lemma SummarizeExample()
    ensures Summarize(4, 0, 2, 1) == VolumeAnalysis(Finite(0.0), Finite(50.0), 4.0, true)
  {
    SummarizeSharesExample();
    SummarizeFrequencyExample();
  }

  lemma SummarizeSharesExample()
    ensures Summarize(4, 0, 2, 1).pctIdealChanges == Finite(0.0)
    ensures Summarize(4, 0, 2, 1).pctTooLarge == Finite(50.0)
  {
    assert Div(0.0, 4.0) == Finite(0.0);
    assert Div(2.0, 4.0) == Finite(0.5);
  }

  lemma SummarizeFrequencyExample()
    ensures Summarize(4, 0, 2, 1).recoveryFreq == 4.0
  {
  }

  lemma VolumeExampleCounts(drop: real)
    requires drop < -60.0
    ensures var ps := [NaN, Finite(5.0), Finite(drop), Finite(137.5)];
            && CountWhere(ps, IsIdeal) == 0
            && CountWhere(ps, IsTooLarge) == 2
            && CountWhere(ps, IsRecovery) == 1
  {
    var s3 := [Finite(137.5)];
    var s2 := [Finite(drop)] + s3;
    var s1 := [Finite(5.0)] + s2;
    var ps := [NaN] + s1;
    assert ps == [NaN, Finite(5.0), Finite(drop), Finite(137.5)];
    assert ps[1..] == s1 && s1[1..] == s2 && s2[1..] == s3 && s3[1..] == [];
    assert CountWhere(s3, IsIdeal) == 0 && CountWhere(s3, IsTooLarge) == 1
           && CountWhere(s3, IsRecovery) == 0;
    assert CountWhere(s2, IsIdeal) == 0 && CountWhere(s2, IsTooLarge) == 2
           && CountWhere(s2, IsRecovery) == 1;
    assert CountWhere(s1, IsIdeal) == 0 && CountWhere(s1, IsTooLarge) == 2
           && CountWhere(s1, IsRecovery) == 1;
  }

  lemma IdealExampleChanges()
    ensures PctChanges([50.0, 55.0, 60.0, 66.0])
            == [NaN, Finite(10.0), Finite((60.0 / 55.0 - 1.0) * 100.0), Finite(10.0)]
  {
    var ps := PctChanges([50.0, 55.0, 60.0, 66.0]);
    assert ps[1] == PctChange(50.0, 55.0) == Finite(10.0);
    assert ps[2] == PctChange(55.0, 60.0);
    assert ps[3] == PctChange(60.0, 66.0) == Finite(10.0);
  }

  /** About 10 % a week: three of four weeks are ideal. */
  lemma IdealExample(distances: seq<real>)
    requires distances == [50.0, 55.0, 60.0, 66.0]
    ensures AnalyzeVolumeProgression(distances).pctIdealChanges == Finite(75.0)
  {
    IdealExampleChanges();
    var ps := PctChanges(distances);
    var rise := (60.0 / 55.0 - 1.0) * 100.0;
    assert 9.0 < rise < 10.0 by {
      assert 1.09 < 60.0 / 55.0 < 1.1;
    }
    assert ps == [NaN, Finite(10.0), Finite(rise), Finite(10.0)];
    IdealExampleCount(rise);
    assert Div(3.0, 4.0) == Finite(0.75);
  }

  lemma IdealExampleCount(rise: real)
    requires 9.0 < rise < 10.0
    ensures CountWhere([NaN, Finite(10.0), Finite(rise), Finite(10.0)], IsIdeal) == 3
  {
    var s3 := [Finite(10.0)];
    var s2 := [Finite(rise)] + s3;
    var s1 := [Finite(10.0)] + s2;
    var ps := [NaN] + s1;
    assert ps == [NaN, Finite(10.0), Finite(rise), Finite(10.0)];
    assert ps[1..] == s1 && s1[1..] == s2 && s2[1..] == s3 && s3[1..] == [];
    assert CountWhere(s3, IsIdeal) == 1;
    assert CountWhere(s2, IsIdeal) == 2;
    assert CountWhere(s1, IsIdeal) == 3;
  }
}
