/** Sessions per week and `analyze_frequency_consistency`
    (pages/Analisi.py 500-517, 1324-1335). */
module Frequency {
  import opened Wrappers
  import opened Exceptions
  import opened Floats
  import opened Activities
  import opened Weekly

  /** The `Sessions` column of a week table. */
  function Sessions(rows: seq<WeekRow>): (s: seq<nat>)
    ensures |s| == |rows|
  {
    if rows == [] then [] else [rows[0].sessions] + Sessions(rows[1..])
  }

  function Sum(s: seq<nat>): nat {
    if s == [] then 0 else s[0] + Sum(s[1..])
  }

  lemma {:induction false} SessionsAt(rows: seq<WeekRow>, i: int)
    requires 0 <= i < |rows|
    ensures Sessions(rows)[i] == rows[i].sessions
  {
    if i > 0 {
      SessionsAt(rows[1..], i - 1);
    }
  }

  lemma {:induction false} SessionsSum(rows: seq<WeekRow>)
    ensures Sum(Sessions(rows)) == SessionCount(rows)
  {
    if rows != [] {
      SessionsSum(rows[1..]);
      assert Sessions(rows)[1..] == Sessions(rows[1..]);
    }
  }

  /** `groupby([isocalendar().year, isocalendar().week]).size()`: the
      number of activities of each week that has one, weeks ascending. */
  function WeeklySessions(acts: seq<Activity>): seq<nat> {
    Sessions(WeeklyTotals(acts, IsoWeekKey))
  }

  /** Every listed week has a session, the counts add up to the number of
      activities, and there is a week exactly when there is an activity. */
  lemma WeeklySessionsSpec(acts: seq<Activity>)
    ensures var s := WeeklySessions(acts);
            && (forall i :: 0 <= i < |s| ==> s[i] > 0)
            && Sum(s) == |acts|
            && (s == [] <==> acts == [])
  {
    var rows := WeeklyTotals(acts, IsoWeekKey);
    var s := WeeklySessions(acts);
    WeeklyTotalsCover(acts, IsoWeekKey);
    WeeklyTotalsConserve(acts, IsoWeekKey);
    SessionsSum(rows);
    forall i | 0 <= i < |s| ensures s[i] > 0 {
      SessionsAt(rows, i);
    }
    if acts != [] {
      assert acts[0] in acts;
    }
  }

  /** How many weeks have `x` sessions. */
  function Count(s: seq<nat>, x: nat): nat {
    multiset(s)[x]
  }

  /** `x` comes before `y` in `Series.mode()`: it is more frequent, or as
      frequent and smaller (the modes are listed in ascending order). */
  predicate Before(s: seq<nat>, x: nat, y: nat) {
    Count(s, x) > Count(s, y) || (Count(s, x) == Count(s, y) && x < y)
  }

  /** The first mode among the candidates `c`. */
  function ModeAmong(s: seq<nat>, c: seq<nat>): (m: nat)
    requires c != []
    ensures m in c
    ensures forall x :: x in c ==> !Before(s, x, m)
  {
    if |c| == 1 then c[0]
    else
      var rest := ModeAmong(s, c[1..]);
      assert forall x :: x in c ==> x == c[0] || x in c[1..];
      if Before(s, c[0], rest) then c[0] else rest
  }

  /** `Series.mode()[0]`: the smallest of the most frequent values. */
  function Mode(s: seq<nat>): nat
    requires s != []
  {
    ModeAmong(s, s)
  }

  /** The mode is a value of the column, no value is more frequent, and no
      smaller value is as frequent. */
  lemma ModeSpec(s: seq<nat>)
    requires s != []
    ensures Mode(s) in s
    ensures forall x :: x in s ==> Count(s, x) <= Count(s, Mode(s))
    ensures forall x :: x in s && Count(s, x) == Count(s, Mode(s)) ==> Mode(s) <= x
  {
    var m := Mode(s);
    forall x | x in s ensures Count(s, x) <= Count(s, m) {
      assert !Before(s, x, m);
    }
  }

  function Mean(s: seq<nat>): real
    requires s != []
  {
    Sum(s) as real / |s| as real
  }

  /** Sum of squared deviations from `m`. */
  function SquaredDeviations(s: seq<nat>, m: real): (r: real)
    ensures r >= 0.0
  {
    if s == [] then 0.0
    else
      var d := s[0] as real - m;
      d * d + SquaredDeviations(s[1..], m)
  }

  /** `Series.std()` squared: the sample variance (divisor `n - 1`), NaN for
      fewer than two weeks. */
  function SampleVariance(s: seq<nat>): (r: Ext)
    ensures r.Finite? <==> |s| >= 2
    ensures r.Finite? ==> r.value >= 0.0
  {
    if |s| < 2 then NaN
    else Finite(SquaredDeviations(s, Mean(s)) / (|s| - 1) as real)
  }

  /** The square of `cv = std / mean * 100`: NaN when the deviation is
      undefined or the mean is zero (a zero deviation over a zero mean). */
  function CvSquared(s: seq<nat>): (r: Ext)
    ensures r.Finite? ==> r.value >= 0.0
  {
    match SampleVariance(s)
    case Finite(v) =>
      var m := Mean(s);
      if m == 0.0 then NaN else Finite(10000.0 * v / (m * m))
    case _ => NaN
  }

  /** The variation is defined exactly when there are two weeks or more
      and some week has a session. */
  lemma CvSquaredDefined(s: seq<nat>)
    ensures CvSquared(s).Finite? <==> |s| >= 2 && exists i :: 0 <= i < |s| && s[i] > 0
  {
    if |s| >= 2 {
      SumZero(s);
      ZeroQuotient(Sum(s) as real, |s| as real);
    }
  }

  lemma ZeroQuotient(x: real, n: real)
    requires n > 0.0
    ensures x / n == 0.0 <==> x == 0.0
  {
  }

  lemma {:induction false} SumZero(s: seq<nat>)
    ensures Sum(s) == 0 <==> forall i :: 0 <= i < |s| ==> s[i] == 0
  {
    if s != [] {
      SumZero(s[1..]);
      assert forall i :: 1 <= i < |s| ==> s[i] == s[1..][i - 1];
    }
  }

  /** The result of `analyze_frequency_consistency`, with the coefficient of
      variation kept as its square. */
  datatype FrequencyAnalysis = FrequencyAnalysis(cvSquared: Ext, modeSessions: nat, pctConsistent: real)

  /** `analyze_frequency_consistency`: with no weeks `mode()` is empty and
      `[0]` raises KeyError. */
  function AnalyzeFrequencyConsistency(s: seq<nat>): (r: Result<FrequencyAnalysis, PyError>)
    ensures r.Failure? <==> s == []
    ensures r.Failure? ==> r.error == KeyError(Label(0))
  {
    if s == [] then Failure(KeyError(Label(0)))
    else
      var m := Mode(s);
      Success(FrequencyAnalysis(CvSquared(s), m, Count(s, m) as real / |s| as real * 100.0))
  }

  /** The share of weeks at the mode is positive and at most 100 %, and
      100 % exactly when every week has the same number of sessions. */
  lemma ConsistentShareBounds(s: seq<nat>)
    requires s != []
    ensures var a := AnalyzeFrequencyConsistency(s).value;
            && a.modeSessions == Mode(s)
            && 0.0 < a.pctConsistent <= 100.0
            && (a.pctConsistent == 100.0 <==> forall i :: 0 <= i < |s| ==> s[i] == a.modeSessions)
  {
    var m := Mode(s);
    ModeSpec(s);
    var k := Count(s, m);
    CountBounds(s, m);
    ShareBounds(k as real, |s| as real);
    AllEqualCount(s, m);
  }

  lemma ShareBounds(k: real, n: real)
    requires 1.0 <= k <= n
    ensures 0.0 < k / n * 100.0 <= 100.0
    ensures k / n * 100.0 == 100.0 <==> k == n
  {
  }

  lemma CountBounds(s: seq<nat>, x: nat)
    requires x in s
    ensures 1 <= Count(s, x) <= |s|
  {
    assert |multiset(s)| == |s|;
    assert multiset{x} <= multiset(s);
    assert multiset(s)[x] <= |multiset(s)| by {
      MultisetCountAtMostSize(multiset(s), x);
    }
  }

  lemma MultisetCountAtMostSize(m: multiset<nat>, x: nat)
    ensures m[x] <= |m|
  {
    var only := multiset{}[x := m[x]];
    assert only <= m;
    assert |only| == m[x];
  }

  /** A value occurs in every week exactly when its count is the number of
      weeks. */
  lemma {:induction false} AllEqualCount(s: seq<nat>, x: nat)
    ensures Count(s, x) == |s| <==> forall i :: 0 <= i < |s| ==> s[i] == x
  {
    if s != [] {
      AllEqualCount(s[1..], x);
      assert s == [s[0]] + s[1..];
      assert multiset(s) == multiset{s[0]} + multiset(s[1..]);
      assert Count(s[1..], x) <= |s[1..]| by {
        MultisetCountAtMostSize(multiset(s[1..]), x);
      }
      if Count(s, x) == |s| {
        assert s[0] == x;
      }
      if forall i :: 0 <= i < |s| ==> s[i] == x {
        assert forall i :: 0 <= i < |s[1..]| ==> s[1..][i] == x by {
          forall i | 0 <= i < |s[1..]| ensures s[1..][i] == x {
            assert s[1..][i] == s[i + 1];
          }
        }
      }
    }
  }

  /** The verdict threshold: a non-negative cv is below 25 exactly when its
      square is below 625. */
  lemma CvThreshold(cv: real, cvSquared: real)
    requires cv >= 0.0 && cvSquared == cv * cv
    ensures cv < 25.0 <==> cvSquared < 625.0
  {
    if cv < 25.0 {
      assert cv * cv <= cv * 25.0;
      assert cv * 25.0 < 625.0;
    } else {
      assert cv * cv >= cv * 25.0;
    }
  }

  /** The same number of sessions every week has zero variation. */
  lemma ConstantWeeksHaveNoVariation(s: seq<nat>)
    requires |s| >= 2 && forall i :: 0 <= i < |s| ==> s[i] == s[0]
    ensures s[0] > 0 ==> CvSquared(s) == Finite(0.0)
    ensures s[0] == 0 ==> CvSquared(s) == NaN
  {
    ConstantSum(s, s[0]);
    var m := Mean(s);
    assert m == s[0] as real by {
      MeanOfConstant(|s|, s[0]);
    }
    NoDeviation(s, m);
  }

  lemma MeanOfConstant(n: nat, x: nat)
    requires n > 0
    ensures (n * x) as real / n as real == x as real
  {
    assert (n * x) as real == n as real * x as real;
  }

  lemma {:induction false} ConstantSum(s: seq<nat>, x: nat)
    requires forall i :: 0 <= i < |s| ==> s[i] == x
    ensures Sum(s) == |s| * x
  {
    if s != [] {
      ConstantSum(s[1..], x);
    }
  }

  lemma {:induction false} NoDeviation(s: seq<nat>, m: real)
    requires forall i :: 0 <= i < |s| ==> s[i] as real == m
    ensures SquaredDeviations(s, m) == 0.0
  {
    if s != [] {
      NoDeviation(s[1..], m);
    }
  }
}
