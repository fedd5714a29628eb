/** The anomaly detector's baseline: a median-and-MAD score of the present session against the
    completed sessions before it. */
module RobustBaseline {
  import opened Options
  import opened OrderStatistics

  const MAD_TO_SIGMA: real := 1.4826

  function Median(a: seq<real>): real
    requires a != []
  {
    var s, n := Sort(a), |a|;
    if n % 2 == 1 then s[n / 2] else (s[n / 2 - 1] + s[n / 2]) / 2.0
  }

  function Abs(x: real): real {
    if x < 0.0 then -x else x
  }

  /** Distances of the values from a centre. */
  function Deviations(a: seq<real>, centre: real): (d: seq<real>)
    ensures |d| == |a| && forall i | 0 <= i < |a| :: d[i] == Abs(a[i] - centre)
  {
    Map(v => Abs(v - centre), a)
  }

  function Mad(a: seq<real>): real
    requires a != []
  {
    Median(Deviations(a, Median(a)))
  }

  function Score(observed: real, median: real, mad: real): real
    requires mad != 0.0
  {
    (observed - median) / (MAD_TO_SIGMA * mad)
  }

  /** The score of `observed` and the median it was measured from. */
  function RobustZ(values: seq<real>, observed: real): (Option<real>, Option<real>) {
    if values == [] then (None, None)
    else
      var median, mad := Median(values), Mad(values);
      if mad == 0.0 then (None, Some(median))
      else (Some(Score(observed, median, mad)), Some(median))
  }

  /** The middle places of a list of n values, the same one if n is odd. */
  function LowMiddle(n: nat): (k: nat)
    requires n > 0
    ensures k < n
  {
    (n - 1) / 2
  }

  function HighMiddle(n: nat): (k: nat)
    requires n > 0
    ensures LowMiddle(n) <= k < n && k <= LowMiddle(n) + 1
  {
    n / 2
  }

  /** The mean of the values at two places. */
  function MeanAt(s: seq<real>, i: nat, j: nat): real
    requires i < |s| && j < |s|
  {
    (s[i] + s[j]) / 2.0
  }

  lemma MeansCompare(s: seq<real>, i: nat, j: nat, t: seq<real>, k: nat, l: nat)
    requires i < |s| && j < |s| && k < |t| && l < |t| && s[i] <= t[k] && s[j] <= t[l]
    ensures MeanAt(s, i, j) <= MeanAt(t, k, l)
  {
  }

  /** For lists of either parity the median is the mean of the two middle places. */
  lemma MedianIsMiddle(a: seq<real>)
    requires a != []
    ensures Median(a) == MeanAt(Sort(a), LowMiddle(|a|), HighMiddle(|a|))
  {
    hide Sort;
    assert |a| % 2 == 0 ==> (|a| - 1) / 2 == |a| / 2 - 1;
    assert |a| % 2 == 1 ==> (|a| - 1) / 2 == |a| / 2;
  }

  /** Twice the median is the sum of the values in the two middle places of the sorted list. */
  lemma MedianOfSorted(a: seq<real>)
    requires a != []
    ensures 2.0 * Median(a) == Sort(a)[(|a| - 1) / 2] + Sort(a)[|a| / 2]
  {
    hide Sort, Median;
    MedianIsMiddle(a);
  }

  /** What is returned: the median; and with it, if the median distance from it is not zero, how many
      scaled such distances the observed value lies above it. */
  lemma RobustZMeans(values: seq<real>, observed: real, distances: seq<real>)
    requires values != [] && |distances| == |values|
    requires forall i | 0 <= i < |values| ::
      distances[i] >= 0.0 && (distances[i] == values[i] - Median(values) || distances[i] == Median(values) - values[i])
    ensures RobustZ(values, observed).1 == Some(Median(values))
    ensures RobustZ(values, observed).0.None? <==> Median(distances) == 0.0
    ensures RobustZ(values, observed).0.Some? ==>
      RobustZ(values, observed).0.value * (1.4826 * Median(distances)) == observed - Median(values)
  {
    hide Median;
    assert distances == Deviations(values, Median(values));
    if Median(distances) != 0.0 {
      QuotientTimes(observed - Median(values), 1.4826 * Median(distances));
    }
  }

  lemma QuotientTimes(a: real, b: real)
    requires b != 0.0
    ensures a / b * b == a
  {
  }

  // ----- One outlier -----

  /** The median of a list whose values were replaced at one place lies between the neighbours of
      the old middle values, however extreme the new value is. */
  lemma MedianResistsOutlier(a: seq<real>, i: nat, v: real)
    requires i < |a|
    ensures var s, lo, hi := Sort(a), LowMiddle(|a|), HighMiddle(|a|);
      (lo >= 1 ==> MeanAt(s, lo - 1, hi - 1) <= Median(a[i := v])) &&
      (hi + 1 < |a| ==> Median(a[i := v]) <= MeanAt(s, lo + 1, hi + 1))
  {
    hide Sort, Median, MeanAt, LowMiddle, HighMiddle;
    MedianIsMiddle(a[i := v]);
    MeanInterlaces(a, i, v, LowMiddle(|a|), HighMiddle(|a|));
  }

  /** Any mean of two order statistics lies between the means of their neighbours. */
  lemma MeanInterlaces(a: seq<real>, i: nat, v: real, lo: nat, hi: nat)
    requires i < |a| && lo <= hi < |a|
    ensures var s, t := Sort(a), Sort(a[i := v]);
      (lo >= 1 ==> MeanAt(s, lo - 1, hi - 1) <= MeanAt(t, lo, hi)) &&
      (hi + 1 < |a| ==> MeanAt(t, lo, hi) <= MeanAt(s, lo + 1, hi + 1))
  {
    hide Sort, MeanAt;
    var s, t := Sort(a), Sort(a[i := v]);
    Interlace(a, i, v, lo);
    Interlace(a, i, v, hi);
    if lo >= 1 {
      MeansCompare(s, lo - 1, hi - 1, t, lo, hi);
    }
    if hi + 1 < |a| {
      MeansCompare(t, lo, hi, s, lo + 1, hi + 1);
    }
  }

  lemma ReplacedDeviations(a: seq<real>, i: nat, v: real, centre: real)
    requires i < |a|
    ensures Deviations(a[i := v], centre) == Deviations(a, centre)[i := Abs(v - centre)]
  {
    hide Map, Deviations;
  }

  lemma MedianOfNearby(a: seq<real>, b: seq<real>, delta: real)
    requires a != [] && |a| == |b| && forall i | 0 <= i < |a| :: b[i] <= a[i] + delta
    ensures Median(b) <= Median(a) + delta
  {
    hide Sort, Median;
    MedianIsMiddle(a);
    MedianIsMiddle(b);
    NearbyStatistics(a, b, delta, LowMiddle(|a|));
    NearbyStatistics(a, b, delta, HighMiddle(|a|));
  }

  /** The MAD moves no further than one order statistic of the old deviations and the median's own
      move together. */
  lemma MadResistsOutlier(a: seq<real>, i: nat, v: real)
    requires i < |a|
    ensures var d, lo, hi := Sort(Deviations(a, Median(a))), LowMiddle(|a|), HighMiddle(|a|);
      var move := Abs(Median(a[i := v]) - Median(a));
      (lo >= 1 ==> MeanAt(d, lo - 1, hi - 1) - move <= Mad(a[i := v])) &&
      (hi + 1 < |a| ==> Mad(a[i := v]) <= MeanAt(d, lo + 1, hi + 1) + move)
  {
    hide Sort, Deviations, Median;
    var b := a[i := v];
    var move := Abs(Median(b) - Median(a));
    var original, held, moved := Deviations(a, Median(a)), Deviations(b, Median(a)), Deviations(b, Median(b));
    ReplacedDeviations(a, i, v, Median(a));
    MedianResistsOutlier(original, i, Abs(v - Median(a)));
    MedianOfNearby(held, moved, move);
    MedianOfNearby(moved, held, move);
  }

  // ----- When there is no score -----

  lemma {:induction false} ZeroDeviations(a: seq<real>, centre: real)
    ensures CountUpTo(Deviations(a, centre), 0.0) == CountEqual(a, centre)
  {
    if a != [] {
      assert Deviations(a, centre)[1..] == Deviations(a[1..], centre);
      ZeroDeviations(a[1..], centre);
    }
  }

  lemma SortKeepsSign(d: seq<real>, k: nat)
    requires k < |d| && forall i | 0 <= i < |d| :: d[i] >= 0.0
    ensures Sort(d)[k] >= 0.0
  {
    hide Sort;
    SortSorts(d);
    assert Sort(d)[k] in multiset(Sort(d));
  }

  /** The MAD vanishes exactly when strictly more than half of the values are the median. */
  lemma MadVanishesIff(values: seq<real>)
    requires values != []
    ensures Mad(values) == 0.0 <==> 2 * CountEqual(values, Median(values)) > |values|
  {
    hide Sort, CountUpTo, CountEqual, Deviations, Median;
    var n, d := |values|, Deviations(values, Median(values));
    MedianIsMiddle(d);
    ZeroDeviations(values, Median(values));
    Rank(d, n / 2, 0.0);
    SortKeepsSign(d, n / 2);
    SortKeepsSign(d, (n - 1) / 2);
    SortSorts(d);
  }

  /** A score is refused exactly for an empty list and for one in which strictly more than half of
      the values are the median itself. */
  lemma RefusedIffNotVarying(values: seq<real>, observed: real)
    ensures RobustZ(values, observed).0.None?
       <==> values == [] || 2 * CountEqual(values, Median(values)) > |values|
    ensures RobustZ(values, observed).1.None? <==> values == []
  {
    hide Median, Mad, CountEqual;
    if values != [] {
      MadVanishesIff(values);
    }
  }

  /** A score reaches a threshold exactly when the value lies that many scaled MADs above the median. */
  lemma ScoreReaches(values: seq<real>, observed: real, threshold: real)
    requires RobustZ(values, observed).0.Some?
    ensures Mad(values) > 0.0
    ensures RobustZ(values, observed).0.value >= threshold
       <==> observed >= Median(values) + threshold * (1.4826 * Mad(values))
  {
    hide Median, Sort, Deviations;
    var deviations := Deviations(values, Median(values));
    MedianIsMiddle(deviations);
    SortKeepsSign(deviations, |values| / 2);
    SortKeepsSign(deviations, (|values| - 1) / 2);
    ScoreThreshold(observed - Median(values), MAD_TO_SIGMA * Mad(values), threshold);
  }

  lemma ScoreThreshold(gap: real, unit: real, threshold: real)
    requires unit > 0.0
    ensures gap / unit >= threshold <==> gap >= threshold * unit
  {
    var score := gap / unit;
    assert score * unit == gap;
    if score >= threshold {
      assert (score - threshold) * unit >= 0.0;
    } else {
      assert (threshold - score) * unit > 0.0;
    }
  }

  // ----- Units and origin -----

  function Rescale(scale: real, shift: real): real -> real {
    v => scale * v + shift
  }

  function Times(a: real, b: real): real {
    a * b
  }

  lemma ProductsCompare(scale: real, x: real, y: real)
    requires scale > 0.0
    ensures x <= y <==> Times(scale, x) <= Times(scale, y)
  {
    if x <= y {
      ProductIsMonotone(scale, x, y);
    } else {
      ProductIsStrict(scale, y, x);
    }
  }

  lemma ProductIsMonotone(scale: real, x: real, y: real)
    requires scale > 0.0 && x <= y
    ensures Times(scale, x) <= Times(scale, y)
  {
  }

  lemma ProductIsStrict(scale: real, x: real, y: real)
    requires scale > 0.0 && x < y
    ensures Times(scale, x) < Times(scale, y)
  {
  }

  lemma Rescaled(scale: real, shift: real, x: real)
    ensures Rescale(scale, shift)(x) == Times(scale, x) + shift
  {
  }

  lemma RescaleIncreases(scale: real, shift: real)
    requires scale > 0.0
    ensures Increasing(Rescale(scale, shift))
  {
    hide Times, Rescale;
    forall x: real, y: real ensures x <= y <==> Rescale(scale, shift)(x) <= Rescale(scale, shift)(y) {
      ProductsCompare(scale, x, y);
      Rescaled(scale, shift, x);
      Rescaled(scale, shift, y);
    }
  }

  lemma MedianRescales(a: seq<real>, scale: real, shift: real)
    requires a != [] && scale > 0.0
    ensures Median(Map(Rescale(scale, shift), a)) == scale * Median(a) + shift
  {
    hide Sort, Map;
    RescaleIncreases(scale, shift);
    SortMap(Rescale(scale, shift), a);
    var s, n := Sort(a), |a|;
    if n % 2 == 0 {
      Halfway(scale, shift, s[n / 2 - 1], s[n / 2]);
    }
  }

  lemma Halfway(scale: real, shift: real, x: real, y: real)
    ensures ((scale * x + shift) + (scale * y + shift)) / 2.0 == scale * ((x + y) / 2.0) + shift
  {
  }

  lemma DeviationsRescale(a: seq<real>, scale: real, shift: real, centre: real, centre': real)
    requires scale > 0.0 && centre' == scale * centre + shift
    ensures Deviations(Map(Rescale(scale, shift), a), centre')
         == Map(Rescale(scale, 0.0), Deviations(a, centre))
  {
    hide Map, Deviations, Abs;
    var moved, gaps := Map(Rescale(scale, shift), a), Deviations(a, centre);
    forall i | 0 <= i < |a|
      ensures Deviations(moved, centre')[i] == Map(Rescale(scale, 0.0), gaps)[i]
    {
      DistanceScales(scale, shift, a[i], centre, moved[i], centre');
      assert Map(Rescale(scale, 0.0), gaps)[i] == Rescale(scale, 0.0)(gaps[i]) == scale * gaps[i] + 0.0;
    }
  }

  lemma DistanceScales(scale: real, shift: real, x: real, centre: real, x': real, centre': real)
    requires scale > 0.0 && x' == scale * x + shift && centre' == scale * centre + shift
    ensures Abs(x' - centre') == scale * Abs(x - centre)
  {
    var gap := x - centre;
    assert x' - centre' == scale * gap;
    if gap < 0.0 {
      assert scale * gap < 0.0;
    } else {
      assert scale * gap >= 0.0;
    }
  }

  lemma ScoreRescales(observed: real, median: real, mad: real, scale: real, shift: real)
    requires scale > 0.0 && mad != 0.0
    ensures scale * mad != 0.0
    ensures Score(scale * observed + shift, scale * median + shift, scale * mad) == Score(observed, median, mad)
  {
    var x, z := observed - median, Score(observed, median, mad);
    assert z * (MAD_TO_SIGMA * mad) == x;
    assert z * (MAD_TO_SIGMA * (scale * mad)) == scale * x;
    assert (scale * observed + shift) - (scale * median + shift) == scale * x;
  }

  lemma MadRescales(values: seq<real>, scale: real, shift: real)
    requires values != [] && scale > 0.0
    ensures Mad(Map(Rescale(scale, shift), values)) == scale * Mad(values)
  {
    hide Map, Deviations, Median;
    MedianRescales(values, scale, shift);
    DeviationsRescale(values, scale, shift, Median(values), Median(Map(Rescale(scale, shift), values)));
    MedianRescales(Deviations(values, Median(values)), scale, 0.0);
  }

  /** The score does not depend on the unit or the origin the values are measured in. */
  lemma ScoreIsInvariant(values: seq<real>, observed: real, scale: real, shift: real)
    requires scale > 0.0
    ensures RobustZ(Map(Rescale(scale, shift), values), scale * observed + shift).0 == RobustZ(values, observed).0
  {
    hide Map, Median, Mad, Score;
    if values != [] {
      var median, mad := Median(values), Mad(values);
      MedianRescales(values, scale, shift);
      MadRescales(values, scale, shift);
      if mad != 0.0 {
        ScoreRescales(observed, median, mad, scale, shift);
        var moved, observed' := Map(Rescale(scale, shift), values), scale * observed + shift;
        assert Median(moved) == scale * median + shift;
        assert Mad(moved) == scale * mad;
        assert Score(observed', Median(moved), Mad(moved)) == Score(observed, median, mad);
        assert moved != [];
        assert RobustZ(moved, observed').0 == Some(Score(observed, median, mad));
      } else {
        assert scale * mad == 0.0;
      }
    }
  }

  // ----- The detector's volume family -----

  datatype Session = Session(volume: real)

  datatype Quality = Ok | FeedUnfit | InsufficientBaseline | NonVaryingBaseline

  /** The completed sessions the last one is judged against: at most `sessions` of them. */
  function Baseline(history: seq<Session>, sessions: nat): (b: seq<Session>)
    requires sessions >= 1 && |history| >= 2
    ensures |b| == if |history| - 1 < sessions then |history| - 1 else sessions
    ensures b == history[|history| - 1 - |b|..|history| - 1]
  {
    var before := history[..|history| - 1];
    if |before| > sessions then before[|before| - sessions..] else before
  }

  /** The log volumes of the sessions that traded at all. */
  function LogVolumes(b: seq<Session>, log: real -> real): seq<real> {
    if b == [] then []
    else if b[0].volume > 0.0 then [log(b[0].volume)] + LogVolumes(b[1..], log)
    else LogVolumes(b[1..], log)
  }

  /** What the detector records for the volume family: nothing if the trigger is not enabled. */
  function VolumeQuality(history: seq<Session>, sessions: nat, log: real -> real, enabled: bool, fit: bool): Option<Quality>
    requires sessions >= 1 && |history| >= 2
  {
    var b, current := Baseline(history, sessions), history[|history| - 1];
    if !enabled then None
    else if !fit then Some(FeedUnfit)
    else if |b| < sessions then Some(InsufficientBaseline)
    else
      var logs := LogVolumes(b, log);
      if |logs| == |b| && current.volume > 0.0 then
        if RobustZ(logs, log(current.volume)).0.None? then Some(NonVaryingBaseline) else Some(Ok)
      else Some(InsufficientBaseline)
  }

  lemma {:induction false} AllTraded(b: seq<Session>, log: real -> real)
    ensures |LogVolumes(b, log)| <= |b|
    ensures |LogVolumes(b, log)| == |b| <==> forall i | 0 <= i < |b| :: b[i].volume > 0.0
    ensures |LogVolumes(b, log)| == |b| ==> forall i | 0 <= i < |b| :: LogVolumes(b, log)[i] == log(b[i].volume)
  {
    if b != [] {
      AllTraded(b[1..], log);
    }
  }

  /** Enough completed sessions precede the present one and every volume involved is positive. */
  ghost predicate Measurable(history: seq<Session>, sessions: nat)
    requires sessions >= 1 && |history| >= 2
  {
    var n := |history| - 1;
    n >= sessions && forall i | n - sessions <= i <= n :: history[i].volume > 0.0
  }

  /** The log volume of each session of the baseline, in order. */
  ghost function BaselineLogs(history: seq<Session>, sessions: nat, log: real -> real): seq<real>
    requires |history| > sessions
  {
    var first := |history| - 1 - sessions;
    seq(sessions, i requires 0 <= i < sessions => log(history[first + i].volume))
  }

  /** One log volume fills more than half of the baseline. */
  ghost predicate Flat(history: seq<Session>, sessions: nat, log: real -> real)
    requires sessions >= 1 && |history| >= 2 && Measurable(history, sessions)
  {
    var n := |history| - 1;
    var logs := BaselineLogs(history, sessions, log);
    logs != [] && 2 * CountEqual(logs, Median(logs)) > sessions
  }

  /** With the trigger enabled and a feed fit for it, a volume measurement is made exactly when the
      baseline is complete and positive and no one value fills more than half of it; the recorded
      refusal says which of the two is wanting. */
  lemma MeasurableIff(history: seq<Session>, sessions: nat, log: real -> real, enabled: bool, fit: bool)
    requires sessions >= 1 && |history| >= 2
    ensures var q := VolumeQuality(history, sessions, log, enabled, fit);
      && (q == None <==> !enabled) && (q == Some(FeedUnfit) <==> enabled && !fit)
      && (q == Some(InsufficientBaseline) <==> enabled && fit && !Measurable(history, sessions))
      && (q == Some(Ok) <==> enabled && fit && Measurable(history, sessions) && !Flat(history, sessions, log))
      && (q == Some(NonVaryingBaseline) <==> enabled && fit && Measurable(history, sessions) && Flat(history, sessions, log))
  {
    hide Median, CountEqual, RobustZ;
    var n, b := |history| - 1, Baseline(history, sessions);
    if n >= sessions {
      var logs := LogVolumes(b, log);
      AllTraded(b, log);
      RefusedIffNotVarying(logs, log(history[n].volume));
      assert b == history[n - sessions..n];
      forall i | n - sessions <= i < n ensures history[i] == b[i - (n - sessions)] {
      }
      if Measurable(history, sessions) {
        assert logs == BaselineLogs(history, sessions, log);
      }
    }
  }
}
