/** The anomaly detector of the learner: smoothed rates, online mean and standard deviation, outlier test. */
module AnomalyDetection {
  import opened AntiCollapse
  import opened PolicyEngine
  import opened Wrappers
  import opened PolicyTraces
  import OnlineStats
  import ConfigStores

  const ALPHA := 0.2
  const Z_SCORE_THRESHOLD := 2.0
  const EMA_DROP_THRESHOLD := 20.0

  /** What the detector reads of a decision. */
  datatype Observation = Observation(score: real, blocked: bool, chaos: bool)

  datatype PolicyEvent = PolicyEvent(score: real, trace: Trace)

  datatype Reason = NotEnoughData | ZScore | EmaDrop

  predicate Blocks(status: Status) {
    status == Block || status == Fail
  }

  predicate ChaosSeen(steps: seq<TraceStep>) {
    exists step :: step in steps && step.stage == ChaosStage
  }

  function Observed(e: PolicyEvent): Observation {
    Observation(e.score, Blocks(e.trace.finalStatus), ChaosSeen(e.trace.steps))
  }

  function ObservedAll(events: seq<PolicyEvent>): seq<Observation> {
    if events == [] then [] else ObservedAll(events[..|events| - 1]) + [Observed(events[|events| - 1])]
  }

  function ScoresOf(obs: seq<Observation>): seq<real> {
    if obs == [] then [] else ScoresOf(obs[..|obs| - 1]) + [obs[|obs| - 1].score]
  }

  function Indicator(b: bool): real {
    if b then 1.0 else 0.0
  }

  function Blend(before: real, x: real): real {
    ALPHA * x + (1.0 - ALPHA) * before
  }

  /** The smoothed score starts at the first score. */
  function ScoreEma(obs: seq<Observation>): real {
    if obs == [] then 0.0
    else if |obs| == 1 then obs[0].score
    else Blend(ScoreEma(obs[..|obs| - 1]), obs[|obs| - 1].score)
  }

  /** The smoothed rates start at zero: the first observation does not count for them. */
  function BlockEma(obs: seq<Observation>): real {
    if |obs| < 2 then 0.0 else Blend(BlockEma(obs[..|obs| - 1]), Indicator(obs[|obs| - 1].blocked))
  }

  function ChaosEma(obs: seq<Observation>): real {
    if |obs| < 2 then 0.0 else Blend(ChaosEma(obs[..|obs| - 1]), Indicator(obs[|obs| - 1].chaos))
  }

  /** More than two standard deviations from the mean, said without roots. */
  predicate Outlier(scores: seq<real>, x: real) {
    Variance(scores) > 0.0 && FarOff(x, Mean(scores), Variance(scores))
  }

  /** The squared distance exceeds four variances. */
  predicate FarOff(x: real, m: real, v: real) {
    (x - m) * (x - m) > 4.0 * v
  }

  predicate Dropped(obs: seq<Observation>, x: real) {
    ScoreEma(obs) - x > 20.0
  }

  class AnomalyDetector {
    var emaScore: real
    var emaBlockRate: real
    var emaChaosRate: real
    var scoreMean: real
    var scoreStdDev: real
    var count: nat
    const sqrt: real -> real
    ghost var observations: seq<Observation>

    ghost predicate IsSqrt() {
      forall x :: x >= 0.0 ==> RootOf(sqrt(x), x)
    }

    /** Every figure is the one the whole history of observations defines. */
    ghost predicate Valid()
      reads this
    {
      && count == |observations|
      && emaScore == ScoreEma(observations)
      && emaBlockRate == BlockEma(observations)
      && emaChaosRate == ChaosEma(observations)
      && scoreMean == Mean(ScoresOf(observations))
      && RootOf(scoreStdDev, Variance(ScoresOf(observations)))
    }

    constructor (sqrt: real -> real)
      ensures Valid() && observations == [] && this.sqrt == sqrt
    {
      emaScore, emaBlockRate, emaChaosRate := 0.0, 0.0, 0.0;
      scoreMean, scoreStdDev, count := 0.0, 0.0, 0;
      this.sqrt := sqrt;
      observations := [];
    }

    method UpdateEMA(score: real, blocked: bool, chaosActive: bool)
      requires Valid() && IsSqrt()
      modifies this
      ensures Valid() && observations == old(observations) + [Observation(score, blocked, chaosActive)]
    {
      ghost var before := ScoresOf(observations);
      observations := observations + [Observation(score, blocked, chaosActive)];
      ScoresGrow(old(observations), observations[|observations| - 1]);
      if count == 0 {
        emaScore, scoreMean, scoreStdDev, count := score, score, 0.0, 1;
        ConfigStores.SingleScore(score);
        return;
      }
      emaScore := Blend(emaScore, score);
      emaBlockRate := Blend(emaBlockRate, Indicator(blocked));
      emaChaosRate := Blend(emaChaosRate, Indicator(chaosActive));
      count := count + 1;
      scoreMean, scoreStdDev := Spread(count, scoreMean, scoreStdDev, score, before);
    }

    method Spread(n: nat, mean: real, stdDev: real, x: real, ghost s: seq<real>) returns (mean': real, stdDev': real)
      requires IsSqrt() && s != [] && n == |s| + 1
      requires mean == Mean(s) && RootOf(stdDev, Variance(s))
      ensures mean' == Mean(s + [x]) && RootOf(stdDev', Variance(s + [x]))
    {
      var variance;
      mean', variance := OnlineStats.Welford(n, mean, stdDev * stdDev, x, s);
      VarianceNonNegative(s + [x]);
      stdDev' := sqrt(variance);
    }

    method Reset()
      modifies this
      ensures Valid() && observations == []
    {
      emaScore, emaBlockRate, emaChaosRate := 0.0, 0.0, 0.0;
      scoreMean, scoreStdDev, count := 0.0, 0.0, 0;
      observations := [];
    }

    method Learn(e: PolicyEvent)
      requires Valid() && IsSqrt()
      modifies this
      ensures Valid() && observations == old(observations) + [Observed(e)]
    {
      var chaosActive := HasChaos(e.trace.steps);
      UpdateEMA(e.score, Blocks(e.trace.finalStatus), chaosActive);
    }

    /** Rebuilds the state from a log: whatever it was before, it becomes that of the logged events. */
    method Replay(events: seq<PolicyEvent>)
      requires IsSqrt()
      modifies this
      ensures Valid() && observations == ObservedAll(events)
    {
      Reset();
      for i := 0 to |events|
        invariant Valid() && observations == ObservedAll(events[..i])
      {
        assert events[..i + 1][..i] == events[..i];
        Learn(events[i]);
      }
      assert events[..|events|] == events;
    }

    method IsAnomaly(score: real) returns (anomaly: bool, reasons: seq<Reason>)
      requires Valid()
      ensures anomaly == (|observations| >= 3 && (Outlier(ScoresOf(observations), score) || Dropped(observations, score)))
      ensures |observations| < 3 ==> reasons == [NotEnoughData]
      ensures |observations| >= 3 ==>
                reasons == (if Outlier(ScoresOf(observations), score) then [ZScore] else [])
                           + (if Dropped(observations, score) then [EmaDrop] else [])
    {
      if count < 3 {
        return false, [NotEnoughData];
      }
      reasons := [];
      ZScoreIff(ScoresOf(observations), score, scoreStdDev);
      if scoreStdDev > 0.0 {
        var zScore := (score - scoreMean) / scoreStdDev;
        if Abs(zScore) > Z_SCORE_THRESHOLD {
          reasons := reasons + [ZScore];
        }
      }
      if emaScore - score > EMA_DROP_THRESHOLD {
        reasons := reasons + [EmaDrop];
      }
      anomaly := |reasons| > 0;
    }
  }

  method HasChaos(steps: seq<TraceStep>) returns (chaosActive: bool)
    ensures chaosActive == ChaosSeen(steps)
  {
    chaosActive := false;
    for i := 0 to |steps|
      invariant forall k :: 0 <= k < i ==> steps[k].stage != ChaosStage
    {
      if steps[i].stage == ChaosStage {
        return true;
      }
    }
  }

  /** Of a trace the detector learns of chaos exactly when it was active in a run not found non-deterministic. */
  lemma ChaosSeenIff(gates: seq<GateResult>, cert: Option<Certification>, chaos: Option<Chaos>, d: Decision)
    ensures Observed(PolicyEvent(d.score, TraceOf(gates, cert, chaos, d))).chaos
            <==> !(cert.Some? && !cert.value.deterministic) && chaos.Some? && chaos.value.active
    ensures Observed(PolicyEvent(d.score, TraceOf(gates, cert, chaos, d))).blocked <==> d.status !in {Pass, Warn}
  {
    TraceTells(gates, cert, chaos, d);
    var t := TraceOf(gates, cert, chaos, d);
    assert ChaosSeen(t.steps) <==> HasStage(t.steps, ChaosStage);
  }

  lemma ScoresGrow(obs: seq<Observation>, o: Observation)
    ensures ScoresOf(obs + [o]) == ScoresOf(obs) + [o.score]
    ensures |ScoresOf(obs)| == |obs|
    ensures obs != [] ==> ScoreEma(obs + [o]) == Blend(ScoreEma(obs), o.score)
    ensures obs != [] ==> BlockEma(obs + [o]) == Blend(BlockEma(obs), Indicator(o.blocked))
    ensures obs != [] ==> ChaosEma(obs + [o]) == Blend(ChaosEma(obs), Indicator(o.chaos))
  {
    assert (obs + [o])[..|obs|] == obs;
    ScoresCount(obs);
  }

  /** One fifth of the way from `before` to `x`. */
  predicate FifthOfTheWay(before: real, x: real, after: real) {
    5.0 * (after - before) == x - before
  }

  /** Every observation but the first moves the smoothed score a fifth of the way to its score, and the rates to one or zero. */
  lemma SmoothedFigures(obs: seq<Observation>, o: Observation)
    ensures obs == [] ==> ScoreEma([o]) == o.score && BlockEma([o]) == ChaosEma([o]) == 0.0
    ensures obs != [] ==>
              && FifthOfTheWay(ScoreEma(obs), o.score, ScoreEma(obs + [o]))
              && FifthOfTheWay(BlockEma(obs), if o.blocked then 1.0 else 0.0, BlockEma(obs + [o]))
              && FifthOfTheWay(ChaosEma(obs), if o.chaos then 1.0 else 0.0, ChaosEma(obs + [o]))
  {
    ScoresGrow(obs, o);
    BlendIsFifth(ScoreEma(obs), o.score);
    BlendIsFifth(BlockEma(obs), Indicator(o.blocked));
    BlendIsFifth(ChaosEma(obs), Indicator(o.chaos));
  }

  lemma BlendIsFifth(before: real, x: real)
    ensures FifthOfTheWay(before, x, Blend(before, x))
  {
  }

  lemma {:induction false} ScoresCount(obs: seq<Observation>)
    ensures |ScoresOf(obs)| == |obs|
  {
    if obs != [] {
      ScoresCount(obs[..|obs| - 1]);
    }
  }

  // ----- The z-score without division

  lemma ZScoreIff(s: seq<real>, x: real, sd: real)
    requires RootOf(sd, Variance(s))
    ensures sd > 0.0 && Abs((x - Mean(s)) / sd) > Z_SCORE_THRESHOLD <==> Outlier(s, x)
  {
    ConfigStores.SquareOfRoot(sd, Variance(s));
    if sd > 0.0 {
      RatioAbove(x - Mean(s), sd);
      assert (2.0 * sd) * (2.0 * sd) == 4.0 * (sd * sd);
    }
  }

  lemma RatioAbove(d: real, sd: real)
    requires sd > 0.0
    ensures Abs(d / sd) > 2.0 <==> d * d > (2.0 * sd) * (2.0 * sd)
  {
    var a := Abs(d);
    assert a * a == d * d;
    SquareOrder(2.0 * sd, a);
    AbsQuotient(d, sd);
    QuotientAbove(a, sd);
  }

  lemma AbsQuotient(d: real, sd: real)
    requires sd > 0.0
    ensures Abs(d / sd) == Abs(d) / sd
  {
    var q := d / sd;
    assert q * sd == d;
    if q < 0.0 {
      assert (-q) * sd > 0.0;
      OnlineStats.QuotientIs(-d, sd, -q);
    } else {
      assert q * sd >= 0.0;
    }
  }

  lemma QuotientAbove(a: real, sd: real)
    requires sd > 0.0
    ensures a / sd > 2.0 <==> a > 2.0 * sd
  {
    var q := a / sd;
    assert q * sd == a;
    if q > 2.0 {
      ScaleUp(2.0, q, sd);
    } else if q < 2.0 {
      ScaleUp(q, 2.0, sd);
    }
  }

  // ----- Replay and live

  lemma RootUnique(a: real, b: real, x: real)
    requires RootOf(a, x) && RootOf(b, x)
    ensures a == b
  {
    ConfigStores.SquareOfRoot(a, x);
    ConfigStores.SquareOfRoot(b, x);
    if a > 0.0 {
      SquareOrder(a, b);
      SquareOrder(b, a);
    }
  }

  /** The history determines the state: a detector rebuilt from a log equals the one that lived through it. */
  lemma HistoryDetermines(live: AnomalyDetector, rebuilt: AnomalyDetector)
    requires live.Valid() && rebuilt.Valid() && live.observations == rebuilt.observations
    ensures live.emaScore == rebuilt.emaScore && live.emaBlockRate == rebuilt.emaBlockRate
    ensures live.emaChaosRate == rebuilt.emaChaosRate && live.count == rebuilt.count
    ensures live.scoreMean == rebuilt.scoreMean && live.scoreStdDev == rebuilt.scoreStdDev
  {
    RootUnique(live.scoreStdDev, rebuilt.scoreStdDev, Variance(ScoresOf(live.observations)));
  }

  // ----- Bounds

  predicate ScoresWithin(obs: seq<Observation>, lo: real, hi: real) {
    forall i :: 0 <= i < |obs| ==> lo <= obs[i].score <= hi
  }

  /** The smoothed score never leaves the range of the scores, and the smoothed rates are rates. */
  lemma {:induction false} EmaStaysWithin(obs: seq<Observation>, lo: real, hi: real)
    requires obs != [] && ScoresWithin(obs, lo, hi)
    ensures lo <= ScoreEma(obs) <= hi
    ensures 0.0 <= BlockEma(obs) <= 1.0 && 0.0 <= ChaosEma(obs) <= 1.0
  {
    if |obs| > 1 {
      EmaStaysWithin(obs[..|obs| - 1], lo, hi);
    }
  }

  /** How many of the scores are outliers of centre `m` and variance `v`. */
  function OutlierCount(s: seq<real>, m: real, v: real): nat {
    if s == [] then 0
    else OutlierCount(s[..|s| - 1], m, v) + (if FarOff(s[|s| - 1], m, v) then 1 else 0)
  }

  lemma {:induction false} OutliersCost(s: seq<real>, m: real, v: real)
    requires v >= 0.0
    ensures SquaredDeviations(s, m) >= 4.0 * ((OutlierCount(s, m, v) as real) * v)
    ensures OutlierCount(s, m, v) > 0 ==> SquaredDeviations(s, m) > 4.0 * ((OutlierCount(s, m, v) as real) * v)
  {
    if s != [] {
      var c, d := OutlierCount(s[..|s| - 1], m, v), s[|s| - 1] - m;
      OutliersCost(s[..|s| - 1], m, v);
      SquareNonNegative(d);
      assert ((c + 1) as real) * v == (c as real) * v + v;
    }
  }

  /** How many of the first `n` observations the outlier test on the whole history reports. */
  function Reported(obs: seq<Observation>, n: nat): nat
    requires n <= |obs|
  {
    if n == 0 then 0
    else Reported(obs, n - 1) + (if Outlier(ScoresOf(obs), obs[n - 1].score) then 1 else 0)
  }

  lemma {:induction false} ReportedIsCount(obs: seq<Observation>, n: nat, m: real, v: real)
    requires n <= |obs| && m == Mean(ScoresOf(obs)) && v == Variance(ScoresOf(obs))
    ensures Reported(obs, n) == if v > 0.0 then OutlierCount(ScoresOf(obs[..n]), m, v) else 0
  {
    if n > 0 {
      ReportedIsCount(obs, n - 1, m, v);
      CountNext(obs, n - 1, m, v);
    }
  }

  lemma ScoresNext(obs: seq<Observation>, n: nat)
    requires n < |obs|
    ensures ScoresOf(obs[..n + 1]) == ScoresOf(obs[..n]) + [obs[n].score]
  {
    assert obs[..n + 1][..n] == obs[..n];
  }

  lemma CountNext(obs: seq<Observation>, n: nat, m: real, v: real)
    requires n < |obs|
    ensures OutlierCount(ScoresOf(obs[..n + 1]), m, v)
            == OutlierCount(ScoresOf(obs[..n]), m, v) + (if FarOff(obs[n].score, m, v) then 1 else 0)
  {
    ScoresNext(obs, n);
    CountGrows(ScoresOf(obs[..n]), obs[n].score, m, v);
  }

  lemma CountGrows(s: seq<real>, x: real, m: real, v: real)
    ensures OutlierCount(s + [x], m, v) == OutlierCount(s, m, v) + (if FarOff(x, m, v) then 1 else 0)
  {
    assert (s + [x])[..|s|] == s;
  }

  /**
   A detector that has seen a history, live or by replaying a log, reports fewer than a quarter
   of that history's own scores as z-score anomalies.
   */
  lemma OutliersAreRare(obs: seq<Observation>)
    requires obs != []
    ensures 4 * Reported(obs, |obs|) < |obs|
  {
    var s := ScoresOf(obs);
    ReportedIsCount(obs, |obs|, Mean(s), Variance(s));
    assert obs[..|obs|] == obs;
    ScoresCount(obs);
    if Variance(s) > 0.0 {
      FewOutliers(s, Mean(s), Variance(s), |s| as real);
    }
  }

  lemma FewOutliers(s: seq<real>, m: real, v: real, n: real)
    requires v > 0.0 && s != [] && n == |s| as real && v == SquaredDeviations(s, m) / n
    ensures 4 * OutlierCount(s, m, v) < |s|
  {
    var c := OutlierCount(s, m, v);
    if c > 0 {
      OutliersCost(s, m, v);
      OnlineStats.TimesQuotient(SquaredDeviations(s, m), n);
      LessThanQuarter(c as real, n, v, SquaredDeviations(s, m));
    }
  }

  lemma LessThanQuarter(c: real, n: real, v: real, d: real)
    requires v > 0.0 && d == n * v && d > 4.0 * (c * v)
    ensures n > 4.0 * c
  {
    assert d / v == n;
    assert 4.0 * (c * v) == (4.0 * c) * v;
    if n < 4.0 * c {
      ScaleUp(n, 4.0 * c, v);
    }
  }
}
