/** What ProbeNextHopAccumulating makes of a burst once it is measured (internal/actuate/prober.go). */
module Probing {
  import opened Arithmetic
  import opened Options
  import opened Wilson
  import opened Sprt
  import opened Accumulator

  datatype ProbeResult = ProbeResult(rttUs: real, lossRate: real, lossRateErr: real, probeCount: int)

  /** The settings of the test: indifference band, error rates, and the weight of loss in the cost. */
  datatype Test = Test(delta: real, alpha: real, beta: real, lossWeight: real)

  predicate Sensible(t: Test) {
    t.delta > 0.0 && 0.0 < t.alpha < 0.5 && 0.0 < t.beta < 0.5 && t.lossWeight > 0.0
  }

  /** The verdict on rounded counts against an active composite (None when there is no active path). */
  function Judgment(active: Option<real>, rttUs: real, effK: int, effN: int, t: Test, log: real -> real): ProbeOutcome
    requires Sensible(t)
  {
    if active.None? || active.value < 0.0 || rttUs <= 0.0 then Undecided else
      var p0 := P0FromActive(active, rttUs, t.lossWeight);
      if p0 < 0.0 then Undecided else Against(p0, effK, effN, t, log)
  }

  /** The verdict against a known tie. */
  function Against(p0: real, effK: int, effN: int, t: Test, log: real -> real): ProbeOutcome
    requires Sensible(t)
  {
    EvaluateSPRT(effK, effN, ClampRate(p0), ClampRate(p0 - t.delta), ClampRate(p0 + t.delta),
                 BoundaryA(t.alpha, t.beta, log), BoundaryB(t.alpha, t.beta, log), log)
  }

  /** A decision compares the counted loss rate with the rate of a tie, which then is strictly inside (0, 1). */
  lemma OutcomeRates(p0: real, p0c: real, p1: real, p2: real, A: real, B: real, effK: int, effN: int, t: Test,
                     log: real -> real, o: ProbeOutcome)
    requires Sensible(t) && Logarithm(log) && effN >= 0
    requires p0c == ClampRate(p0) && p1 == ClampRate(p0 - t.delta) && p2 == ClampRate(p0 + t.delta)
    requires A == BoundaryA(t.alpha, t.beta, log) && B == BoundaryB(t.alpha, t.beta, log)
    requires o == EvaluateSPRT(effK, effN, p0c, p1, p2, A, B, log)
    ensures o == Better ==> 0.0 < p0 < 1.0 && effK as real < p0 * effN as real
    ensures o == Worse ==> 0.0 < p0 < 1.0 && effK as real > p0 * effN as real
  {
    if p0 <= EPSILON || p0 >= 1.0 - EPSILON {
      EndsUndecided(effK, effN, p0, t.delta, t.alpha, t.beta, log);
    } else {
      InsideThresholds(p0, t.delta);
      DecisionsSound(effK, effN, p0, p1, p2, t.delta, t.alpha, t.beta, log);
    }
  }

  lemma AgainstRates(p0: real, effK: int, effN: int, t: Test, log: real -> real)
    requires Sensible(t) && Logarithm(log) && effN >= 0
    ensures var o := Against(p0, effK, effN, t, log);
            && (o == Better ==> 0.0 < p0 < 1.0 && effK as real < p0 * effN as real)
            && (o == Worse ==> 0.0 < p0 < 1.0 && effK as real > p0 * effN as real)
  {
    OutcomeRates(p0, ClampRate(p0), ClampRate(p0 - t.delta), ClampRate(p0 + t.delta),
                 BoundaryA(t.alpha, t.beta, log), BoundaryB(t.alpha, t.beta, log),
                 effK, effN, t, log, Against(p0, effK, effN, t, log));
  }

  lemma InsideThresholds(p0: real, delta: real)
    requires EPSILON < p0 < 1.0 - EPSILON && delta > 0.0
    ensures Thresholds(p0, ClampRate(p0 - delta), ClampRate(p0 + delta), delta) && ClampRate(p0) == p0
  {
  }

  /**
   * "Better" is only said of a challenger whose cost, from its RTT and the loss rate counted for it, is below
   * the active composite, and "worse" only of one whose cost is above it.
   */
  lemma VerdictSound(active: Option<real>, rttUs: real, effK: int, effN: int, t: Test, log: real -> real)
    requires Sensible(t) && Logarithm(log) && effN > 0
    ensures var o, cost := Judgment(active, rttUs, effK, effN, t, log), Cost(rttUs, t.lossWeight, effK, effN);
            && (o == Better ==> active.Some? && cost < active.value)
            && (o == Worse ==> active.Some? && cost > active.value)
  {
    var p0 := P0FromActive(active, rttUs, t.lossWeight);
    var against := Against(p0, effK, effN, t, log);
    AgainstRates(p0, effK, effN, t, log);
    VerdictSide(active, rttUs, p0, effK, effN, t.lossWeight, Cost(rttUs, t.lossWeight, effK, effN), against);
    assert Judgment(active, rttUs, effK, effN, t, log) in {Undecided, against};
  }

  lemma VerdictSide(active: Option<real>, rttUs: real, p0: real, effK: int, effN: int, lossWeight: real, cost: real,
                    o: ProbeOutcome)
    requires lossWeight > 0.0 && effN > 0
    requires p0 == P0FromActive(active, rttUs, lossWeight) && cost == Cost(rttUs, lossWeight, effK, effN)
    requires o == Better ==> 0.0 < p0 < 1.0 && effK as real < p0 * effN as real
    requires o == Worse ==> 0.0 < p0 < 1.0 && effK as real > p0 * effN as real
    ensures o == Better ==> active.Some? && cost < active.value
    ensures o == Worse ==> active.Some? && cost > active.value
  {
    SidesOfTie(active, rttUs, effK, effN, lossWeight);
  }

  lemma SidesOfTie(active: Option<real>, rttUs: real, effK: int, effN: int, lossWeight: real)
    requires lossWeight > 0.0 && effN > 0
    ensures var p0, cost := P0FromActive(active, rttUs, lossWeight), Cost(rttUs, lossWeight, effK, effN);
            0.0 < p0 < 1.0 ==>
              && active.Some?
              && (effK as real < p0 * effN as real ==> cost < active.value)
              && (effK as real > p0 * effN as real ==> cost > active.value)
  {
    TieMeaning(active, rttUs, lossWeight);
    CostSide(effK as real, effN as real, P0FromActive(active, rttUs, lossWeight), lossWeight);
  }

  /** The cost of a path of which only the RTT and the egress losses are known. */
  function Cost(rttUs: real, lossWeight: real, effK: int, effN: int): real
    requires effN > 0
  {
    rttUs + lossWeight * (effK as real / effN as real)
  }

  lemma CostSide(k: real, n: real, p0: real, w: real)
    requires n > 0.0 && w > 0.0
    ensures k < p0 * n ==> w * (k / n) < w * p0
    ensures k > p0 * n ==> w * (k / n) > w * p0
  {
    var q := k / n;
    assert q * n == k;
    if q < p0 {
      Product(w, p0 - q);
      Product(n, p0 - q);
    } else if q > p0 {
      Product(w, q - p0);
      Product(n, q - p0);
    }
  }

  /**
   * The tail of one probe: fold the burst in, test, and report from all the evidence that is left. The loss
   * rate is a rate, and its error band is never asked for more losses than probes.
   */
  method Conclude(acc: ProbeAccumulator, now: real, halfLife: real, kTick: nat, burstN: nat, rttMedianUs: real,
                  ceiling: nat, active: Option<real>, t: Test, exp: real -> real, log: real -> real,
                  sqrt: real -> real)
      returns (result: ProbeResult, outcome: ProbeOutcome)
    requires acc.Valid() && kTick <= burstN && halfLife > 0.0 && Exponential(exp) && Logarithm(log) && Sensible(t)
    requires acc.lastUpdate.Some? ==> acc.lastUpdate.value <= now
    modifies acc
    ensures acc.Valid() && acc.lastUpdate == Some(now)
    ensures var decay := DecaySince(old(acc.lastUpdate), now, halfLife, exp);
            && acc.bursts == old(acc.bursts) + [Burst(decay, kTick, burstN, if ceiling < burstN then burstN else ceiling)]
            && (old(acc.lastUpdate).Some? ==> Moved(old(acc.rttBaselineUs), acc.rttBaselineUs, decay, rttMedianUs))
            && (old(acc.lastUpdate).None? ==> acc.rttBaselineUs == rttMedianUs)
    ensures result.rttUs == acc.rttBaselineUs
    ensures 0.0 <= result.lossRate <= 1.0 && result.lossRate * acc.effectiveN == acc.effectiveK
    ensures 0 <= Round(acc.effectiveK) <= result.probeCount == Round(acc.effectiveN)
    ensures acc.effectiveN - 0.5 < result.probeCount as real <= acc.effectiveN + 0.5
    ensures result.lossRateErr == WilsonLossErr(Round(acc.effectiveK), result.probeCount, sqrt)
    ensures outcome == Judgment(active, acc.rttBaselineUs, Round(acc.effectiveK), result.probeCount, t, log)
    ensures acc.effectiveN <= (if ceiling < burstN then burstN else ceiling) as real || (ceiling == 0 && burstN == 0)
  {
    var maxN := ceiling;
    if maxN < burstN {
      maxN := burstN;
    }
    acc.Ingest(now, halfLife, kTick, burstN, rttMedianUs, maxN, exp);
    CountsOrdered(acc.bursts);

    RoundedOrdered(acc.effectiveK, acc.effectiveN);
    RoundedNearest(acc.effectiveN);
    outcome := Judge(acc, active, t, log);
    result := Report(acc, Round(acc.effectiveK), Round(acc.effectiveN), sqrt);
  }

  method Judge(acc: ProbeAccumulator, active: Option<real>, t: Test, log: real -> real)
      returns (outcome: ProbeOutcome)
    requires Sensible(t)
    ensures outcome == Judgment(active, acc.rttBaselineUs, Round(acc.effectiveK), Round(acc.effectiveN), t, log)
  {
    outcome := Undecided;
    if active.Some? && active.value >= 0.0 && acc.rttBaselineUs > 0.0 {
      var p0 := P0FromActive(active, acc.rttBaselineUs, t.lossWeight);
      if p0 >= 0.0 {
        var p0c, p1, p2 := ClampRate(p0), ClampRate(p0 - t.delta), ClampRate(p0 + t.delta);
        var A, B := BoundaryA(t.alpha, t.beta, log), BoundaryB(t.alpha, t.beta, log);
        outcome := EvaluateSPRT(Round(acc.effectiveK), Round(acc.effectiveN), p0c, p1, p2, A, B, log);
      }
    }
  }

  method LossRate(k: real, n: real) returns (lossRate: real)
    requires 0.0 <= k <= n
    ensures 0.0 <= lossRate <= 1.0 && lossRate * n == k
  {
    lossRate := 0.0;
    if n > 0.0 {
      lossRate := k / n;
      RateIsRate(k, n);
    }
  }

  method Report(acc: ProbeAccumulator, effK: int, effN: nat, sqrt: real -> real) returns (result: ProbeResult)
    requires 0.0 <= acc.effectiveK <= acc.effectiveN
    ensures result.rttUs == acc.rttBaselineUs && result.probeCount == effN
    ensures 0.0 <= result.lossRate <= 1.0 && result.lossRate * acc.effectiveN == acc.effectiveK
    ensures result.lossRateErr == WilsonLossErr(effK, effN, sqrt)
  {
    var lossRate := LossRate(acc.effectiveK, acc.effectiveN);
    result := ProbeResult(acc.rttBaselineUs, lossRate, WilsonLossErr(effK, effN, sqrt), effN);
  }
}
