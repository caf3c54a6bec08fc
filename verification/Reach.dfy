/** Which verdicts of the sequential test (internal/actuate/prober.go) some evidence can reach. */
module Reach {
  import opened Options
  import opened Arithmetic
  import opened Sprt
  import opened Probing

  // ---------- enough probes

  /** A positive slope passes any bound. */
  lemma Archimedes(slope: real, bound: real) returns (n: nat)
    requires slope > 0.0
    ensures n >= 1 && n as real * slope >= bound
  {
    var q := bound / slope;
    assert q * slope == bound;
    n := if q <= 1.0 then 1 else q.Floor + 1;
    Ordered(q, n as real, slope);
  }

  lemma MoreProbes(n: nat, m: nat, slope: real, bound: real)
    requires n <= m && slope > 0.0 && n as real * slope >= bound
    ensures m as real * slope >= bound
  {
    Ordered(n as real, m as real, slope);
  }

  /** A rising line passes one bound and a falling line another, from the same point on. */
  lemma BothPass(rise: real, fall: real, a: real, b: real) returns (n: nat)
    requires rise > 0.0 > fall
    ensures n >= 1 && n as real * rise >= a && n as real * fall <= b
  {
    var n1 := Archimedes(rise, a);
    var n2 := Archimedes(-fall, -b);
    n := if n1 <= n2 then n2 else n1;
    MoreProbes(n1, n, rise, a);
    MoreProbes(n2, n, -fall, -b);
    assert n as real * -fall == -(n as real * fall);
  }

  // ---------- the two extreme outcomes of n probes

  lemma NoneLost(n: nat, p0: real, p: real, log: real -> real)
    requires ClampRate(p0) == p0 && ClampRate(p) == p && 0.0 < p0 < 1.0
    ensures LLR(0, n, p0, p, log) == n as real * log((1.0 - p) / (1.0 - p0))
  {
    LLRLine(0, n, p0, p, log);
  }

  lemma OnlyLosses(n: nat, p0: real, p: real, log: real -> real)
    requires ClampRate(p0) == p0 && ClampRate(p) == p && 0.0 < p0 < 1.0
    ensures LLR(n, n, p0, p, log) == n as real * log(p / p0)
  {
    LLRLine(n, n, p0, p, log);
  }

  /** Strictly inside the loss range enough probes without a loss decide "better". */
  lemma BetterPossible(p0: real, p1: real, p2: real, delta: real, A: real, B: real, log: real -> real)
      returns (n: nat)
    requires Thresholds(p0, p1, p2, delta) && Logarithm(log)
    ensures EvaluateSPRT(0, n, p0, p1, p2, A, B, log) == Better
  {
    ThresholdsApart(p0, p1, p2, delta);
    SlopeSign(p0, p1, log);
    SlopeSign(p0, p2, log);
    n := BothPass(log((1.0 - p1) / (1.0 - p0)), log((1.0 - p2) / (1.0 - p0)), A, B);
    NoneLost(n, p0, p1, log);
    NoneLost(n, p0, p2, log);
  }

  /** And enough losses in a row decide "worse". */
  lemma WorsePossible(p0: real, p1: real, p2: real, delta: real, A: real, B: real, log: real -> real)
      returns (n: nat)
    requires Thresholds(p0, p1, p2, delta) && Logarithm(log) && B < A
    ensures EvaluateSPRT(n, n, p0, p1, p2, A, B, log) == Worse
  {
    ThresholdsApart(p0, p1, p2, delta);
    SlopeSign(p0, p1, log);
    SlopeSign(p0, p2, log);
    n := BothPass(log(p2 / p0), log(p1 / p0), A, B);
    OnlyLosses(n, p0, p1, log);
    OnlyLosses(n, p0, p2, log);
  }

  /** The case 0 <= k <= n in which some evidence decides. */
  ghost predicate Decidable(p0: real, t: Test, log: real -> real)
    requires Sensible(t)
  {
    exists k: nat, n: nat :: k <= n && Against(p0, k, n, t, log) != Undecided
  }

  lemma DecidedBy(p0: real, k: nat, n: nat, t: Test, log: real -> real)
    requires Sensible(t) && k <= n && Against(p0, k, n, t, log) != Undecided
    ensures Decidable(p0, t, log)
  {
  }

  /** Enough probes without a loss decide "better", enough losses in a row "worse". */
  ghost predicate BothWays(p0: real, t: Test, log: real -> real)
    requires Sensible(t)
  {
    && (exists n: nat :: Against(p0, 0, n, t, log) == Better)
    && (exists n: nat :: Against(p0, n, n, t, log) == Worse)
  }

  /** Some evidence decides, and then both ways, if and only if the tie lies strictly inside the clamps. */
  lemma DecidableInside(p0: real, t: Test, log: real -> real)
    requires Sensible(t) && Logarithm(log)
    ensures Decidable(p0, t, log) <==> EPSILON < p0 < 1.0 - EPSILON
    ensures BothWays(p0, t, log) <==> EPSILON < p0 < 1.0 - EPSILON
  {
    if EPSILON < p0 < 1.0 - EPSILON {
      var n := BetterAgainst(p0, t, log);
      DecidedBy(p0, 0, n, t, log);
      var m := WorseAgainst(p0, t, log);
    } else {
      forall k: nat, n: nat | k <= n ensures Against(p0, k, n, t, log) == Undecided {
        EndsUndecided(k, n, p0, t.delta, t.alpha, t.beta, log);
      }
    }
  }

  lemma BetterAgainst(p0: real, t: Test, log: real -> real) returns (n: nat)
    requires Sensible(t) && Logarithm(log) && EPSILON < p0 < 1.0 - EPSILON
    ensures Against(p0, 0, n, t, log) == Better
  {
    InsideThresholds(p0, t.delta);
    n := BetterPossible(p0, ClampRate(p0 - t.delta), ClampRate(p0 + t.delta), t.delta,
                        BoundaryA(t.alpha, t.beta, log), BoundaryB(t.alpha, t.beta, log), log);
  }

  lemma WorseAgainst(p0: real, t: Test, log: real -> real) returns (n: nat)
    requires Sensible(t) && Logarithm(log) && EPSILON < p0 < 1.0 - EPSILON
    ensures Against(p0, n, n, t, log) == Worse
  {
    InsideThresholds(p0, t.delta);
    BoundariesSeparate(t.alpha, t.beta, log);
    n := WorsePossible(p0, ClampRate(p0 - t.delta), ClampRate(p0 + t.delta), t.delta,
                       BoundaryA(t.alpha, t.beta, log), BoundaryB(t.alpha, t.beta, log), log);
  }

  // ---------- in terms of the active composite and the challenger's RTT

  /** Some evidence leads to a verdict. */
  ghost predicate VerdictPossible(active: Option<real>, rttUs: real, t: Test, log: real -> real)
    requires Sensible(t)
  {
    exists k: nat, n: nat :: k <= n && Judgment(active, rttUs, k, n, t, log) != Undecided
  }

  /** The challenger needs a measured RTT below the active composite, but not by a full loss rate's weight. */
  predicate Contestable(active: Option<real>, rttUs: real, lossWeight: real) {
    && active.Some? && rttUs > 0.0
    && rttUs + lossWeight * EPSILON < active.value < rttUs + lossWeight * (1.0 - EPSILON)
  }

  lemma TieInside(active: Option<real>, rttUs: real, lossWeight: real)
    requires lossWeight > 0.0 && rttUs > 0.0
    ensures EPSILON < P0FromActive(active, rttUs, lossWeight) < 1.0 - EPSILON <==> Contestable(active, rttUs, lossWeight)
  {
    var p0 := P0FromActive(active, rttUs, lossWeight);
    TieMeaning(active, rttUs, lossWeight);
    assert p0 <= 1.0;
    Product(lossWeight, EPSILON);
    if 0.0 <= p0 < 1.0 {
      InsideByCost(active.value, rttUs, lossWeight, p0, EPSILON, 1.0 - EPSILON);
    }
  }

  lemma InsideByCost(active: real, rttUs: real, w: real, p0: real, lo: real, hi: real)
    requires w > 0.0 && rttUs + w * p0 == active
    ensures lo < p0 < hi <==> rttUs + w * lo < active < rttUs + w * hi
  {
    SidesOfRate(lo, p0, w);
    SidesOfRate(p0, hi, w);
  }

  lemma SidesOfRate(p: real, q: real, w: real)
    requires w > 0.0
    ensures p < q <==> w * p < w * q
    ensures p > q <==> w * p > w * q
  {
    if p < q {
      Product(q - p, w);
    } else if p > q {
      Product(p - q, w);
    }
  }

  /**
   * A verdict is possible if and only if the active composite lies strictly between the challenger's cost
   * without loss and its cost with full loss, up to the clamps. A challenger that is too fast to tie is not
   * treated as better; it is never judged.
   */
  lemma VerdictExactly(active: Option<real>, rttUs: real, t: Test, log: real -> real)
    requires Sensible(t) && Logarithm(log)
    ensures VerdictPossible(active, rttUs, t, log) <==> Contestable(active, rttUs, t.lossWeight)
  {
    if rttUs > 0.0 {
      TieInside(active, rttUs, t.lossWeight);
      var p0 := P0FromActive(active, rttUs, t.lossWeight);
      DecidableInside(p0, t, log);
      VerdictIsAgainst(active, rttUs, p0, t, log);
    }
  }

  lemma VerdictIsAgainst(active: Option<real>, rttUs: real, p0: real, t: Test, log: real -> real)
    requires Sensible(t) && Logarithm(log) && rttUs > 0.0 && p0 == P0FromActive(active, rttUs, t.lossWeight)
    requires Decidable(p0, t, log) <==> EPSILON < p0 < 1.0 - EPSILON
    ensures VerdictPossible(active, rttUs, t, log) <==> Decidable(p0, t, log)
  {
    if Decidable(p0, t, log) {
      var k: nat, n: nat :| k <= n && Against(p0, k, n, t, log) != Undecided;
      assert Judgment(active, rttUs, k, n, t, log) == Against(p0, k, n, t, log);
    }
    if VerdictPossible(active, rttUs, t, log) {
      var k: nat, n: nat :| k <= n && Judgment(active, rttUs, k, n, t, log) != Undecided;
      assert Judgment(active, rttUs, k, n, t, log) == Against(p0, k, n, t, log);
    }
  }

  /** An active composite of 1000 and a challenger of 400 microseconds: p0 is 1, and nothing is ever decided. */
  lemma FastChallengerNeverJudged(t: Test, log: real -> real)
    requires Sensible(t) && Logarithm(log) && t.lossWeight == 500.0
    ensures P0FromActive(Some(1000.0), 400.0, t.lossWeight) == 1.0
    ensures !VerdictPossible(Some(1000.0), 400.0, t, log)
  {
    TieMeaning(Some(1000.0), 400.0, t.lossWeight);
    VerdictExactly(Some(1000.0), 400.0, t, log);
  }

  // ---------- under a ceiling

  /** Of all points with at most most probes, the corner without losses is the extreme one, or the one with only losses. */
  lemma Corners(k: real, n: real, most: real, a: real, b: real)
    requires 0.0 <= k <= n <= most
    ensures a <= 0.0 <= b ==> most * a <= Weigh(k, n, a, b) <= most * b
    ensures a >= 0.0 >= b ==> most * b <= Weigh(k, n, a, b) <= most * a
  {
    if a <= 0.0 <= b {
      ProductSign(k, -a);
      ProductSign(n - k, b);
      ProductSign(most - k, -a);
      ProductSign(most - (n - k), b);
      Corner(k, n, most, a, b);
    } else if a >= 0.0 >= b {
      ProductSign(k, a);
      ProductSign(n - k, -b);
      ProductSign(most - k, a);
      ProductSign(most - (n - k), -b);
      Corner(k, n, most, a, b);
    }
  }

  lemma Corner(k: real, n: real, most: real, a: real, b: real)
    ensures most * b - Weigh(k, n, a, b) == (most - (n - k)) * b - k * a
    ensures Weigh(k, n, a, b) - most * a == (n - k) * b - (most - k) * a
    ensures (most - k) * -a == -((most - k) * a) && k * -a == -(k * a)
    ensures (n - k) * -b == -((n - k) * b) && (most - (n - k)) * -b == -((most - (n - k)) * b)
  {
  }

  lemma LLRCorners(k: nat, n: nat, most: nat, p0: real, p: real, log: real -> real)
    requires k <= n <= most && ClampRate(p0) == p0 && ClampRate(p) == p && 0.0 < p0 < 1.0 && 0.0 < p < 1.0 && p != p0
    requires Logarithm(log)
    ensures p < p0 ==> LLR(most, most, p0, p, log) <= LLR(k, n, p0, p, log) <= LLR(0, most, p0, p, log)
    ensures p > p0 ==> LLR(0, most, p0, p, log) <= LLR(k, n, p0, p, log) <= LLR(most, most, p0, p, log)
  {
    SlopeSign(p0, p, log);
    LLRLine(k, n, p0, p, log);
    NoneLost(most, p0, p, log);
    OnlyLosses(most, p0, p, log);
    Corners(k as real, n as real, most as real, log(p / p0), log((1.0 - p) / (1.0 - p0)));
  }

  /**
   * Under a ceiling of `most` probes "better" is within reach if and only if `most` probes without a loss
   * decide it, and "worse" if and only if `most` losses do.
   */
  lemma WithinReach(most: nat, p0: real, p1: real, p2: real, delta: real, A: real, B: real, log: real -> real)
    requires Thresholds(p0, p1, p2, delta) && Logarithm(log) && B < A
    ensures (exists k: nat, n: nat :: k <= n <= most && EvaluateSPRT(k, n, p0, p1, p2, A, B, log) == Better)
       <==> EvaluateSPRT(0, most, p0, p1, p2, A, B, log) == Better
    ensures (exists k: nat, n: nat :: k <= n <= most && EvaluateSPRT(k, n, p0, p1, p2, A, B, log) == Worse)
       <==> EvaluateSPRT(most, most, p0, p1, p2, A, B, log) == Worse
  {
    forall k: nat, n: nat | k <= n <= most
      ensures EvaluateSPRT(k, n, p0, p1, p2, A, B, log) == Better ==> EvaluateSPRT(0, most, p0, p1, p2, A, B, log) == Better
      ensures EvaluateSPRT(k, n, p0, p1, p2, A, B, log) == Worse ==> EvaluateSPRT(most, most, p0, p1, p2, A, B, log) == Worse
    {
      ReachedByCorner(k, n, most, p0, p1, p2, delta, A, B, log);
    }
  }

  lemma ReachedByCorner(k: nat, n: nat, most: nat, p0: real, p1: real, p2: real, delta: real, A: real, B: real,
                        log: real -> real)
    requires Thresholds(p0, p1, p2, delta) && Logarithm(log) && B < A && k <= n <= most
    ensures EvaluateSPRT(k, n, p0, p1, p2, A, B, log) == Better ==> EvaluateSPRT(0, most, p0, p1, p2, A, B, log) == Better
    ensures EvaluateSPRT(k, n, p0, p1, p2, A, B, log) == Worse ==> EvaluateSPRT(most, most, p0, p1, p2, A, B, log) == Worse
  {
    ThresholdsApart(p0, p1, p2, delta);
    LLRCorners(k, n, most, p0, p1, log);
    LLRCorners(k, n, most, p0, p2, log);
  }
}
