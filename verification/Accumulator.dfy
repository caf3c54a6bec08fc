/** The decayed probe counts of internal/actuate/probe_accumulator.go. */
module Accumulator {
  import opened Arithmetic
  import opened Options

  /** All that is used of the exponential: positive, at most 1 up to 0, and at least 1 from there. */
  ghost predicate Exponential(exp: real -> real) {
    forall x :: exp(x) > 0.0 && (x <= 0.0 ==> exp(x) <= 1.0) && (x >= 0.0 ==> exp(x) >= 1.0)
  }

  /** Decayed counts: k losses out of n probes. */
  datatype Evidence = Evidence(k: real, n: real)

  /** One tick: how far the earlier evidence decays, what came in, and the ceiling in force. */
  datatype Burst = Burst(decay: real, lost: nat, sent: nat, maxN: nat)

  function Folded(e: Evidence, b: Burst): Evidence {
    Evidence(e.k * b.decay + b.lost as real, e.n * b.decay + b.sent as real)
  }

  /** At most maxN probes (0 is no limit). */
  function Capped(e: Evidence, maxN: nat): Evidence {
    if maxN > 0 && e.n > maxN as real then Evidence(e.k * (maxN as real / e.n), maxN as real) else e
  }

  /** The evidence left of a run of bursts. */
  function Evidenced(bursts: seq<Burst>): Evidence {
    if bursts == [] then Evidence(0.0, 0.0) else
      var b := bursts[|bursts| - 1];
      Capped(Folded(Evidenced(bursts[..|bursts| - 1]), b), b.maxN)
  }

  /**
   * What one burst makes of the counts: what was there times the decay, plus the burst; and beyond a ceiling of
   * maxN probes, as many as that in the same ratio.
   */
  predicate Took(before: Evidence, after: Evidence, decay: real, lost: nat, sent: nat, maxN: nat) {
    var k, n := before.k * decay + lost as real, before.n * decay + sent as real;
    if maxN == 0 || n <= maxN as real then after.k == k && after.n == n
    else after.n == maxN as real && after.k * n == k * after.n
  }

  lemma FoldedTook(e: Evidence, b: Burst)
    ensures Took(e, Capped(Folded(e, b), b.maxN), b.decay, b.lost, b.sent, b.maxN)
  {
    if b.maxN > 0 && Folded(e, b).n > b.maxN as real {
      CappedKeepsRatio(Folded(e, b), b.maxN);
    }
  }

  lemma CappedKeepsRatio(e: Evidence, maxN: nat)
    requires maxN > 0 && e.n > maxN as real
    ensures Capped(e, maxN).k * e.n == e.k * Capped(e, maxN).n
  {
    var q := maxN as real / e.n;
    assert q * e.n == maxN as real;
    assert e.k * q * e.n == e.k * (q * e.n);
  }

  /** What one measured RTT makes of the baseline: the distance to it decays; without one nothing moves. */
  predicate Moved(before: real, after: real, decay: real, rtt: real) {
    if rtt > 0.0 then after - rtt == decay * (before - rtt) else after == before
  }

  predicate Proper(b: Burst) {
    b.lost <= b.sent && 0.0 < b.decay <= 1.0
  }

  /** How far evidence decays until now; there is none before the first burst. */
  function DecaySince(last: Option<real>, now: real, halfLife: real, exp: real -> real): real
    requires halfLife > 0.0
  {
    if last.None? then 1.0 else exp(-(now - last.value) / halfLife)
  }

  /** Conversion to an integer drops the fraction. */
  function Truncate(x: real): int {
    if x >= 0.0 then x.Floor else -((-x).Floor)
  }

  /** math.Round on the non-negative values it is used on. */
  function Round(x: real): int {
    Truncate(x + 0.5)
  }

  class ProbeAccumulator {
    var effectiveK: real
    var effectiveN: real
    var rttBaselineUs: real
    var lastUpdate: Option<real>
    ghost var bursts: seq<Burst>

    ghost predicate Valid()
      reads this
    {
      && Counts() == Evidenced(bursts)
      && (forall i | 0 <= i < |bursts| :: Proper(bursts[i]))
      && (lastUpdate.None? <==> bursts == [])
    }

    function Counts(): Evidence
      reads this
    {
      Evidence(effectiveK, effectiveN)
    }

    constructor ()
      ensures Valid() && bursts == []
    {
      effectiveK, effectiveN, rttBaselineUs, lastUpdate := 0.0, 0.0, 0.0, None;
      bursts := [];
    }

    method Ingest(now: real, halfLife: real, kTick: nat, nTick: nat, rttMedianUs: real, maxN: nat, exp: real -> real)
      requires Valid() && kTick <= nTick && halfLife > 0.0 && Exponential(exp)
      requires lastUpdate.Some? ==> lastUpdate.value <= now
      modifies this
      ensures Valid() && lastUpdate == Some(now)
      ensures var decay := if old(lastUpdate).None? then 1.0 else exp(-(now - old(lastUpdate).value) / halfLife);
              && bursts == old(bursts) + [Burst(decay, kTick, nTick, maxN)]
              && Took(old(Counts()), Counts(), decay, kTick, nTick, maxN)
              && (old(lastUpdate).Some? ==> Moved(old(rttBaselineUs), rttBaselineUs, decay, rttMedianUs))
      ensures old(lastUpdate).None? ==> rttBaselineUs == rttMedianUs
    {
      ghost var b := Burst(DecaySince(lastUpdate, now, halfLife, exp), kTick, nTick, maxN);
      ghost var before := Counts();
      DecayProper(lastUpdate, now, halfLife, exp);
      EvidencedNext(bursts, b);
      FoldedTook(before, b);
      Absorb(b, now, halfLife, kTick, nTick, rttMedianUs, exp);
      lastUpdate := Some(now);
      bursts := bursts + [b];
      Cap(maxN);
    }

    /** The first burst is taken as it is; a later one is added to what time has left of the others. */
    method Absorb(ghost b: Burst, now: real, halfLife: real, kTick: nat, nTick: nat, rttMedianUs: real, exp: real -> real)
      requires halfLife > 0.0 && b.decay == DecaySince(lastUpdate, now, halfLife, exp)
      requires b.lost == kTick && b.sent == nTick && (lastUpdate.None? ==> Counts() == Evidence(0.0, 0.0))
      modifies this`effectiveK, this`effectiveN, this`rttBaselineUs
      ensures Counts() == Folded(old(Counts()), b)
      ensures lastUpdate.Some? ==> Moved(old(rttBaselineUs), rttBaselineUs, b.decay, rttMedianUs)
      ensures lastUpdate.None? ==> rttBaselineUs == rttMedianUs
    {
      if lastUpdate.None? {
        effectiveK, effectiveN := kTick as real, nTick as real;
        rttBaselineUs := rttMedianUs;
      } else {
        var dt := now - lastUpdate.value;
        var decay := exp(-dt / halfLife);
        Fold(b, kTick, nTick, decay);
        BlendBaseline(rttMedianUs, decay);
      }
    }

    method Fold(ghost b: Burst, kTick: nat, nTick: nat, decay: real)
      requires b.decay == decay && b.lost == kTick && b.sent == nTick
      modifies this`effectiveK, this`effectiveN
      ensures Counts() == Folded(old(Counts()), b)
    {
      effectiveK := effectiveK * decay + kTick as real;
      effectiveN := effectiveN * decay + nTick as real;
    }

    method BlendBaseline(rttMedianUs: real, decay: real)
      modifies this`rttBaselineUs
      ensures Moved(old(rttBaselineUs), rttBaselineUs, decay, rttMedianUs)
    {
      if rttMedianUs > 0.0 {
        var alpha := 1.0 - decay;
        rttBaselineUs := alpha * rttMedianUs + (1.0 - alpha) * rttBaselineUs;
      }
    }

    method Cap(maxN: nat)
      modifies this`effectiveK, this`effectiveN
      ensures Counts() == Capped(old(Counts()), maxN)
    {
      if maxN > 0 && effectiveN > maxN as real {
        var scale := maxN as real / effectiveN;
        effectiveN := maxN as real;
        effectiveK := effectiveK * scale;
      }
    }

    /** clamp(multiplier * baseline, floor, configured), in microseconds; no baseline, no adaptation. */
    method AdaptiveTimeout(configured: int, multiplier: real, floor: int) returns (t: int)
      ensures rttBaselineUs <= 0.0 ==> t == configured
      ensures rttBaselineUs > 0.0 ==>
                var wanted := Truncate(rttBaselineUs * multiplier);
                && t <= configured && (t >= floor || t == configured)
                && (floor <= wanted <= configured ==> t == wanted)
                && (wanted < floor <= configured ==> t == floor)
                && (wanted > configured || floor > configured ==> t == configured)
    {
      if rttBaselineUs <= 0.0 {
        return configured;
      }
      t := Truncate(rttBaselineUs * multiplier);
      if t < floor {
        t := floor;
      }
      if t > configured {
        t := configured;
      }
    }
  }

  lemma DecayProper(last: Option<real>, now: real, halfLife: real, exp: real -> real)
    requires halfLife > 0.0 && Exponential(exp) && (last.Some? ==> last.value <= now)
    ensures 0.0 < DecaySince(last, now, halfLife, exp) <= 1.0
  {
    assert last.Some? ==> -(now - last.value) / halfLife <= 0.0;
  }

  lemma EvidencedNext(bursts: seq<Burst>, b: Burst)
    ensures Evidenced(bursts + [b]) == Capped(Folded(Evidenced(bursts), b), b.maxN)
    ensures bursts == [] && b.decay == 1.0 ==> Folded(Evidenced(bursts), b) == Alone(b)
  {
    assert (bursts + [b])[..|bursts|] == bursts;
  }

  // ---------- what any run of bursts leaves

  /** rate * n <= k: the evidence shows at least this loss rate. */
  predicate AtLeast(e: Evidence, rate: real) {
    rate * e.n <= e.k
  }

  predicate AtMost(e: Evidence, rate: real) {
    e.k <= rate * e.n
  }

  function Alone(b: Burst): Evidence {
    Evidence(b.lost as real, b.sent as real)
  }

  /** Whatever bounds the evidence and the burst on one side bounds their fold on that side. */
  lemma FoldedBound(e: Evidence, b: Burst, rate: real)
    requires b.decay > 0.0
    ensures AtLeast(e, rate) && AtLeast(Alone(b), rate) ==> AtLeast(Folded(e, b), rate)
    ensures AtMost(e, rate) && AtMost(Alone(b), rate) ==> AtMost(Folded(e, b), rate)
  {
    assert rate * Folded(e, b).n == (rate * e.n) * b.decay + rate * b.sent as real;
    if AtLeast(e, rate) {
      Ordered(rate * e.n, e.k, b.decay);
    }
    if AtMost(e, rate) {
      Ordered(e.k, rate * e.n, b.decay);
    }
  }

  /** The ceiling takes away probes and losses alike. */
  lemma CappedBound(e: Evidence, maxN: nat, rate: real)
    ensures AtLeast(e, rate) ==> AtLeast(Capped(e, maxN), rate)
    ensures AtMost(e, rate) ==> AtMost(Capped(e, maxN), rate)
  {
    if maxN > 0 && e.n > maxN as real {
      Quotient(maxN as real, e.n);
      ScaledBound(e, maxN as real / e.n, maxN as real, rate);
    }
  }

  lemma Quotient(m: real, n: real)
    requires m > 0.0 && n > 0.0
    ensures m / n > 0.0 && n * (m / n) == m
  {
  }

  lemma ScaledBound(e: Evidence, scale: real, m: real, rate: real)
    requires scale > 0.0 && e.n * scale == m
    ensures AtLeast(e, rate) ==> AtLeast(Evidence(e.k * scale, m), rate)
    ensures AtMost(e, rate) ==> AtMost(Evidence(e.k * scale, m), rate)
  {
    ScaledOrder(rate * e.n, e.k, scale, rate * m, e.k * scale) by {
      assert rate * m == rate * (e.n * scale) == rate * e.n * scale;
    }
  }

  lemma ScaledOrder(x: real, y: real, scale: real, x': real, y': real)
    requires scale > 0.0 && x' == x * scale && y' == y * scale
    ensures x <= y ==> x' <= y'
    ensures y <= x ==> y' <= x'
  {
    if x <= y {
      Ordered(x, y, scale);
    }
    if y <= x {
      Ordered(y, x, scale);
    }
  }

  /** Any lower bound on the loss rate of every burst is one on the evidence, and any upper bound too. */
  lemma {:induction false} RateBetween(bursts: seq<Burst>, lo: real, hi: real)
    requires forall i | 0 <= i < |bursts| :: Proper(bursts[i])
    requires forall i | 0 <= i < |bursts| :: AtLeast(Alone(bursts[i]), lo) && AtMost(Alone(bursts[i]), hi)
    ensures AtLeast(Evidenced(bursts), lo) && AtMost(Evidenced(bursts), hi)
  {
    if bursts == [] {
    } else {
      var front, b := bursts[..|bursts| - 1], bursts[|bursts| - 1];
      RateBetween(front, lo, hi);
      FoldedBound(Evidenced(front), b, lo);
      FoldedBound(Evidenced(front), b, hi);
      CappedBound(Folded(Evidenced(front), b), b.maxN, lo);
      CappedBound(Folded(Evidenced(front), b), b.maxN, hi);
    }
  }

  /** Losses never exceed probes, and the probes stay at or below the ceiling of the last burst. */
  lemma {:induction false} CountsOrdered(bursts: seq<Burst>)
    requires forall i | 0 <= i < |bursts| :: Proper(bursts[i])
    ensures 0.0 <= Evidenced(bursts).k <= Evidenced(bursts).n
    ensures bursts != [] && bursts[|bursts| - 1].maxN > 0 ==>
              Evidenced(bursts).n <= bursts[|bursts| - 1].maxN as real
  {
    RateBetween(bursts, 0.0, 1.0);
  }

  /** The newest burst counts in full unless the ceiling cuts in, however old the rest is. */
  lemma NewestCountsInFull(bursts: seq<Burst>)
    requires bursts != [] && forall i | 0 <= i < |bursts| :: Proper(bursts[i])
    requires var b := bursts[|bursts| - 1]; b.maxN == 0 || b.sent <= b.maxN
    ensures Evidenced(bursts).n >= bursts[|bursts| - 1].sent as real
  {
    var front, b := bursts[..|bursts| - 1], bursts[|bursts| - 1];
    CountsOrdered(front);
    FoldedAtLeastNew(Evidenced(front), b);
    CappedAtLeast(Folded(Evidenced(front), b), b.maxN, b.sent);
  }

  lemma FoldedAtLeastNew(e: Evidence, b: Burst)
    requires e.n >= 0.0 && b.decay > 0.0
    ensures Folded(e, b).n >= b.sent as real
  {
    Ordered(0.0, e.n, b.decay);
  }

  lemma CappedAtLeast(e: Evidence, maxN: nat, n: nat)
    requires e.n >= n as real && (maxN == 0 || n <= maxN)
    ensures Capped(e, maxN).n >= n as real
  {
  }

  /** The rounded loss count never exceeds the rounded probe count, so the error band is never asked for k > n. */
  lemma RoundedOrdered(k: real, n: real)
    requires 0.0 <= k <= n
    ensures 0 <= Round(k) <= Round(n)
  {
  }

  /** It is the nearest whole number, the higher one in the middle. */
  lemma RoundedNearest(x: real)
    requires x >= 0.0
    ensures x - 0.5 < Round(x) as real <= x + 0.5
  {
  }
}
