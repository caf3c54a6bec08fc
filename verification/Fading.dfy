/** How much earlier bursts still count (internal/actuate/probe_accumulator.go). */
module Fading {
  import opened Arithmetic
  import opened Options
  import opened Accumulator

  const SENT: Burst -> real := (b: Burst) => b.sent as real
  const LOST: Burst -> real := (b: Burst) => b.lost as real

  /** What is left of burst i: the product of all later decays. */
  function Weight(bursts: seq<Burst>, i: nat): real
    requires i < |bursts|
  {
    if i == |bursts| - 1 then 1.0 else Weight(bursts[..|bursts| - 1], i) * bursts[|bursts| - 1].decay
  }

  /** The first n bursts' probes or losses, each times its weight in the whole run. */
  function Faded(bursts: seq<Burst>, n: nat, f: Burst -> real): real
    requires n <= |bursts|
  {
    if n == 0 then 0.0 else Faded(bursts, n - 1, f) + f(bursts[n - 1]) * Weight(bursts, n - 1)
  }

  /** At no time did the faded probes exceed the ceiling of the burst that had just come in. */
  ghost predicate BelowCeiling(bursts: seq<Burst>) {
    forall i | 0 < i <= |bursts| ::
      bursts[i - 1].maxN == 0 || Faded(bursts[..i], i, SENT) <= bursts[i - 1].maxN as real
  }

  lemma {:induction false} FadedNext(bursts: seq<Burst>, n: nat, b: Burst, f: Burst -> real)
    requires n <= |bursts|
    ensures Faded(bursts + [b], n, f) == Faded(bursts, n, f) * b.decay
  {
    if n == 0 {
    } else {
      FadedNext(bursts, n - 1, b, f);
      assert (bursts + [b])[..|bursts|] == bursts;
      Spread(Faded(bursts, n - 1, f), f(bursts[n - 1]), Weight(bursts, n - 1), b.decay);
    }
  }

  lemma Spread(a: real, x: real, w: real, d: real)
    ensures (a + x * w) * d == a * d + x * (w * d)
  {
  }

  lemma FadedAll(bursts: seq<Burst>, b: Burst, f: Burst -> real)
    ensures Faded(bursts + [b], |bursts| + 1, f) == Faded(bursts, |bursts|, f) * b.decay + f(b)
  {
    FadedNext(bursts, |bursts|, b, f);
  }

  /** Below the ceiling the evidence is everything that ever came in, each burst times the decays since. */
  lemma {:induction false} EvidenceFades(bursts: seq<Burst>)
    requires BelowCeiling(bursts)
    ensures Evidenced(bursts) == Evidence(Faded(bursts, |bursts|, LOST), Faded(bursts, |bursts|, SENT))
  {
    if bursts == [] {
    } else {
      var front, b := bursts[..|bursts| - 1], bursts[|bursts| - 1];
      assert bursts == front + [b];
      BelowBefore(front, b);
      EvidenceFades(front);
      FadesNext(front, b);
    }
  }

  lemma BelowBefore(front: seq<Burst>, b: Burst)
    requires BelowCeiling(front + [b])
    ensures BelowCeiling(front)
    ensures b.maxN == 0 || Faded(front + [b], |front| + 1, SENT) <= b.maxN as real
  {
    var bursts := front + [b];
    assert bursts[..|bursts|] == bursts;
    forall i | 0 < i <= |front|
      ensures front[i - 1].maxN == 0 || Faded(front[..i], i, SENT) <= front[i - 1].maxN as real {
      assert front[..i] == bursts[..i];
    }
  }

  lemma FadesNext(front: seq<Burst>, b: Burst)
    requires Evidenced(front) == Evidence(Faded(front, |front|, LOST), Faded(front, |front|, SENT))
    requires b.maxN == 0 || Faded(front + [b], |front| + 1, SENT) <= b.maxN as real
    ensures Evidenced(front + [b]) ==
            Evidence(Faded(front + [b], |front| + 1, LOST), Faded(front + [b], |front| + 1, SENT))
  {
    EvidencedNext(front, b);
    FoldedFades(front, b);
    NotCapped(Folded(Evidenced(front), b), b.maxN);
  }

  lemma FoldedFades(front: seq<Burst>, b: Burst)
    ensures Folded(Evidence(Faded(front, |front|, LOST), Faded(front, |front|, SENT)), b) ==
            Evidence(Faded(front + [b], |front| + 1, LOST), Faded(front + [b], |front| + 1, SENT))
  {
    FadedAll(front, b, SENT);
    FadedAll(front, b, LOST);
  }

  lemma NotCapped(e: Evidence, maxN: nat)
    requires maxN == 0 || e.n <= maxN as real
    ensures Capped(e, maxN) == e
  {
  }

  /** In the accumulator's own fields. */
  lemma CountsFade(acc: ProbeAccumulator)
    requires acc.Valid() && BelowCeiling(acc.bursts)
    ensures acc.effectiveN == Faded(acc.bursts, |acc.bursts|, SENT)
    ensures acc.effectiveK == Faded(acc.bursts, |acc.bursts|, LOST)
  {
    EvidenceFades(acc.bursts);
  }

  // ---------- by age

  /** Burst i came in at time at[i], and everything before it decayed by the time since. */
  ghost predicate Timed(bursts: seq<Burst>, at: seq<real>, halfLife: real, exp: real -> real)
    requires halfLife > 0.0
  {
    && |at| == |bursts|
    && forall i | 0 < i < |bursts| :: bursts[i].decay == DecaySince(Some(at[i - 1]), at[i], halfLife, exp)
  }

  /** Only here: the exponential turns sums into products. */
  ghost predicate Multiplies(exp: real -> real) {
    exp(0.0) == 1.0 && forall x, y :: exp(x + y) == exp(x) * exp(y)
  }

  /** A burst counts by its age alone, whatever came in between and however often. */
  lemma {:induction false} WeightByAge(bursts: seq<Burst>, at: seq<real>, halfLife: real, exp: real -> real, i: nat)
    requires halfLife > 0.0 && Timed(bursts, at, halfLife, exp) && Multiplies(exp) && i < |bursts|
    ensures Weight(bursts, i) == DecaySince(Some(at[i]), at[|at| - 1], halfLife, exp)
    decreases |bursts|
  {
    var n := |bursts| - 1;
    if i == n {
      NoAge(at[n], halfLife);
    } else {
      TimedBefore(bursts, at, halfLife, exp);
      WeightByAge(bursts[..n], at[..n], halfLife, exp, i);
      AgesMultiply(at[i], at[n - 1], at[n], halfLife, exp, Weight(bursts[..n], i), bursts[n].decay);
    }
  }

  lemma NoAge(a: real, h: real)
    requires h > 0.0
    ensures -(a - a) / h == 0.0
  {
  }

  lemma TimedBefore(bursts: seq<Burst>, at: seq<real>, halfLife: real, exp: real -> real)
    requires halfLife > 0.0 && Timed(bursts, at, halfLife, exp) && |bursts| > 1
    ensures var n := |bursts| - 1;
            && Timed(bursts[..n], at[..n], halfLife, exp)
            && bursts[n].decay == DecaySince(Some(at[n - 1]), at[n], halfLife, exp)
  {
  }

  lemma AgesMultiply(a: real, b: real, c: real, h: real, exp: real -> real, w: real, decay: real)
    requires h > 0.0 && Multiplies(exp)
    requires w == DecaySince(Some(a), b, h, exp) && decay == DecaySince(Some(b), c, h, exp)
    ensures w * decay == DecaySince(Some(a), c, h, exp)
  {
    var x, y := -(b - a) / h, -(c - b) / h;
    SumOfAges(a, b, c, h);
    assert exp(x + y) == exp(x) * exp(y);
  }

  lemma SumOfAges(a: real, b: real, c: real, h: real)
    requires h > 0.0
    ensures -(b - a) / h + -(c - b) / h == -(c - a) / h
  {
  }

  // ---------- without decay

  /** m equal bursts without decay hold m times the losses and m times the probes: the test does accumulate. */
  lemma {:induction false} EvidenceAccumulates(bursts: seq<Burst>, lost: nat, sent: nat)
    requires forall i | 0 <= i < |bursts| :: bursts[i].decay == 1.0 && bursts[i].lost == lost && bursts[i].sent == sent
    requires forall i | 0 <= i < |bursts| :: bursts[i].maxN == 0 || |bursts| * sent <= bursts[i].maxN
    ensures Evidenced(bursts) == Evidence((|bursts| * lost) as real, (|bursts| * sent) as real)
  {
    var m := |bursts|;
    if m == 0 {
    } else {
      Multiple(m, lost);
      Multiple(m, sent);
      EvidenceAccumulates(bursts[..m - 1], lost, sent);
    }
  }

  lemma Multiple(m: nat, x: nat)
    requires m > 0
    ensures (m - 1) * x + x == m * x
  {
  }
}
