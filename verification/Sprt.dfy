/** The three-decision sequential test of internal/actuate/prober.go. */
module Sprt {
  import opened Arithmetic
  import opened Options

  datatype ProbeOutcome = Undecided | Better | Worse | Indifferent

  const EPSILON: real := 0.000000000000001

  function MaxReal(a: real, b: real): real {
    if a >= b then a else b
  }

  function MinReal(a: real, b: real): real {
    if a <= b then a else b
  }

  /** Into the closed interval [epsilon, 1 - epsilon]. */
  function ClampRate(p: real): real {
    MaxReal(EPSILON, MinReal(1.0 - EPSILON, p))
  }

  function LLR(k: int, n: int, p0: real, p1: real, log: real -> real): real {
    var p0c, p1c := ClampRate(p0), ClampRate(p1);
    k as real * log(p1c / p0c) + (n as real - k as real) * log((1.0 - p1c) / (1.0 - p0c))
  }

  function EvaluateSPRT(k: int, n: int, p0: real, p1: real, p2: real, A: real, B: real, log: real -> real): ProbeOutcome {
    if n == 0 then Undecided else
      var llrBetter := LLR(k, n, p0, p1, log);
      var llrWorse := LLR(k, n, p0, p2, log);
      if llrBetter >= A && llrWorse <= B then Better
      else if llrWorse >= A && llrBetter <= B then Worse
      else if llrBetter <= B && llrWorse <= B then Indifferent
      else Undecided
  }

  /** sprtBoundaries: accept H1 from A up, accept H0 from B down. */
  function BoundaryA(alpha: real, beta: real, log: real -> real): real
    requires alpha > 0.0
  {
    log((1.0 - beta) / alpha)
  }

  function BoundaryB(alpha: real, beta: real, log: real -> real): real
    requires alpha < 1.0
  {
    log(beta / (1.0 - alpha))
  }

  /**
   * The loss rate at which a challenger with this RTT would tie with the active path, or -1. An active path
   * that is not there has an infinite composite, here None.
   */
  function P0FromActive(activeComposite: Option<real>, rttUs: real, lossWeight: real): real
    requires lossWeight > 0.0
  {
    if activeComposite.None? || activeComposite.value < 0.0 then -1.0 else
      var p0 := (activeComposite.value - 1.0 * rttUs) / lossWeight;
      if p0 < 0.0 then -1.0 else if p0 > 1.0 then 1.0 else p0
  }

  /** All that is used of the logarithm: strictly increasing on the positive reals, 0 at 1, at most x - 1. */
  ghost predicate Logarithm(log: real -> real) {
    && log(1.0) == 0.0
    && (forall x, y | 0.0 < x < y :: log(x) < log(y))
    && forall x | x > 0.0 :: log(x) <= x - 1.0
  }

  /** The thresholds that ProbeNextHopAccumulating derives from an active rate p0 and a band delta. */
  ghost predicate Thresholds(p0: real, p1: real, p2: real, delta: real) {
    && EPSILON < p0 < 1.0 - EPSILON && delta > 0.0
    && p1 == ClampRate(p0 - delta) && p2 == ClampRate(p0 + delta)
  }

  lemma BoundariesSeparate(alpha: real, beta: real, log: real -> real)
    requires 0.0 < alpha < 0.5 && 0.0 < beta < 0.5 && Logarithm(log)
    ensures BoundaryB(alpha, beta, log) < 0.0 < BoundaryA(alpha, beta, log)
  {
    OverOne(1.0 - beta, alpha);
    UnderOne(beta, 1.0 - alpha);
  }

  lemma OverOne(a: real, b: real)
    requires a > b > 0.0
    ensures a / b > 1.0
  {
    Overtakes(a / b, a, b);
  }

  lemma Overtakes(q: real, a: real, b: real)
    requires q * b == a && b > 0.0
    ensures a > b ==> q > 1.0
    ensures 0.0 < a < b ==> 0.0 < q < 1.0
  {
    if q > 1.0 {
      Product(q - 1.0, b);
    } else if q < 1.0 {
      Product(1.0 - q, b);
      if q < 0.0 {
        Product(-q, b);
      }
    }
  }

  lemma UnderOne(a: real, b: real)
    requires 0.0 < a < b
    ensures 0.0 < a / b < 1.0
  {
    Overtakes(a / b, a, b);
  }

  /** Each log-likelihood ratio is a straight line in k whose slope has the sign of p1 - p0. */
  lemma SlopeSign(p0: real, p: real, log: real -> real)
    requires 0.0 < p0 < 1.0 && 0.0 < p < 1.0 && p != p0 && Logarithm(log)
    ensures p < p0 ==> log(p / p0) < 0.0 < log((1.0 - p) / (1.0 - p0))
    ensures p > p0 ==> log(p / p0) > 0.0 > log((1.0 - p) / (1.0 - p0))
  {
    if p < p0 {
      UnderOne(p, p0);
      OverOne(1.0 - p, 1.0 - p0);
    } else {
      OverOne(p, p0);
      UnderOne(1.0 - p, 1.0 - p0);
    }
  }

  /** The ratio as a line in the number of losses. */
  function Weigh(k: real, n: real, a: real, b: real): real {
    k * a + (n - k) * b
  }

  lemma LinearStep(k: real, k': real, n: real, a: real, b: real)
    requires k < k'
    ensures a < b ==> Weigh(k', n, a, b) < Weigh(k, n, a, b)
    ensures a > b ==> Weigh(k', n, a, b) > Weigh(k, n, a, b)
  {
    assert (k' * a + (n - k') * b) - (k * a + (n - k) * b) == (k' - k) * (a - b);
    if a < b {
      Product(k' - k, b - a);
    } else if a > b {
      Product(k' - k, a - b);
    }
  }

  /** The clamps leave p0 alone and keep the three rates apart. */
  lemma ThresholdsApart(p0: real, p1: real, p2: real, delta: real)
    requires Thresholds(p0, p1, p2, delta)
    ensures ClampRate(p0) == p0 && ClampRate(p1) == p1 && ClampRate(p2) == p2
    ensures 0.0 < p1 < p0 < p2 < 1.0
  {
  }

  lemma LLRLine(k: int, n: int, p0: real, p: real, log: real -> real)
    requires ClampRate(p0) == p0 && ClampRate(p) == p && 0.0 < p0 < 1.0
    ensures LLR(k, n, p0, p, log) == Weigh(k as real, n as real, log(p / p0), log((1.0 - p) / (1.0 - p0)))
  {
  }

  /** More losses make "better" less and "worse" more likely, strictly. */
  lemma LLRMonotone(k: int, k': int, n: int, p0: real, p1: real, p2: real, delta: real, log: real -> real)
    requires k < k' && Thresholds(p0, p1, p2, delta) && Logarithm(log)
    ensures LLR(k', n, p0, p1, log) < LLR(k, n, p0, p1, log)
    ensures LLR(k', n, p0, p2, log) > LLR(k, n, p0, p2, log)
  {
    ThresholdsApart(p0, p1, p2, delta);
    LLRSteps(k, k', n, p0, p1, log);
    LLRSteps(k, k', n, p0, p2, log);
  }

  lemma LLRSteps(k: int, k': int, n: int, p0: real, p: real, log: real -> real)
    requires k < k' && ClampRate(p0) == p0 && ClampRate(p) == p && 0.0 < p0 < 1.0 && 0.0 < p < 1.0 && p != p0
    requires Logarithm(log)
    ensures p < p0 ==> LLR(k', n, p0, p, log) < LLR(k, n, p0, p, log)
    ensures p > p0 ==> LLR(k', n, p0, p, log) > LLR(k, n, p0, p, log)
  {
    LLRLine(k, n, p0, p, log);
    LLRLine(k', n, p0, p, log);
    SlopeSign(p0, p, log);
    LinearStep(k as real, k' as real, n as real, log(p / p0), log((1.0 - p) / (1.0 - p0)));
  }

  /** At a loss rate of exactly p0 no alternative is more likely than p0 itself. */
  lemma LineAtTie(n: real, p0: real, p: real, a: real, b: real, rise: real, fall: real)
    requires n >= 0.0 && 0.0 < p0 < 1.0 && 0.0 < p < 1.0
    requires rise * p0 == p && fall * (1.0 - p0) == 1.0 - p
    requires a <= rise - 1.0 && b <= fall - 1.0
    ensures Weigh(p0 * n, n, a, b) <= 0.0
  {
    var up, down := p0 * a, (1.0 - p0) * b;
    Weighted(p0, p, a, rise);
    Weighted(1.0 - p0, 1.0 - p, b, fall);
    SignedProduct(n, up + down);
    assert Weigh(p0 * n, n, a, b) == n * (up + down) by { Factored(n, p0, a, b); }
  }

  lemma Factored(n: real, p0: real, a: real, b: real)
    ensures Weigh(p0 * n, n, a, b) == n * (p0 * a + (1.0 - p0) * b)
  {
    assert (n - p0 * n) * b == n * ((1.0 - p0) * b);
  }

  lemma Weighted(w: real, v: real, a: real, ratio: real)
    requires w > 0.0 && a <= ratio - 1.0 && ratio * w == v
    ensures w * a <= v - w
  {
    var slack := ratio - 1.0 - a;
    assert (a + 1.0 + slack) * w == v;
    assert (a + 1.0 + slack) * w == w * a + w + slack * w;
    SignedProduct(w, -slack);
  }

  /** An alternative below p0 is favoured only by a loss rate below p0, one above it only by a rate above. */
  lemma FavouredOnlyBeyond(k: int, n: int, p0: real, p: real, log: real -> real)
    requires n >= 0 && ClampRate(p0) == p0 && ClampRate(p) == p && 0.0 < p0 < 1.0 && 0.0 < p < 1.0 && p != p0
    requires Logarithm(log) && LLR(k, n, p0, p, log) > 0.0
    ensures p < p0 ==> k as real < p0 * n as real
    ensures p > p0 ==> k as real > p0 * n as real
  {
    LLRLine(k, n, p0, p, log);
    SlopeSign(p0, p, log);
    NotFavouredAtTie(n as real, p0, p, log);
    BeyondTie(k as real, p0 * n as real, n as real, log(p / p0), log((1.0 - p) / (1.0 - p0)));
  }

  lemma NotFavouredAtTie(n: real, p0: real, p: real, log: real -> real)
    requires n >= 0.0 && 0.0 < p0 < 1.0 && 0.0 < p < 1.0 && Logarithm(log)
    ensures Weigh(p0 * n, n, log(p / p0), log((1.0 - p) / (1.0 - p0))) <= 0.0
  {
    LogBelow(p, p0, log);
    LogBelow(1.0 - p, 1.0 - p0, log);
    LineAtTie(n, p0, p, log(p / p0), log((1.0 - p) / (1.0 - p0)), p / p0, (1.0 - p) / (1.0 - p0));
  }

  /** A line that is not positive at the tie is positive only on the side to which it rises. */
  lemma BeyondTie(k: real, tie: real, n: real, a: real, b: real)
    requires Weigh(tie, n, a, b) <= 0.0 < Weigh(k, n, a, b)
    ensures a < b ==> k < tie
    ensures a > b ==> k > tie
  {
    if k < tie {
      LinearStep(k, tie, n, a, b);
    } else if k > tie {
      LinearStep(tie, k, n, a, b);
    }
  }

  lemma LogBelow(x: real, y: real, log: real -> real)
    requires x > 0.0 && y > 0.0 && Logarithm(log)
    ensures x / y * y == x && log(x / y) <= x / y - 1.0
  {
    var q := x / y;
    assert q * y == x;
    assert q > 0.0;
  }

  /** A decision means what it says: "better" is only said of a loss rate below the tie, "worse" of one above it. */
  lemma DecisionsSound(k: int, n: int, p0: real, p1: real, p2: real, delta: real,
                       alpha: real, beta: real, log: real -> real)
    requires n >= 0 && Thresholds(p0, p1, p2, delta) && Logarithm(log)
    requires 0.0 < alpha < 0.5 && 0.0 < beta < 0.5
    ensures var o := EvaluateSPRT(k, n, p0, p1, p2, BoundaryA(alpha, beta, log), BoundaryB(alpha, beta, log), log);
            && (o == Better ==> k as real < p0 * n as real)
            && (o == Worse ==> k as real > p0 * n as real)
  {
    BoundariesSeparate(alpha, beta, log);
    ThresholdsApart(p0, p1, p2, delta);
    var o := EvaluateSPRT(k, n, p0, p1, p2, BoundaryA(alpha, beta, log), BoundaryB(alpha, beta, log), log);
    if o == Better {
      FavouredOnlyBeyond(k, n, p0, p1, log);
    } else if o == Worse {
      FavouredOnlyBeyond(k, n, p0, p2, log);
    }
  }

  function Position(o: ProbeOutcome): int {
    match o
    case Better => 0
    case Indifferent => 1
    case Worse => 2
    case Undecided => -1
  }

  /**
   * For a fixed number of probes the decisions come in order: every loss count that decides "better" is
   * below every one that decides "indifferent", and those are below every one that decides "worse".
   */
  lemma DecisionsOrdered(k: int, k': int, n: int, p0: real, p1: real, p2: real, delta: real,
                         alpha: real, beta: real, log: real -> real)
    requires k < k' && Thresholds(p0, p1, p2, delta) && Logarithm(log)
    requires 0.0 < alpha < 0.5 && 0.0 < beta < 0.5
    ensures var A, B := BoundaryA(alpha, beta, log), BoundaryB(alpha, beta, log);
            var o, o' := EvaluateSPRT(k, n, p0, p1, p2, A, B, log), EvaluateSPRT(k', n, p0, p1, p2, A, B, log);
            o != Undecided && o' != Undecided ==> Position(o) <= Position(o')
  {
    LLRMonotone(k, k', n, p0, p1, p2, delta, log);
    BoundariesSeparate(alpha, beta, log);
  }

  /** Between two loss counts with the same decision lies only that decision: each decision is an interval. */
  lemma DecisionsConvex(k: int, m: int, k': int, n: int, p0: real, p1: real, p2: real, delta: real,
                        alpha: real, beta: real, log: real -> real)
    requires k < m < k' && Thresholds(p0, p1, p2, delta) && Logarithm(log)
    requires 0.0 < alpha < 0.5 && 0.0 < beta < 0.5
    ensures var A, B := BoundaryA(alpha, beta, log), BoundaryB(alpha, beta, log);
            var o := EvaluateSPRT(k, n, p0, p1, p2, A, B, log);
            o != Undecided && EvaluateSPRT(k', n, p0, p1, p2, A, B, log) == o ==>
              EvaluateSPRT(m, n, p0, p1, p2, A, B, log) == o
  {
    LLRMonotone(k, m, n, p0, p1, p2, delta, log);
    LLRMonotone(m, k', n, p0, p1, p2, delta, log);
    BoundariesSeparate(alpha, beta, log);
  }

  /** At most one of the three conditions holds, so the order in which they are tried is irrelevant. */
  lemma DecisionsExclusive(k: int, n: int, p0: real, p1: real, p2: real, alpha: real, beta: real, log: real -> real)
    requires 0.0 < alpha < 0.5 && 0.0 < beta < 0.5 && Logarithm(log) && n != 0
    ensures var A, B := BoundaryA(alpha, beta, log), BoundaryB(alpha, beta, log);
            var better, worse := LLR(k, n, p0, p1, log), LLR(k, n, p0, p2, log);
            var o := EvaluateSPRT(k, n, p0, p1, p2, A, B, log);
            && (o == Better <==> better >= A && worse <= B)
            && (o == Worse <==> worse >= A && better <= B)
            && (o == Indifferent <==> better <= B && worse <= B)
  {
    BoundariesSeparate(alpha, beta, log);
  }

  /** The tie is where the challenger's cost meets the active composite. */
  lemma TieMeaning(activeComposite: Option<real>, rttUs: real, lossWeight: real)
    requires lossWeight > 0.0
    ensures var p0 := P0FromActive(activeComposite, rttUs, lossWeight);
            && (p0 >= 0.0 <==> activeComposite.Some? && 0.0 <= activeComposite.value && rttUs <= activeComposite.value)
            && (0.0 <= p0 < 1.0 ==> rttUs + lossWeight * p0 == activeComposite.value)
            && (p0 == 1.0 <==> p0 >= 0.0 && rttUs + lossWeight <= activeComposite.value)
  {
    if activeComposite.Some? && activeComposite.value >= 0.0 {
      var room := activeComposite.value - rttUs;
      var p0 := room / lossWeight;
      assert p0 * lossWeight == room;
      TieSign(p0, lossWeight, room);
    }
  }

  lemma TieSign(p0: real, w: real, room: real)
    requires p0 * w == room && w > 0.0
    ensures p0 >= 0.0 <==> room >= 0.0
    ensures p0 >= 1.0 <==> room >= w
  {
    if p0 < 0.0 {
      Product(-p0, w);
    } else if p0 < 1.0 {
      Product(1.0 - p0, w);
    } else {
      SignedProduct(p0 - 1.0, -w);
    }
  }

  /**
   * At either end one alternative coincides with p0 and its ratio is 0, so nothing is ever decided there: not
   * even in favour of a challenger so fast that no loss rate at all could make it tie.
   */
  lemma EndsUndecided(k: int, n: int, p0: real, delta: real, alpha: real, beta: real, log: real -> real)
    requires p0 <= EPSILON || p0 >= 1.0 - EPSILON
    requires 0.0 < alpha < 0.5 && 0.0 < beta < 0.5 && delta > 0.0 && Logarithm(log)
    ensures EvaluateSPRT(k, n, ClampRate(p0), ClampRate(p0 - delta), ClampRate(p0 + delta),
                         BoundaryA(alpha, beta, log), BoundaryB(alpha, beta, log), log) == Undecided
  {
    BoundariesSeparate(alpha, beta, log);
    if p0 <= EPSILON {
      NoDifference(k, n, ClampRate(p0), log);
      assert ClampRate(p0 - delta) == ClampRate(p0);
    } else {
      NoDifference(k, n, ClampRate(p0), log);
      assert ClampRate(p0 + delta) == ClampRate(p0);
    }
  }

  lemma NoDifference(k: int, n: int, p: real, log: real -> real)
    requires ClampRate(p) == p && Logarithm(log)
    ensures LLR(k, n, p, p, log) == 0.0
  {
    LLRLine(k, n, p, p, log);
    SelfQuotient(p);
    SelfQuotient(1.0 - p);
  }

  lemma SelfQuotient(x: real)
    requires x != 0.0
    ensures x / x == 1.0
  {
  }
}
