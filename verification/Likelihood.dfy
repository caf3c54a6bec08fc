/** The sequential test of internal/actuate/prober.go as a test of likelihood ratios. */
module Likelihood {
  import opened Arithmetic
  import opened Options
  import opened Sprt

  function Times(x: real, y: real): real {
    x * y
  }

  function Power(x: real, k: nat): real {
    if k == 0 then 1.0 else x * Power(x, k - 1)
  }

  /** How much likelier k losses among n probes are at loss rate p than at p0. */
  function Ratio(k: nat, n: nat, p0: real, p: real): real
    requires k <= n && 0.0 < p0 < 1.0
  {
    Times(Power(p / p0, k), Power((1.0 - p) / (1.0 - p0), n - k))
  }

  /** Only here: the logarithm turns products into sums. */
  ghost predicate Additive(log: real -> real) {
    forall x, y {:trigger Times(x, y)} | x > 0.0 && y > 0.0 :: log(Times(x, y)) == log(x) + log(y)
  }

  lemma {:induction false} PowerPositive(x: real, k: nat)
    requires x > 0.0
    ensures Power(x, k) > 0.0
  {
    if k == 0 {
    } else {
      PowerPositive(x, k - 1);
      Product(x, Power(x, k - 1));
    }
  }

  lemma {:induction false} LogPower(x: real, k: nat, log: real -> real)
    requires x > 0.0 && Logarithm(log) && Additive(log)
    ensures log(Power(x, k)) == k as real * log(x)
  {
    if k == 0 {
    } else {
      LogPower(x, k - 1, log);
      PowerPositive(x, k - 1);
      assert Power(x, k) == Times(x, Power(x, k - 1));
      OneMore(k, log(x));
    }
  }

  lemma OneMore(k: nat, l: real)
    requires k > 0
    ensures l + (k - 1) as real * l == k as real * l
  {
  }

  /** The sum in the program is the logarithm of the ratio. */
  lemma LLRIsLog(k: nat, n: nat, p0: real, p: real, log: real -> real)
    requires k <= n && Logarithm(log) && Additive(log)
    requires 0.000000000000001 <= p0 <= 0.999999999999999 && 0.000000000000001 <= p <= 0.999999999999999
    ensures Ratio(k, n, p0, p) > 0.0 && LLR(k, n, p0, p, log) == log(Ratio(k, n, p0, p))
  {
    var x, y := Odds(p, p0);
    RatioOf(k, n, p0, p, x, y);
    var l := LogOfPowers(x, y, k, n - k, log);
    LLRUnclamped(k, n, p0, p, x, y, l, log);
  }

  lemma Odds(p: real, p0: real) returns (x: real, y: real)
    requires 0.0 < p < 1.0 && 0.0 < p0 < 1.0
    ensures x == p / p0 && y == (1.0 - p) / (1.0 - p0) && x > 0.0 && y > 0.0
  {
    x, y := p / p0, (1.0 - p) / (1.0 - p0);
    PositiveQuotient(p, p0);
    PositiveQuotient(1.0 - p, 1.0 - p0);
  }

  lemma RatioOf(k: nat, n: nat, p0: real, p: real, x: real, y: real)
    requires k <= n && 0.0 < p0 < 1.0 && x == p / p0 && y == (1.0 - p) / (1.0 - p0)
    ensures Ratio(k, n, p0, p) == Times(Power(x, k), Power(y, n - k))
  {
  }

  lemma LLRUnclamped(k: nat, n: nat, p0: real, p: real, x: real, y: real, l: real, log: real -> real)
    requires k <= n && 0.000000000000001 <= p0 <= 0.999999999999999 && 0.000000000000001 <= p <= 0.999999999999999
    requires x == p / p0 && y == (1.0 - p) / (1.0 - p0) && IsLog(l, k, n - k, x, y, log)
    ensures LLR(k, n, p0, p, log) == l
  {
    Unclamped(p0);
    Unclamped(p);
    assert (n - k) as real == n as real - k as real;
  }

  predicate IsLog(l: real, k: nat, m: nat, x: real, y: real, log: real -> real) {
    l == k as real * log(x) + m as real * log(y)
  }

  lemma LogOfPowers(x: real, y: real, k: nat, m: nat, log: real -> real) returns (l: real)
    requires x > 0.0 && y > 0.0 && Logarithm(log) && Additive(log)
    ensures Times(Power(x, k), Power(y, m)) > 0.0
    ensures l == log(Times(Power(x, k), Power(y, m))) && IsLog(l, k, m, x, y, log)
  {
    l := log(Times(Power(x, k), Power(y, m)));
    PowerPositive(x, k);
    PowerPositive(y, m);
    LogOfProduct(Power(x, k), Power(y, m), log);
    LogPower(x, k, log);
    LogPower(y, m, log);
  }

  lemma LogOfProduct(a: real, b: real, log: real -> real)
    requires a > 0.0 && b > 0.0 && Additive(log)
    ensures Times(a, b) > 0.0 && log(Times(a, b)) == log(a) + log(b)
  {
    Product(a, b);
  }

  lemma Unclamped(p: real)
    requires 0.000000000000001 <= p <= 0.999999999999999
    ensures ClampRate(p) == p
  {
  }

  lemma PositiveQuotient(a: real, b: real)
    requires a > 0.0 && b > 0.0
    ensures a / b > 0.0
  {
  }

  lemma LogOrder(x: real, y: real, log: real -> real)
    requires x > 0.0 && y > 0.0 && Logarithm(log)
    ensures log(x) <= log(y) <==> x <= y
  {
  }

  /** Either boundary, on the ratio and on its logarithm. */
  lemma Crossings(ratio: real, alpha: real, beta: real, log: real -> real)
    requires ratio > 0.0 && 0.0 < alpha < 0.5 && 0.0 < beta < 0.5 && Logarithm(log)
    ensures log(ratio) >= BoundaryA(alpha, beta, log) <==> ratio >= (1.0 - beta) / alpha
    ensures log(ratio) <= BoundaryB(alpha, beta, log) <==> ratio <= beta / (1.0 - alpha)
    ensures beta / (1.0 - alpha) < 1.0 < (1.0 - beta) / alpha
  {
    OverOne(1.0 - beta, alpha);
    UnderOne(beta, 1.0 - alpha);
    LogOrder((1.0 - beta) / alpha, ratio, log);
    LogOrder(ratio, beta / (1.0 - alpha), log);
  }

  /**
   * The decisions without logarithms, for rates inside the clamps: a ratio is accepted from (1 - beta) / alpha up
   * and rejected from beta / (1 - alpha) down. Better: the lower rate accepted, the higher one rejected; worse: the
   * other way round; indifferent: both rejected.
   */
  lemma DecisionByRatio(k: nat, n: nat, p0: real, p1: real, p2: real, alpha: real, beta: real, log: real -> real)
    requires k <= n && Logarithm(log) && Additive(log) && 0.0 < alpha < 0.5 && 0.0 < beta < 0.5
    requires 0.000000000000001 <= p0 <= 0.999999999999999
    requires 0.000000000000001 <= p1 <= 0.999999999999999 && 0.000000000000001 <= p2 <= 0.999999999999999
    ensures var o := EvaluateSPRT(k, n, p0, p1, p2, BoundaryA(alpha, beta, log), BoundaryB(alpha, beta, log), log);
            var better, worse := Ratio(k, n, p0, p1), Ratio(k, n, p0, p2);
            && (o == Better <==> better >= (1.0 - beta) / alpha && worse <= beta / (1.0 - alpha))
            && (o == Worse <==> worse >= (1.0 - beta) / alpha && better <= beta / (1.0 - alpha))
            && (o == Indifferent <==> better <= beta / (1.0 - alpha) && worse <= beta / (1.0 - alpha))
  {
    LLRIsLog(k, n, p0, p1, log);
    LLRIsLog(k, n, p0, p2, log);
    Crossings(Ratio(k, n, p0, p1), alpha, beta, log);
    Crossings(Ratio(k, n, p0, p2), alpha, beta, log);
    if n == 0 {
      NoEvidence(p0, p1);
      NoEvidence(p0, p2);
    }
  }

  lemma NoEvidence(p0: real, p: real)
    requires 0.0 < p0 < 1.0
    ensures Ratio(0, 0, p0, p) == 1.0
  {
  }
}
