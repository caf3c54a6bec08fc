/** Small facts about products and quotients that the solver does not find on its own. */
module Arithmetic {
  lemma Laps(cap: nat, d: int)
    requires d >= 1
    ensures cap * d >= cap
  {
    assert cap * (d - 1) >= 0;
  }

  lemma Division(cap: nat, q: int, r: nat, q': int, r': nat)
    requires r < cap && r' < cap && cap * q + r == cap * q' + r'
    ensures q == q' && r == r'
  {
    assert cap * (q - q') == r' - r && cap * (q' - q) == r - r';
    if q > q' {
      Laps(cap, q - q');
    } else if q < q' {
      Laps(cap, q' - q);
    }
  }

  lemma DivMod(n: nat, cap: nat)
    requires cap > 0
    ensures n == cap * (n / cap) + n % cap && n % cap < cap
  {
  }

  lemma Product(a: real, b: real)
    requires a > 0.0 && b > 0.0
    ensures a * b > 0.0
  {
  }

  lemma ProductSign(a: real, b: real)
    requires a >= 0.0 && b >= 0.0
    ensures a * b >= 0.0
  {
  }

  lemma SignedProduct(a: real, b: real)
    requires a >= 0.0 && b <= 0.0
    ensures a * b <= 0.0
  {
  }

  lemma Ordered(a: real, b: real, f: real)
    requires a <= b && f >= 0.0
    ensures a * f <= b * f && (a >= 0.0 ==> a * f >= 0.0)
  {
    assert (b - a) * f >= 0.0;
  }

  lemma Quotients(a: real, b: real, n: real)
    requires 0.0 <= a <= b && n > 0.0
    ensures 0.0 <= a / n <= b / n
  {
    assert b / n - a / n == (b - a) / n;
  }

  lemma RateIsRate(k: real, n: real)
    requires 0.0 <= k <= n && n > 0.0
    ensures 0.0 <= k / n <= 1.0 && k / n * n == k
  {
    Quotients(k, n, n);
  }
}
