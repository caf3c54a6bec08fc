/** wilsonLossErr: the 95% Wilson score band (internal/actuate/prober.go, internal/metrics/ema.go). */
module Wilson {
  import opened Arithmetic
  import opened Score

  const Z: real := 1.96
  const Z2: real := Z * Z

  /** What is under the square root. */
  function Radicand(k: real, n: real): real
    requires n > 0.0
  {
    var phat := k / n;
    (phat * (1.0 - phat) + Z2 / (4.0 * n)) / n
  }

  function Center(k: real, n: real): real
    requires n > 0.0
  {
    (k + Z2 / 2.0) / (n + Z2)
  }

  function Margin(k: real, n: real, sqrt: real -> real): real
    requires n > 0.0
  {
    Z * sqrt(Radicand(k, n)) / (1.0 + Z2 / n)
  }

  /** The semi-width; 0 for no probes, for impossible counts, and (a sentinel) when all were lost. */
  function WilsonLossErr(k: int, n: int, sqrt: real -> real): real
    requires n >= 0
  {
    if k > n || n == 0 then 0.0
    else if k == n then 0.0
    else
      var lower := Center(k as real, n as real) - Margin(k as real, n as real, sqrt);
      var upper := Center(k as real, n as real) + Margin(k as real, n as real, sqrt);
      (upper - (if lower < 0.0 then 0.0 else lower)) / 2.0
  }

  // ---------- algebra

  function Square(x: real): (s: real)
    ensures s >= 0.0
  {
    x * x
  }

  lemma SquareSign(x: real)
    ensures x * x >= 0.0
  {
  }

  lemma SquarePositive(n: real, nn: real)
    requires n > 0.0 && nn == n * n
    ensures nn > 0.0
  {
    assert nn / n == n;
    if nn <= 0.0 {
      QuotientSign(nn, n);
    }
  }

  lemma QuotientSign(a: real, b: real)
    requires a <= 0.0 && b > 0.0
    ensures a / b <= 0.0
  {
  }

  lemma ZeroProduct(f: real, x: real)
    requires f != 0.0
    ensures f * x == 0.0 <==> x == 0.0
  {
  }

  /** n^2 (1 - k/n) k/n = k (n - k). */
  lemma RadicandScaled(k: real, n: real)
    requires n > 0.0
    ensures Radicand(k, n) * (4.0 * n * n * n) == 4.0 * k * (n - k) + Z2 * n
  {
    var p := k / n;
    assert p * n == k;
    var r := Radicand(k, n);
    var s := p * (1.0 - p) + Z2 / (4.0 * n);
    assert r * n == s;
    assert Z2 / (4.0 * n) * (4.0 * n) == Z2;
    calc {
      r * (4.0 * n * n * n);
      (r * n) * (4.0 * n * n);
      s * (4.0 * n * n);
      p * (1.0 - p) * (4.0 * n * n) + Z2 / (4.0 * n) * (4.0 * n * n);
      { assert Z2 / (4.0 * n) * (4.0 * n * n) == (Z2 / (4.0 * n) * (4.0 * n)) * n; }
      p * (1.0 - p) * (4.0 * n * n) + Z2 * n;
      { assert p * (1.0 - p) * (4.0 * n * n) == 4.0 * (p * n) * (n - p * n); }
      4.0 * k * (n - k) + Z2 * n;
    }
  }

  /** The squared margin, cleared of fractions. */
  predicate MarginEquation(k: real, n: real, m2: real) {
    m2 * (4.0 * n * (n + Z2) * (n + Z2)) == Z2 * (4.0 * k * (n - k) + Z2 * n)
  }

  lemma MarginSquared(k: real, n: real, sqrt: real -> real)
    requires 0.0 <= k <= n && n > 0.0 && SquareRoot(sqrt)
    ensures Margin(k, n, sqrt) >= 0.0
    ensures MarginEquation(k, n, Square(Margin(k, n, sqrt)))
  {
    RadicandScaled(k, n);
    NonNegativeRadicand(k, n);
    var r, m := Radicand(k, n), Margin(k, n, sqrt);
    var s := sqrt(r);
    var d := 1.0 + Z2 / n;
    assert d * n == n + Z2;
    assert m * d == Z * s;
    assert m * (n + Z2) == m * d * n == Z * s * n;
    var N := n + Z2;
    calc {
      m * m * (4.0 * n * N * N);
      (m * N) * (m * N) * (4.0 * n);
      (Z * s * n) * (Z * s * n) * (4.0 * n);
      { ProductOfFour(Z, s, n); }
      Z2 * (s * s * (4.0 * n * n * n));
      Z2 * (r * (4.0 * n * n * n));
    }
    assert m >= 0.0 by {
      assert Z * s >= 0.0 && d > 0.0;
      Quotients(0.0, Z * s, d);
    }
  }

  lemma ProductOfFour(z: real, s: real, n: real)
    ensures (z * s * n) * (z * s * n) * (4.0 * n) == (z * z) * (s * s * (4.0 * n * n * n))
  {
    assert (z * s * n) * (z * s * n) == (z * z) * (s * s) * (n * n);
  }

  lemma NonNegativeRadicand(k: real, n: real)
    requires 0.0 <= k <= n && n > 0.0
    ensures Radicand(k, n) >= 0.0
  {
    var p := k / n;
    Quotients(0.0, k, n);
    assert p <= 1.0 by {
      Quotients(k, n, n);
    }
    assert p * (1.0 - p) >= 0.0;
    assert Z2 / (4.0 * n) >= 0.0;
    Quotients(0.0, p * (1.0 - p) + Z2 / (4.0 * n), n);
  }

  // ---------- the roots

  /** The quadratic whose roots the interval's ends are: n (n + z^2) (p - p1) (p - p2). */
  function Quadratic(k: real, n: real, p: real): real {
    n * (n + Z2) * p * p - n * (2.0 * k + Z2) * p + k * k
  }

  /** The quadratic, completed to a square around the centre. */
  lemma CompletedSquare(k: real, n: real, sqrt: real -> real, p: real)
    requires 0.0 <= k <= n && n > 0.0 && SquareRoot(sqrt)
    ensures var c, m := Center(k, n), Margin(k, n, sqrt);
            Quadratic(k, n, p) == n * (n + Z2) * ((p - c) * (p - c) - m * m)
  {
    var N, c, m := n + Z2, Center(k, n), Margin(k, n, sqrt);
    MarginSquared(k, n, sqrt);
    assert c * N == k + Z2 / 2.0;
    Discriminant(k, n, c, Square(m));
    calc {
      n * N * ((p - c) * (p - c) - m * m);
      { ExpandSquare(p, c); }
      n * N * (p * p - 2.0 * c * p + c * c - m * m);
      n * N * p * p - n * (2.0 * (c * N)) * p + n * N * (c * c - m * m);
      Quadratic(k, n, p);
    }
  }

  lemma ExpandSquare(p: real, c: real)
    ensures (p - c) * (p - c) == p * p - 2.0 * c * p + c * c
  {
  }

  lemma Discriminant(k: real, n: real, c: real, m2: real)
    requires n > 0.0 && c * (n + Z2) == k + Z2 / 2.0
    requires MarginEquation(k, n, m2)
    ensures n * (n + Z2) * (c * c - m2) == k * k
  {
    var N := n + Z2;
    var x := n * N * (c * c - m2);
    calc {
      x * (4.0 * N);
      4.0 * n * ((c * N) * (c * N)) - m2 * (4.0 * n * N * N);
      n * ((2.0 * k + Z2) * (2.0 * k + Z2)) - Z2 * (4.0 * k * (n - k) + Z2 * n);
      { ExpandCounts(k, n, Z2); }
      4.0 * N * (k * k);
    }
    CancelFactor(x, k * k, 4.0 * N);
  }

  lemma ExpandCounts(k: real, n: real, z: real)
    ensures n * ((2.0 * k + z) * (2.0 * k + z)) - z * (4.0 * k * (n - k) + z * n) == 4.0 * (n + z) * (k * k)
  {
  }

  lemma CancelFactor(x: real, y: real, f: real)
    requires f != 0.0 && x * f == f * y
    ensures x == y
  {
    assert (x - y) * f == 0.0;
  }

  /** The ends of the interval are exactly the two rates p that are z standard errors from k/n. */
  lemma WilsonRoots(k: real, n: real, sqrt: real -> real, p: real)
    requires 0.0 <= k <= n && n > 0.0 && SquareRoot(sqrt)
    ensures var c, m := Center(k, n), Margin(k, n, sqrt);
            (k / n - p) * (k / n - p) == Z2 * (p * (1.0 - p)) / n <==> p == c - m || p == c + m
  {
    QuadraticForm(k, n, p);
    QuadraticRoots(k, n, sqrt, p);
  }

  lemma QuadraticRoots(k: real, n: real, sqrt: real -> real, p: real)
    requires 0.0 <= k <= n && n > 0.0 && SquareRoot(sqrt)
    ensures var c, m := Center(k, n), Margin(k, n, sqrt); Quadratic(k, n, p) == 0.0 <==> p == c - m || p == c + m
  {
    var c, m := Center(k, n), Margin(k, n, sqrt);
    CompletedSquare(k, n, sqrt, p);
    FactoredRoots(n * (n + Z2), p, c, m, Quadratic(k, n, p));
  }

  lemma FactoredRoots(f: real, p: real, c: real, m: real, q: real)
    requires f != 0.0 && q == f * ((p - c) * (p - c) - m * m)
    ensures q == 0.0 <==> p == c - m || p == c + m
  {
    ZeroProduct(f, (p - c) * (p - c) - m * m);
    DifferenceOfSquares(p - c, m);
  }

  lemma DifferenceOfSquares(x: real, m: real)
    ensures x * x - m * m == 0.0 <==> x == m || x == -m
  {
    assert x * x - m * m == (x - m) * (x + m);
    if x != m {
      ZeroProduct(x - m, x + m);
    }
  }

  lemma QuadraticForm(k: real, n: real, p: real)
    requires n > 0.0
    ensures (k / n - p) * (k / n - p) == Z2 * (p * (1.0 - p)) / n <==> Quadratic(k, n, p) == 0.0
  {
    var q, rhs := k / n, Z2 * (p * (1.0 - p)) / n;
    ScaledDifference(q, p, n, k, rhs);
  }

  lemma ScaledDifference(q: real, p: real, n: real, k: real, rhs: real)
    requires rhs * n == Z2 * (p * (1.0 - p)) && q * n == k && n > 0.0
    ensures (q - p) * (q - p) == rhs <==> Quadratic(k, n, p) == 0.0
  {
    var x, nn := (q - p) * (q - p) - rhs, n * n;
    SquarePositive(n, nn);
    ScaledEquation(q, p, n, k, rhs);
    ExpandQuadratic(k, n, p, Z2);
    ZeroProduct(nn, x);
  }

  lemma ScaledEquation(q: real, p: real, n: real, k: real, rhs: real)
    requires rhs * n == Z2 * (p * (1.0 - p)) && q * n == k
    ensures ((q - p) * (q - p) - rhs) * (n * n) == (k - p * n) * (k - p * n) - Z2 * (p * (1.0 - p)) * n
  {
    ScaledSquare(q, p, n);
    assert rhs * (n * n) == (rhs * n) * n;
  }

  lemma ScaledSquare(q: real, p: real, n: real)
    ensures (q - p) * (q - p) * (n * n) == (q * n - p * n) * (q * n - p * n)
  {
  }

  lemma ExpandQuadratic(k: real, n: real, p: real, z: real)
    ensures (k - p * n) * (k - p * n) - z * (p * (1.0 - p)) * n
         == n * (n + z) * p * p - n * (2.0 * k + z) * p + k * k
  {
  }

  // ---------- the interval

  /** The interval contains k/n and lies in [0, 1]; so the clamp at 0 never acts and the error is the margin. */
  lemma WilsonInterval(k: nat, n: nat, sqrt: real -> real)
    requires k < n && SquareRoot(sqrt)
    ensures var c, m := Center(k as real, n as real), Margin(k as real, n as real, sqrt);
            && 0.0 <= c - m <= k as real / n as real <= c + m <= 1.0
            && WilsonLossErr(k, n, sqrt) == m
  {
    var kr, nr := k as real, n as real;
    var c, m, p := Center(kr, nr), Margin(kr, nr, sqrt), kr / nr;
    MarginSquared(kr, nr, sqrt);
    LowerEnd(kr, nr, sqrt);
    UpperEnd(kr, nr, sqrt);
    AtEstimate(kr, nr, sqrt);
    Within(p - c, m);
  }

  lemma Within(x: real, m: real)
    requires m >= 0.0 && x * x <= m * m
    ensures -m <= x <= m
  {
    if x >= 0.0 {
      RootMonotone(x, m);
    } else {
      assert (-x) * (-x) == x * x;
      RootMonotone(-x, m);
    }
  }

  /** At 0 the quadratic is k^2. */
  lemma LowerEnd(k: real, n: real, sqrt: real -> real)
    requires 0.0 <= k <= n && n > 0.0 && SquareRoot(sqrt)
    ensures Margin(k, n, sqrt) <= Center(k, n)
  {
    var c, m := Center(k, n), Margin(k, n, sqrt);
    MarginSquared(k, n, sqrt);
    CompletedSquare(k, n, sqrt, 0.0);
    Product(n, n + Z2);
    SquareSign(k);
    SignOf(n * (n + Z2), c * c - m * m);
    Quotients(0.0, k + Z2 / 2.0, n + Z2);
    RootMonotone(m, c);
  }

  /** At 1 it is (n - k)^2. */
  lemma UpperEnd(k: real, n: real, sqrt: real -> real)
    requires 0.0 <= k <= n && n > 0.0 && SquareRoot(sqrt)
    ensures Margin(k, n, sqrt) <= 1.0 - Center(k, n)
  {
    var c, m := Center(k, n), Margin(k, n, sqrt);
    MarginSquared(k, n, sqrt);
    CompletedSquare(k, n, sqrt, 1.0);
    ValueAtOne(k, n, Z2);
    Product(n, n + Z2);
    SquareSign(n - k);
    SignOf(n * (n + Z2), (1.0 - c) * (1.0 - c) - m * m);
    Quotients(k + Z2 / 2.0, n + Z2, n + Z2);
    RootMonotone(m, 1.0 - c);
  }

  lemma ValueAtOne(k: real, n: real, z: real)
    ensures n * (n + z) * 1.0 * 1.0 - n * (2.0 * k + z) * 1.0 + k * k == (n - k) * (n - k)
  {
  }

  lemma SignOf(f: real, x: real)
    requires f > 0.0
    ensures f * x >= 0.0 <==> x >= 0.0
  {
  }

  lemma NonPositive(f: real, x: real, product: real)
    requires f > 0.0 && product == f * x && product <= 0.0
    ensures x <= 0.0
  {
    if x > 0.0 {
      Product(f, x);
    }
  }

  lemma AtEstimate(k: real, n: real, sqrt: real -> real)
    requires 0.0 <= k <= n && n > 0.0 && SquareRoot(sqrt)
    ensures var c, m, p := Center(k, n), Margin(k, n, sqrt), k / n;
            (p - c) * (p - c) <= m * m
  {
    var c, m, p := Center(k, n), Margin(k, n, sqrt), k / n;
    CompletedSquare(k, n, sqrt, p);
    assert p * n == k;
    calc {
      Quadratic(k, n, p);
      { assert n * (n + Z2) * p * p == (n + Z2) * (p * n) * p; }
      (n + Z2) * k * p - (2.0 * k + Z2) * k + k * k;
      { assert (n + Z2) * k * p == k * (p * n) + Z2 * k * p; }
      Z2 * k * p - Z2 * k;
      -(Z2 * k * (1.0 - p));
    }
    Quotients(k, n, n);
    ProductSign(k, 1.0 - p);
    assert Z2 * k * (1.0 - p) == Z2 * (k * (1.0 - p));
    Product(n, n + Z2);
    NonPositive(n * (n + Z2), (p - c) * (p - c) - m * m, Quadratic(k, n, p));
  }

  // ---------- how the width moves

  /** The width does not tell losses from survivals, except at the two ends, where k = n is a sentinel. */
  lemma WilsonSymmetric(k: nat, n: nat, sqrt: real -> real)
    requires 0 < k < n && SquareRoot(sqrt)
    ensures WilsonLossErr(k, n, sqrt) == WilsonLossErr(n - k, n, sqrt)
  {
    WilsonInterval(k, n, sqrt);
    WilsonInterval(n - k, n, sqrt);
    MarginSymmetric(k as real, n as real, sqrt);
  }

  lemma MarginSymmetric(k: real, n: real, sqrt: real -> real)
    requires n > 0.0
    ensures Margin(n - k, n, sqrt) == Margin(k, n, sqrt)
  {
    Complement(k, n);
    var p := k / n;
    assert (1.0 - p) * (1.0 - (1.0 - p)) == p * (1.0 - p);
    assert Radicand(n - k, n) == Radicand(k, n);
  }

  lemma Complement(k: real, n: real)
    requires n > 0.0
    ensures (n - k) / n == 1.0 - k / n
  {
    assert n / n - k / n == (n - k) / n;
  }

  /** Without a loss the width is 1.9208 / (n + 3.8416): below 0.02 from a hundred probes on. */
  lemma NoLossWidth(n: nat, sqrt: real -> real)
    requires n > 0 && SquareRoot(sqrt)
    ensures WilsonLossErr(0, n, sqrt) == 1.9208 / (n as real + 3.8416)
  {
    var c, m := Center(0.0, n as real), Margin(0.0, n as real, sqrt);
    WilsonInterval(0, n, sqrt);
    ZeroShare(n as real);
    assert c - m == 0.0;
  }

  lemma ZeroShare(n: real)
    requires n > 0.0
    ensures 0.0 / n == 0.0
  {
  }

  /** There is no width without probes, for impossible counts, and when all were lost; otherwise there is. */
  lemma WidthVanishes(k: nat, n: nat, sqrt: real -> real)
    requires SquareRoot(sqrt)
    ensures WilsonLossErr(k, n, sqrt) == 0.0 <==> k >= n
  {
    if k < n {
      WilsonInterval(k, n, sqrt);
      var m := Margin(k as real, n as real, sqrt);
      MarginSquared(k as real, n as real, sqrt);
      assert m == 0.0 ==> Square(m) == 0.0;
      Product(n as real, n as real);
    }
  }

  lemma SentinelBreaksSymmetry(n: nat, sqrt: real -> real)
    requires n > 0 && SquareRoot(sqrt)
    ensures WilsonLossErr(n, n, sqrt) == 0.0 < WilsonLossErr(0, n, sqrt)
  {
    WilsonInterval(0, n, sqrt);
    MarginSquared(0.0, n as real, sqrt);
    assert Z2 * (Z2 * n as real) > 0.0;
  }

  /** The same loss rate on more probes gives a strictly narrower band. */
  lemma WilsonShrinks(k: nat, n: nat, c: nat, sqrt: real -> real)
    requires k < n && c > 1 && SquareRoot(sqrt)
    ensures c * k < c * n && WilsonLossErr(c * k, c * n, sqrt) < WilsonLossErr(k, n, sqrt)
  {
    ScaledCounts(k, n, c);
    WilsonInterval(k, n, sqrt);
    WilsonInterval(c * k, c * n, sqrt);
    MarginsShrink(k as real, n as real, c as real, (c * k) as real, (c * n) as real, sqrt);
  }

  lemma ScaledCounts(k: nat, n: nat, c: nat)
    requires k < n && c > 1
    ensures 0 <= c * k < c * n
    ensures (c * k) as real == c as real * k as real && (c * n) as real == c as real * n as real
  {
  }

  lemma MarginsShrink(k: real, n: real, c: real, k': real, n': real, sqrt: real -> real)
    requires 0.0 <= k <= n && n > 0.0 && c > 1.0 && k' == c * k && n' == c * n && SquareRoot(sqrt)
    ensures n' > 0.0 && Margin(k', n', sqrt) < Margin(k, n, sqrt)
  {
    Product(c, n);
    ProductSign(c, k);
    ProductSign(c, n - k);
    assert c * n - c * k == c * (n - k);
    MarginSquared(k, n, sqrt);
    MarginSquared(k', n', sqrt);
    ScaledMargins(k, n, c, k', n', Square(Margin(k, n, sqrt)), Square(Margin(k', n', sqrt)));
    if Margin(k', n', sqrt) >= Margin(k, n, sqrt) {
      RootMonotoneStrict(Margin(k, n, sqrt), Margin(k', n', sqrt));
    }
  }

  lemma RootMonotoneStrict(a: real, b: real)
    requires 0.0 <= a <= b
    ensures Square(a) <= Square(b)
  {
    ProductSign(b - a, b + a);
    assert (b - a) * (b + a) == b * b - a * a;
  }

  lemma ScaledMargins(k: real, n: real, c: real, k': real, n': real, m2: real, m2': real)
    requires 0.0 <= k <= n && n > 0.0 && c > 1.0 && k' == c * k && n' == c * n
    requires MarginEquation(k, n, m2) && MarginEquation(k', n', m2')
    ensures m2' < m2
  {
    SpreadRange(k, n);
    GrownCounts(k, n, c, k', n');
    SameSpread(k, n, k', n', Spread(k, n), m2, m2');
  }

  lemma GrownCounts(k: real, n: real, c: real, k': real, n': real)
    requires n > 0.0 && c > 1.0 && k' == c * k && n' == c * n
    ensures n' > n && Spread(k', n') == Spread(k, n)
  {
    Product(c - 1.0, n);
    assert (c - 1.0) * n == n' - n;
    SpreadScales(k, n, c, k', n');
  }

  lemma SameSpread(k: real, n: real, k': real, n': real, q: real, m2: real, m2': real)
    requires 0.0 < n < n' && 0.0 <= q <= 1.0 && q == Spread(k, n) && q == Spread(k', n')
    requires MarginEquation(k, n, m2) && MarginEquation(k', n', m2')
    ensures m2' < m2
  {
    ReducedEquation(k, n, q, m2);
    ReducedEquation(k', n', q, m2');
    Crossed(m2, m2', q, n + Z2, n' + Z2);
  }

  /** 4 p (1 - p) for the rate p = k/n. */
  function Spread(k: real, n: real): real
    requires n > 0.0
  {
    4.0 * (k / n) * (1.0 - k / n)
  }

  lemma SpreadScales(k: real, n: real, c: real, k': real, n': real)
    requires n > 0.0 && c > 0.0 && k' == c * k && n' == c * n && n' > 0.0
    ensures Spread(k', n') == Spread(k, n)
  {
    var p := k / n;
    assert p * n == k;
    assert p * n' == k';
    assert k' / n' == p;
  }

  function Mixed(q: real, a: real): real {
    q * a + (1.0 - q) * Z2
  }

  predicate Reduced(m2: real, square: real, mixed: real) {
    m2 * (4.0 * square) == Z2 * mixed
  }

  /** The margin's equation, divided by n and written with the spread. */
  lemma ReducedEquation(k: real, n: real, q: real, m2: real)
    requires n > 0.0 && MarginEquation(k, n, m2) && q == Spread(k, n)
    ensures Reduced(m2, Square(n + Z2), Mixed(q, n + Z2))
  {
    var p, a := k / n, n + Z2;
    assert p * n == k;
    SpreadTimesSquare(p, n, k);
    var x, y := m2 * (4.0 * a * a), Z2 * (q * n + Z2);
    Regroup(m2, n, a);
    assert x * n == Z2 * (4.0 * k * (n - k) + Z2 * n);
    assert q * n * n == 4.0 * k * (n - k);
    Distribute(q, n, Z2);
    assert x * n == n * y;
    CancelFactor(x, y, n);
    assert q * n + Z2 == q * a + (1.0 - q) * Z2;
  }

  lemma SpreadTimesSquare(p: real, n: real, k: real)
    requires p * n == k
    ensures 4.0 * p * (1.0 - p) * n * n == 4.0 * k * (n - k)
  {
    calc {
      4.0 * p * (1.0 - p) * n * n;
      4.0 * (p * n) * (n - p * n);
      4.0 * k * (n - k);
    }
  }

  lemma Distribute(q: real, n: real, z: real)
    ensures n * (z * (q * n + z)) == z * (q * n * n + z * n)
  {
  }

  lemma Regroup(m: real, n: real, a: real)
    ensures m * (4.0 * a * a) * n == m * (4.0 * n * a * a)
  {
  }

  lemma SpreadRange(k: real, n: real)
    requires 0.0 <= k <= n && n > 0.0
    ensures 0.0 <= Spread(k, n) <= 1.0
  {
    var p := k / n;
    Quotients(0.0, k, n);
    Quotients(k, n, n);
    ProductSign(4.0 * p, 1.0 - p);
    SquareSign(2.0 * p - 1.0);
    assert 1.0 - 4.0 * p * (1.0 - p) == (2.0 * p - 1.0) * (2.0 * p - 1.0);
  }

  lemma WeightedSquares(q: real, a: real, b: real)
    requires 0.0 <= q <= 1.0 && 0.0 < a < b
    ensures Mixed(q, b) * Square(a) < Mixed(q, a) * Square(b)
  {
    WeightedProducts(q, Z2, a, b);
    assert Mixed(q, b) * Square(a) == (q * b + (1.0 - q) * Z2) * (a * a);
    assert Mixed(q, a) * Square(b) == (q * a + (1.0 - q) * Z2) * (b * b);
  }

  lemma WeightedProducts(q: real, z: real, a: real, b: real)
    requires 0.0 <= q <= 1.0 && z > 0.0 && 0.0 < a < b
    ensures (q * b + (1.0 - q) * z) * (a * a) < (q * a + (1.0 - q) * z) * (b * b)
  {
    var d1, d2 := a * b * (b - a), z * (b * b - a * a);
    assert d1 > 0.0 by {
      Product(a, b);
      Product(a * b, b - a);
    }
    assert d2 > 0.0 by {
      assert b * b - a * a == (b - a) * (b + a);
      Product(b - a, b + a);
      Product(z, b * b - a * a);
    }
    calc {
      (q * a + (1.0 - q) * z) * (b * b) - (q * b + (1.0 - q) * z) * (a * a);
      q * (a * (b * b) - b * (a * a)) + (1.0 - q) * (z * (b * b - a * a));
      { assert a * (b * b) - b * (a * a) == d1; }
      q * d1 + (1.0 - q) * d2;
    }
    Mixture(q, d1, d2);
  }

  lemma Mixture(q: real, x: real, y: real)
    requires 0.0 <= q <= 1.0 && x > 0.0 && y > 0.0
    ensures q * x + (1.0 - q) * y > 0.0
  {
    if q > 0.0 {
      Product(q, x);
      assert (1.0 - q) * y >= 0.0;
    }
  }

  lemma Crossed(m: real, m': real, q: real, a: real, b: real)
    requires 0.0 <= q <= 1.0 && 0.0 < a < b
    requires Reduced(m, Square(a), Mixed(q, a)) && Reduced(m', Square(b), Mixed(q, b))
    ensures m' < m
  {
    WeightedSquares(q, a, b);
    CrossMultiplied(m, m', Square(a), Square(b), Mixed(q, a), Mixed(q, b));
  }

  lemma CrossMultiplied(m: real, m': real, aa: real, bb: real, s: real, s': real)
    requires Reduced(m, aa, s) && Reduced(m', bb, s')
    requires s' * aa < s * bb && aa >= 0.0 && bb >= 0.0
    ensures m' < m
  {
    var f := aa * bb;
    ProductSign(aa, bb);
    assert Z2 * (s' * aa) == 4.0 * (m' * f);
    assert Z2 * (s * bb) == 4.0 * (m * f);
    assert (m - m') * f > 0.0;
  }
}
