/** How fast the published loss rate follows the measured one (internal/metrics/ema.go). */
module Smoothing {
  import opened Arithmetic
  import opened Options
  import opened Accumulator
  import opened Fading
  import opened Metrics

  // ---------- one tick

  /** With a clock that runs forward, what is left of a distance after dt is exp(-dt / halfLife) of it. */
  lemma LeftForward(s: Settings, dt: int)
    requires Usable(s) && Exponential(s.exp) && dt >= 0
    ensures Left(dt, s) == s.exp(-(dt as real) / s.emaHalfLife as real) && 0.0 < Left(dt, s) <= 1.0
  {
    NotPositive(dt as real, s.emaHalfLife as real);
  }

  lemma NotPositive(a: real, b: real)
    requires a >= 0.0 && b > 0.0
    ensures -a / b <= 0.0
  {
  }

  lemma NotNegative(a: real, b: real)
    requires a <= 0.0 && b > 0.0
    ensures -a / b >= 0.0
  {
  }

  /**
   * A path that has published, a window with a segment, and a clock that did not go back: the smoothed fields keep
   * exp(-dt / halfLife) of their distance to the instant ones.
   */
  lemma NearsByElapsed(p: PathEMA, q: PathEMA, now: int, s: Settings)
    requires Usable(s) && Exponential(s.exp) && Moves(p, q, now, s) && q.windowSegments > 0
    requires p.lastUpdate.Some? && p.lastTick.Some? && p.lastTick.value <= now
    ensures var left := s.exp(-((now - p.lastTick.value) as real) / s.emaHalfLife as real);
            && q.emaLossRate - q.instantLossRate == left * (p.emaLossRate - q.instantLossRate)
            && q.emaLossRateErr - q.instantLossErr == left * (p.emaLossRateErr - q.instantLossErr)
  {
    LeftForward(s, now - p.lastTick.value);
  }

  /** If the clock went back the smoothed fields stay as they are. */
  lemma StaysWhenBack(p: PathEMA, q: PathEMA, now: int, s: Settings)
    requires Usable(s) && Exponential(s.exp) && Moves(p, q, now, s)
    requires p.lastUpdate.Some? && p.lastTick.Some? && now <= p.lastTick.value
    ensures q.emaLossRate == p.emaLossRate && q.emaLossRateErr == p.emaLossRateErr
  {
    NotNegative((now - p.lastTick.value) as real, s.emaHalfLife as real);
    assert Left(now - p.lastTick.value, s) == 1.0;
  }

  // ---------- a run of ticks

  /** The states of one path from tick to tick, the clock running forward, every window with a segment. */
  ghost predicate Course(ps: seq<PathEMA>, s: Settings)
    requires Usable(s)
  {
    && ps != [] && ps[0].lastUpdate.Some?
    && (forall i | 0 <= i < |ps| :: ps[i].lastTick.Some?)
    && forall i | 0 < i < |ps| :: Advances(ps[i - 1], ps[i], s)
  }

  ghost predicate Advances(p: PathEMA, q: PathEMA, s: Settings)
    requires Usable(s)
  {
    && q.lastTick.Some? && p.lastTick.Some? && p.lastTick.value <= q.lastTick.value
    && q.windowSegments > 0 && Moves(p, q, q.lastTick.value, s)
  }

  function Product(factors: seq<real>, n: nat): real
    requires n <= |factors|
  {
    if n == 0 then 1.0 else Product(factors, n - 1) * factors[n - 1]
  }

  lemma NearsChain(a: real, b: real, c: real, r: real, l: real, e: real)
    requires Nears(a, b, r, l) && Nears(b, c, r, e)
    ensures Nears(a, c, r, l * e)
  {
    assert e * (l * (a - r)) == l * e * (a - r);
  }

  /** The ticks of a run of states, in order. */
  ghost predicate TicksAt(ps: seq<PathEMA>, at: seq<real>) {
    |at| == |ps| && forall i | 0 <= i < |ps| :: ps[i].lastTick.Some? && at[i] == ps[i].lastTick.value as real
  }

  /** Each factor is what the time between two ticks leaves. */
  ghost predicate DecayBetween(factors: seq<real>, at: seq<real>, h: real, exp: real -> real)
    requires h > 0.0
  {
    && |factors| + 1 == |at|
    && forall i | 0 <= i < |factors| :: factors[i] == DecaySince(Some(at[i]), at[i + 1], h, exp)
  }

  lemma OneTick(p: PathEMA, q: PathEMA, s: Settings, r: real)
    requires Usable(s) && Exponential(s.exp) && Advances(p, q, s) && q.instantLossRate == r && p.lastUpdate.Some?
    ensures Nears(p.emaLossRate, q.emaLossRate, r,
                  DecaySince(Some(p.lastTick.value as real), q.lastTick.value as real, s.emaHalfLife as real, s.exp))
  {
    NearsByElapsed(p, q, q.lastTick.value, s);
  }

  lemma {:induction false} AllPublished(ps: seq<PathEMA>, s: Settings, n: nat)
    requires Usable(s) && Course(ps, s) && n < |ps|
    ensures ps[n].lastUpdate.Some?
  {
    if n > 0 {
      assert Advances(ps[n - 1], ps[n], s);
    }
  }

  /** While the instant rate stays at r, the distance to r is multiplied by exp(-dt / halfLife) of each tick. */
  lemma ApproachesRate(ps: seq<PathEMA>, s: Settings, r: real, at: seq<real>, factors: seq<real>)
    requires Usable(s) && Exponential(s.exp) && Course(ps, s) && TicksAt(ps, at)
    requires DecayBetween(factors, at, s.emaHalfLife as real, s.exp)
    requires forall i | 0 < i < |ps| :: ps[i].instantLossRate == r
    ensures Nears(ps[0].emaLossRate, ps[|ps| - 1].emaLossRate, r, Product(factors, |factors|))
  {
    forall i | 0 <= i < |factors| ensures Nears(ps[i].emaLossRate, ps[i + 1].emaLossRate, r, factors[i]) {
      AllPublished(ps, s, i);
      assert Advances(ps[i], ps[i + 1], s);
      OneTick(ps[i], ps[i + 1], s, r);
    }
    DistancesTelescope(ps, factors, r, |factors|);
  }

  /** What is left of a distance when every step leaves a factor of it. */
  lemma {:induction false} DistancesTelescope(ps: seq<PathEMA>, factors: seq<real>, r: real, n: nat)
    requires |ps| == |factors| + 1 && n <= |factors|
    requires forall i | 0 <= i < |factors| :: Nears(ps[i].emaLossRate, ps[i + 1].emaLossRate, r, factors[i])
    ensures Nears(ps[0].emaLossRate, ps[n].emaLossRate, r, Product(factors, n))
  {
    if n == 0 {
    } else {
      DistancesTelescope(ps, factors, r, n - 1);
      NearsChain(ps[0].emaLossRate, ps[n - 1].emaLossRate, ps[n].emaLossRate, r, Product(factors, n - 1), factors[n - 1]);
    }
  }

  /** What is left from one time to another, and from there to a third. */
  ghost predicate Composes(left: (real, real) -> real) {
    && (forall a :: left(a, a) == 1.0)
    && forall a, b, c {:trigger left(a, b), left(b, c)} :: left(a, b) * left(b, c) == left(a, c)
  }

  lemma AtOnce(left: (real, real) -> real, a: real)
    requires Composes(left)
    ensures left(a, a) == 1.0
  {
  }

  lemma OnTop(left: (real, real) -> real, a: real, b: real, c: real, factors: seq<real>, n: nat)
    requires Composes(left) && 0 < n <= |factors|
    requires Product(factors, n - 1) == left(a, b) && factors[n - 1] == left(b, c)
    ensures Product(factors, n) == left(a, c)
  {
  }

  lemma {:induction false} ProductComposes(factors: seq<real>, at: seq<real>, left: (real, real) -> real, n: nat)
    requires Composes(left) && |factors| + 1 == |at| && n <= |factors|
    requires forall i | 0 <= i < |factors| :: factors[i] == left(at[i], at[i + 1])
    ensures Product(factors, n) == left(at[0], at[n])
  {
    if n == 0 {
      AtOnce(left, at[0]);
    } else {
      ProductComposes(factors, at, left, n - 1);
      OnTop(left, at[0], at[n - 1], at[n], factors, n);
    }
  }

  lemma ProductByTime(factors: seq<real>, at: seq<real>, h: real, exp: real -> real)
    requires h > 0.0 && Multiplies(exp) && DecayBetween(factors, at, h, exp)
    ensures Product(factors, |factors|) == DecaySince(Some(at[0]), at[|factors|], h, exp)
  {
    var left := (a: real, b: real) => DecaySince(Some(a), b, h, exp);
    DecayComposes(h, exp, left);
    ProductComposes(factors, at, left, |factors|);
  }

  lemma DecayComposes(h: real, exp: real -> real, left: (real, real) -> real)
    requires h > 0.0 && Multiplies(exp) && forall a, b :: left(a, b) == DecaySince(Some(a), b, h, exp)
    ensures Composes(left)
  {
    forall a ensures left(a, a) == 1.0 {
      NoAge(a, h);
    }
    forall a, b, c ensures left(a, b) * left(b, c) == left(a, c) {
      AgesMultiply(a, b, c, h, exp, left(a, b), left(b, c));
    }
  }

  /**
   * However the time was cut into ticks: after an elapsed time T at the instant rate r, exp(-T / halfLife) of the
   * first distance is left.
   */
  lemma ApproachesByTime(ps: seq<PathEMA>, s: Settings, r: real, at: seq<real>, factors: seq<real>)
    requires Usable(s) && Exponential(s.exp) && Multiplies(s.exp) && Course(ps, s) && TicksAt(ps, at)
    requires DecayBetween(factors, at, s.emaHalfLife as real, s.exp)
    requires forall i | 0 < i < |ps| :: ps[i].instantLossRate == r
    ensures Nears(ps[0].emaLossRate, ps[|ps| - 1].emaLossRate, r,
                  DecaySince(Some(at[0]), at[|ps| - 1], s.emaHalfLife as real, s.exp))
  {
    ApproachesRate(ps, s, r, at, factors);
    ProductByTime(factors, at, s.emaHalfLife as real, s.exp);
  }
}
