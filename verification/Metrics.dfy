/** The sliding window and the smoothing of internal/metrics/ema.go. */
module Metrics {
  import opened Arithmetic
  import opened Options
  import opened Bloom
  import opened Counters
  import opened Wilson
  import opened Accumulator

  // ---------- the specification: the deltas themselves, not a ring

  /** One update of a path: when (in nanoseconds), with what tick interval, and what the path gained. */
  datatype Sample = Sample(now: int, interval: int, delta: TransitDelta)

  function Recent(h: seq<Sample>, cap: nat): seq<Sample> {
    if |h| <= cap then h else h[|h| - cap..]
  }

  function SumOf(h: seq<Sample>, f: TransitDelta -> nat): nat {
    if h == [] then 0 else SumOf(h[..|h| - 1], f) + f(h[|h| - 1].delta)
  }

  const SEG: TransitDelta -> nat := (d: TransitDelta) => d.segments
  const RET: TransitDelta -> nat := (d: TransitDelta) => d.retransmits

  function WindowSegments(h: seq<Sample>, cap: nat): nat {
    SumOf(Recent(h, cap), SEG) % U64
  }

  function WindowRetransmits(h: seq<Sample>, cap: nat): nat {
    SumOf(Recent(h, cap), RET) % U64
  }

  /** The four published rates. */
  datatype Rates = Rates(instant: real, err: real, ema: real, emaErr: real)

  /** The settings of a store, and the two functions it needs from the reals. */
  datatype Settings = Settings(instantWindow: int, emaHalfLife: int, exp: real -> real, sqrt: real -> real)

  predicate Usable(s: Settings) {
    s.emaHalfLife > 0
  }

  function Seconds(d: int): real {
    d as real / 1000000000.0
  }

  /** How much the newest rate weighs after dt: 0 when the clock went back. */
  function Alpha(s: Settings, dt: int): real
    requires Usable(s)
  {
    var alpha := 1.0 - s.exp(-Seconds(dt) / Seconds(s.emaHalfLife));
    if alpha < 0.0 then 0.0 else alpha
  }

  function Mix(alpha: real, newest: real, prior: real): real {
    alpha * newest + (1.0 - alpha) * prior
  }

  function Instant(h: seq<Sample>, cap: nat): real
    requires WindowSegments(h, cap) > 0
  {
    WindowRetransmits(h, cap) as real / WindowSegments(h, cap) as real
  }

  function InstantErr(h: seq<Sample>, cap: nat, s: Settings): real {
    WilsonLossErr(WindowRetransmits(h, cap), WindowSegments(h, cap), s.sqrt)
  }

  /** The time since the sample before the last one, or one interval for the first sample. */
  function Elapsed(h: seq<Sample>): int
    requires h != []
  {
    if |h| == 1 then h[0].interval else h[|h| - 1].now - h[|h| - 2].now
  }

  /** What is published after a run of samples: nothing until a window first held a segment. */
  function Smooth(h: seq<Sample>, cap: nat, s: Settings): Option<Rates>
    requires Usable(s)
  {
    if h == [] then None else
      var before := Smooth(h[..|h| - 1], cap, s);
      if WindowSegments(h, cap) == 0 then before else
        Some(Blended(before, Instant(h, cap), InstantErr(h, cap, s), Alpha(s, Elapsed(h))))
  }

  function Blended(before: Option<Rates>, instant: real, err: real, alpha: real): Rates {
    if before.None? then Rates(instant, err, instant, err)
    else Rates(instant, err, Mix(alpha, instant, before.value.ema), Mix(alpha, err, before.value.emaErr))
  }

  // ---------- the store

  datatype PathEMA = PathEMA(
    nextHopIP: nat, dstSubnet: nat,
    instantLossRate: real, instantLossErr: real, emaLossRate: real, emaLossRateErr: real,
    lastUpdate: Option<int>, lastTick: Option<int>, windowSegments: nat,
    window: seq<TransitDelta>, windowCap: nat, windowPos: nat, windowLen: nat, sumSeg: nat, sumRet: nat)

  function NewPathEMA(pk: PathKey, cap: nat): PathEMA {
    PathEMA(pk.nextHopIP, pk.dstSubnet, 0.0, 0.0, 0.0, 0.0, None, None, 0,
            seq(cap, _ => TransitDelta(0, 0)), cap, 0, 0, 0, 0)
  }

  /** How many ticks fit in the instant window: at least one. */
  function WindowCap(instantWindow: int, interval: int): (n: nat)
    requires interval > 0
    ensures n >= 1
  {
    var n := instantWindow / interval;
    if n < 1 then 1 else n
  }

  /** The ring holds the most recent deltas, the oldest of them where the next one will go. */
  ghost predicate Ring(p: PathEMA, h: seq<Sample>) {
    && p.windowCap >= 1 && |p.window| == p.windowCap
    && p.windowLen == (if |h| < p.windowCap then |h| else p.windowCap)
    && p.windowPos == |h| % p.windowCap
    && forall j | |h| - p.windowLen <= j < |h| :: p.window[j % p.windowCap] == h[j].delta
  }

  ghost predicate Summed(p: PathEMA, h: seq<Sample>) {
    && p.sumSeg == WindowSegments(h, p.windowCap) && p.sumRet == WindowRetransmits(h, p.windowCap)
  }

  ghost predicate RatesOf(p: PathEMA, r: Option<Rates>) {
    match r
    case None =>
      && p.lastUpdate.None?
      && p.instantLossRate == p.instantLossErr == p.emaLossRate == p.emaLossRateErr == 0.0
    case Some(r) =>
      && p.lastUpdate.Some?
      && r == Rates(p.instantLossRate, p.instantLossErr, p.emaLossRate, p.emaLossRateErr)
  }

  ghost predicate Published(p: PathEMA, h: seq<Sample>, s: Settings)
    requires Usable(s)
  {
    && p.windowSegments == WindowSegments(h, p.windowCap)
    && p.lastTick == (if h == [] then None else Some(h[|h| - 1].now))
    && RatesOf(p, Smooth(h, p.windowCap, s))
  }

  ghost predicate Tracks(p: PathEMA, pk: PathKey, h: seq<Sample>, s: Settings)
    requires Usable(s)
  {
    && p.nextHopIP == pk.nextHopIP && p.dstSubnet == pk.dstSubnet
    && Ring(p, h) && Summed(p, h) && Published(p, h, s)
  }

  ghost predicate SizedByFirst(p: PathEMA, h: seq<Sample>, s: Settings) {
    h != [] && h[0].interval > 0 && p.windowCap == WindowCap(s.instantWindow, h[0].interval)
  }

  /** Every path publishes what its own deltas say, with a window sized by the interval of its first tick. */
  ghost predicate AllTrack(paths: map<PathKey, PathEMA>, history: map<PathKey, seq<Sample>>, s: Settings)
    requires Usable(s)
  {
    && paths.Keys == history.Keys
    && forall pk {:trigger Entry(paths[pk], pk, history[pk], s)} | pk in paths :: Entry(paths[pk], pk, history[pk], s)
  }

  ghost predicate Entry(p: PathEMA, pk: PathKey, h: seq<Sample>, s: Settings)
    requires Usable(s)
  {
    SizedByFirst(p, h, s) && Tracks(p, pk, h, s)
  }

  lemma AllTrackStep(paths: map<PathKey, PathEMA>, history: map<PathKey, seq<Sample>>, s: Settings,
                     pk: PathKey, p: PathEMA, h: seq<Sample>)
    requires Usable(s) && AllTrack(paths, history, s) && Entry(p, pk, h, s)
    ensures AllTrack(paths[pk := p], history[pk := h], s)
  {
    var paths', history' := paths[pk := p], history[pk := h];
    forall other | other in paths' ensures Entry(paths'[other], other, history'[other], s) {
      if other != pk {
        assert Entry(paths[other], other, history[other], s);
      }
    }
  }

  /** The histories once the paths in `done` have gained their sample of this tick. */
  ghost predicate Advanced(before: map<PathKey, seq<Sample>>, after: map<PathKey, seq<Sample>>, done: set<PathKey>,
                           now: int, interval: int, deltas: map<PathKey, TransitDelta>)
    requires done <= deltas.Keys
  {
    && (forall pk :: pk in after <==> pk in before || pk in done)
    && (forall pk | pk in after ::
          after[pk] == if pk in done then Extended(before, pk, Sample(now, interval, deltas[pk])) else before[pk])
  }

  ghost predicate Untouched(paths: map<PathKey, PathEMA>, before: map<PathKey, PathEMA>, touched: set<PathKey>) {
    forall pk | pk in before && pk !in touched :: pk in paths && paths[pk] == before[pk]
  }

  lemma AdvancedStep(before: map<PathKey, seq<Sample>>, sofar: map<PathKey, seq<Sample>>, done: set<PathKey>, now: int,
                     interval: int, deltas: map<PathKey, TransitDelta>, pk: PathKey)
    requires done <= deltas.Keys && pk in deltas && pk !in done && Advanced(before, sofar, done, now, interval, deltas)
    ensures Advanced(before, sofar[pk := Extended(sofar, pk, Sample(now, interval, deltas[pk]))], done + {pk},
                     now, interval, deltas)
  {
  }

  /** A path as a tick finds it: as it was, or all zero with a window for this interval. */
  function PathBefore(paths: map<PathKey, PathEMA>, pk: PathKey, interval: int, s: Settings): PathEMA
    requires interval > 0
  {
    if pk in paths then paths[pk] else NewPathEMA(pk, WindowCap(s.instantWindow, interval))
  }

  ghost predicate Moved(before: map<PathKey, PathEMA>, after: map<PathKey, PathEMA>, pk: PathKey, now: int, interval: int,
                        s: Settings)
    requires interval > 0 && Usable(s) && pk in after
  {
    Moves(PathBefore(before, pk, interval, s), after[pk], now, s)
  }

  /** No path appears but those that are done, and each of them has moved once. */
  ghost predicate AllMoved(before: map<PathKey, PathEMA>, after: map<PathKey, PathEMA>, done: set<PathKey>, now: int,
                           interval: int, s: Settings)
    requires interval > 0 && Usable(s)
  {
    && (forall pk :: pk in after <==> pk in before || pk in done)
    && forall pk {:trigger Moved(before, after, pk, now, interval, s)} | pk in done :: Moved(before, after, pk, now, interval, s)
  }

  lemma MovedNext(before: map<PathKey, PathEMA>, sofar: map<PathKey, PathEMA>, after: map<PathKey, PathEMA>,
                  done: set<PathKey>, now: int, interval: int, s: Settings, pk: PathKey)
    requires interval > 0 && Usable(s) && Untouched(sofar, before, done) && pk !in done
    requires AllMoved(before, sofar, done, now, interval, s)
    requires pk in after && after == sofar[pk := after[pk]]
    requires Moves(PathBefore(sofar, pk, interval, s), after[pk], now, s)
    ensures Untouched(after, before, done + {pk}) && AllMoved(before, after, done + {pk}, now, interval, s)
  {
    assert pk in sofar <==> pk in before;
    assert PathBefore(sofar, pk, interval, s) == PathBefore(before, pk, interval, s);
    forall other | other in done + {pk} ensures Moved(before, after, other, now, interval, s) {
      if other != pk {
        assert Moved(before, sofar, other, now, interval, s) && after[other] == sofar[other];
      }
    }
  }

  /** What a tick has done when the paths in `done` have gained their sample and moved; no other path has changed. */
  ghost predicate Underway(before: map<PathKey, PathEMA>, h0: map<PathKey, seq<Sample>>, after: map<PathKey, PathEMA>,
                           h: map<PathKey, seq<Sample>>, done: set<PathKey>, now: int, interval: int,
                           deltas: map<PathKey, TransitDelta>, s: Settings) {
    && interval > 0 && Usable(s) && done <= deltas.Keys && Advanced(h0, h, done, now, interval, deltas)
    && Untouched(after, before, done) && AllMoved(before, after, done, now, interval, s)
  }

  lemma UnderwayStart(paths: map<PathKey, PathEMA>, h: map<PathKey, seq<Sample>>, now: int, interval: int,
                      deltas: map<PathKey, TransitDelta>, s: Settings)
    requires interval > 0 && Usable(s)
    ensures Underway(paths, h, paths, h, {}, now, interval, deltas, s)
  {
  }

  lemma UnderwayNext(before: map<PathKey, PathEMA>, h0: map<PathKey, seq<Sample>>, sofar: map<PathKey, PathEMA>,
                     h: map<PathKey, seq<Sample>>, after: map<PathKey, PathEMA>, done: set<PathKey>, now: int,
                     interval: int, deltas: map<PathKey, TransitDelta>, s: Settings, pk: PathKey)
    requires Underway(before, h0, sofar, h, done, now, interval, deltas, s) && pk in deltas && pk !in done
    requires pk in after && after == sofar[pk := after[pk]]
    requires Moves(PathBefore(sofar, pk, interval, s), after[pk], now, s)
    ensures Underway(before, h0, after, h[pk := Extended(h, pk, Sample(now, interval, deltas[pk]))], done + {pk}, now,
                     interval, deltas, s)
  {
    AdvancedStep(h0, h, done, now, interval, deltas, pk);
    MovedNext(before, sofar, after, done, now, interval, s, pk);
  }

  class EMAStore {
    const settings: Settings
    var paths: map<PathKey, PathEMA>
    ghost var history: map<PathKey, seq<Sample>>

    ghost predicate Valid()
      reads this
    {
      Usable(settings) && AllTrack(paths, history, settings)
    }

    constructor (settings: Settings)
      requires Usable(settings)
      ensures Valid() && history == map[] && this.settings == settings
    {
      this.settings := settings;
      paths, history := map[], map[];
    }

    /** One tick: each path in the deltas gains one sample, in whatever order; no other path changes. */
    method Update(now: int, interval: int, deltas: map<PathKey, TransitDelta>)
      requires Valid() && interval > 0
      modifies this
      ensures Valid()
      ensures Underway(old(paths), old(history), paths, history, deltas.Keys, now, interval, deltas, settings)
    {
      var pending := deltas.Keys;
      ghost var before, h0, done: set<PathKey> := paths, history, {};
      UnderwayStart(paths, history, now, interval, deltas, settings);
      while pending != {}
        invariant pending <= deltas.Keys && Valid()
        invariant forall pk | pk in deltas :: pk in done <==> pk !in pending
        invariant Underway(before, h0, paths, history, done, now, interval, deltas, settings)
        decreases |pending|
      {
        var pk :| pk in pending;
        UpdateNext(pk, now, interval, deltas, before, h0, done);
        pending, done := pending - {pk}, done + {pk};
      }
      assert done == deltas.Keys;
    }

    /** One path of a tick, after those in `done`. */
    method UpdateNext(pk: PathKey, now: int, interval: int, deltas: map<PathKey, TransitDelta>,
                      ghost before: map<PathKey, PathEMA>, ghost h0: map<PathKey, seq<Sample>>, ghost done: set<PathKey>)
      requires Valid() && pk in deltas && pk !in done
      requires Underway(before, h0, paths, history, done, now, interval, deltas, settings)
      modifies this
      ensures Valid() && Underway(before, h0, paths, history, done + {pk}, now, interval, deltas, settings)
    {
      ghost var sofar, h := paths, history;
      UpdateEntry(pk, now, interval, deltas[pk]);
      UnderwayNext(before, h0, sofar, h, paths, done, now, interval, deltas, settings, pk);
    }

    method UpdateEntry(pk: PathKey, now: int, interval: int, delta: TransitDelta)
      requires Valid() && interval > 0
      modifies this
      ensures Valid() && history == old(history)[pk := Extended(old(history), pk, Sample(now, interval, delta))]
      ensures pk in paths && paths == old(paths)[pk := paths[pk]]
      ensures Moves(PathBefore(old(paths), pk, interval, settings), paths[pk], now, settings)
    {
      ghost var h := Extended(history, pk, Sample(now, interval, delta));
      var p;
      if pk in paths {
        assert Entry(paths[pk], pk, history[pk], settings);
        p := UpdatePath(paths[pk], pk, now, interval, delta, history[pk], settings);
      } else {
        p := NewPathEMA(pk, WindowCap(settings.instantWindow, interval));
        NewTracks(pk, p.windowCap, settings);
        p := UpdatePath(p, pk, now, interval, delta, [], settings);
      }
      AllTrackStep(paths, history, settings, pk, p, h);
      paths, history := paths[pk := p], history[pk := h];
    }

    method Snapshot() returns (out: map<PathKey, PathEMA>)
      ensures out == paths
    {
      out := map[];
      var pending := paths.Keys;
      while pending != {}
        invariant pending <= paths.Keys && out.Keys == paths.Keys - pending
        invariant forall pk | pk in out :: out[pk] == paths[pk]
        decreases |pending|
      {
        var pk :| pk in pending;
        out := out[pk := paths[pk]];
        pending := pending - {pk};
      }
    }
  }

  ghost function Extended(history: map<PathKey, seq<Sample>>, pk: PathKey, t: Sample): seq<Sample> {
    (if pk in history then history[pk] else []) + [t]
  }

  lemma NewTracks(pk: PathKey, cap: nat, s: Settings)
    requires cap >= 1 && Usable(s)
    ensures Tracks(NewPathEMA(pk, cap), pk, [], s) && NewPathEMA(pk, cap).windowCap == cap
  {
  }

  /** One path's share of a tick. */
  method UpdatePath(p: PathEMA, pk: PathKey, now: int, interval: int, delta: TransitDelta,
                    ghost h: seq<Sample>, s: Settings) returns (q: PathEMA)
    requires Usable(s) && Tracks(p, pk, h, s) && interval > 0
    requires if h == [] then p.windowCap == WindowCap(s.instantWindow, interval) else SizedByFirst(p, h, s)
    ensures Entry(q, pk, h + [Sample(now, interval, delta)], s) && Moves(p, q, now, s)
  {
    ghost var t := Sample(now, interval, delta);
    var pushed := Push(p, delta, h, t);
    q := Publish(pushed, now, interval, h, t, s);
    MovesFromRates(p, pushed, q, now, s);
  }

  lemma MovesFromRates(p: PathEMA, p': PathEMA, q: PathEMA, now: int, s: Settings)
    requires Usable(s) && Moves(p', q, now, s) && p'.lastTick == p.lastTick && p'.lastUpdate == p.lastUpdate
    requires p'.instantLossRate == p.instantLossRate && p'.instantLossErr == p.instantLossErr
    requires p'.emaLossRate == p.emaLossRate && p'.emaLossRateErr == p.emaLossRateErr
    ensures Moves(p, q, now, s)
  {
  }

  /** The sliding window: drop the oldest delta once the ring is full, and write the newest in its place. */
  method Push(p: PathEMA, delta: TransitDelta, ghost h: seq<Sample>, ghost t: Sample) returns (q: PathEMA)
    requires Ring(p, h) && Summed(p, h) && t.delta == delta
    ensures Ring(q, h + [t]) && Summed(q, h + [t]) && q.windowSegments == q.sumSeg
    ensures q == p.(window := q.window, windowPos := q.windowPos, windowLen := q.windowLen,
                    sumSeg := q.sumSeg, sumRet := q.sumRet, windowSegments := q.windowSegments)
  {
    q := p;
    if p.windowLen == p.windowCap {
      var oldest := p.window[p.windowPos];
      Evicted(p, h);
      q := q.(sumSeg := Minus64(q.sumSeg, oldest.segments), sumRet := Minus64(q.sumRet, oldest.retransmits));
    } else {
      q := q.(windowLen := q.windowLen + 1);
    }
    q := q.(window := q.window[p.windowPos := delta]);
    q := q.(sumSeg := Plus64(q.sumSeg, delta.segments), sumRet := Plus64(q.sumRet, delta.retransmits));
    q := q.(windowPos := (q.windowPos + 1) % q.windowCap);
    q := q.(windowSegments := q.sumSeg);
    RingStep(p, q, h, t);
    WindowStep(h, t, p.windowCap);
  }

  function Plus64(a: nat, b: nat): nat {
    (a + b) % U64
  }

  function Minus64(a: nat, b: nat): nat {
    (a - b) % U64
  }

  /** A full ring is about to overwrite the delta that leaves the window. */
  lemma Evicted(p: PathEMA, h: seq<Sample>)
    requires Ring(p, h) && p.windowLen == p.windowCap
    ensures |h| >= p.windowCap && p.window[p.windowPos] == h[|h| - p.windowCap].delta
  {
    OneLapBack(|h|, p.windowCap);
  }

  lemma OneLapBack(n: nat, cap: nat)
    requires n >= cap >= 1
    ensures (n - cap) % cap == n % cap
  {
    Division(cap, (n - cap) / cap + 1, (n - cap) % cap, n / cap, n % cap);
  }

  /** Within one lap no two indices share a place. */
  lemma OwnPlace(i: nat, j: nat, cap: nat)
    requires cap >= 1 && i < j < i + cap
    ensures i % cap != j % cap
  {
    var r := i % cap + (j - i);
    if r < cap {
      Division(cap, i / cap, r, j / cap, j % cap);
    } else {
      Division(cap, i / cap + 1, r - cap, j / cap, j % cap);
    }
  }

  lemma NextPlace(n: nat, cap: nat)
    requires cap >= 1
    ensures (n % cap + 1) % cap == (n + 1) % cap
  {
    if n % cap + 1 < cap {
      Division(cap, n / cap, n % cap + 1, (n + 1) / cap, (n + 1) % cap);
    } else {
      Division(cap, n / cap + 1, 0, (n + 1) / cap, (n + 1) % cap);
    }
  }

  lemma RingStep(p: PathEMA, q: PathEMA, h: seq<Sample>, t: Sample)
    requires Ring(p, h) && q.windowCap == p.windowCap && q.windowPos == (p.windowPos + 1) % p.windowCap
    requires q.window == p.window[p.windowPos := t.delta]
    requires q.windowLen == if p.windowLen == p.windowCap then p.windowLen else p.windowLen + 1
    ensures Ring(q, h + [t])
  {
    NextPlace(|h|, p.windowCap);
    forall j | |h| + 1 - q.windowLen <= j < |h| + 1 ensures q.window[j % q.windowCap] == (h + [t])[j].delta {
      if j < |h| {
        OwnPlace(j, |h|, p.windowCap);
      }
    }
  }

  // ---------- window sums

  lemma {:induction false} SumSplit(h: seq<Sample>, f: TransitDelta -> nat)
    requires h != []
    ensures SumOf(h, f) == f(h[0].delta) + SumOf(h[1..], f)
    decreases |h|
  {
    if |h| > 1 {
      SumSplit(h[..|h| - 1], f);
      assert h[..|h| - 1][1..] == h[1..][..|h| - 2];
    } else {
      assert h[..0] == [] && h[1..] == [];
    }
  }

  /** The window gains the new sample and, once it is full, loses its oldest: the subtraction never underflows. */
  lemma SumStep(h: seq<Sample>, t: Sample, cap: nat, f: TransitDelta -> nat)
    requires cap >= 1
    ensures |h| < cap ==> SumOf(Recent(h + [t], cap), f) == SumOf(Recent(h, cap), f) + f(t.delta)
    ensures |h| >= cap ==> var oldest := f(h[|h| - cap].delta);
                           && oldest <= SumOf(Recent(h, cap), f)
                           && SumOf(Recent(h + [t], cap), f) == SumOf(Recent(h, cap), f) - oldest + f(t.delta)
  {
    var w := Recent(h, cap);
    if |h| < cap {
      assert Recent(h + [t], cap) == w + [t] && (w + [t])[..|w|] == w;
    } else {
      SumSplit(w, f);
      assert Recent(h + [t], cap) == w[1..] + [t] && (w[1..] + [t])[..|w| - 1] == w[1..];
    }
  }

  lemma WindowStep(h: seq<Sample>, t: Sample, cap: nat)
    requires cap >= 1
    ensures |h| < cap ==>
              && WindowSegments(h + [t], cap) == Plus64(WindowSegments(h, cap), t.delta.segments)
              && WindowRetransmits(h + [t], cap) == Plus64(WindowRetransmits(h, cap), t.delta.retransmits)
    ensures |h| >= cap ==>
              var oldest := h[|h| - cap].delta;
              && WindowSegments(h + [t], cap) == Plus64(Minus64(WindowSegments(h, cap), oldest.segments), t.delta.segments)
              && WindowRetransmits(h + [t], cap) ==
                 Plus64(Minus64(WindowRetransmits(h, cap), oldest.retransmits), t.delta.retransmits)
  {
    FieldStep(h, t, cap, SEG);
    FieldStep(h, t, cap, RET);
  }

  lemma FieldStep(h: seq<Sample>, t: Sample, cap: nat, f: TransitDelta -> nat)
    requires cap >= 1
    ensures |h| < cap ==>
              SumOf(Recent(h + [t], cap), f) % U64 == Plus64(SumOf(Recent(h, cap), f) % U64, f(t.delta))
    ensures |h| >= cap ==>
              SumOf(Recent(h + [t], cap), f) % U64 ==
              Plus64(Minus64(SumOf(Recent(h, cap), f) % U64, f(h[|h| - cap].delta)), f(t.delta))
  {
    SumStep(h, t, cap, f);
    Wrapping(SumOf(Recent(h, cap), f), if |h| >= cap then f(h[|h| - cap].delta) else 0, f(t.delta));
  }

  lemma Wrapping(total: nat, oldest: nat, newest: nat)
    ensures Plus64(Minus64(total % U64, oldest), newest) == (total - oldest + newest) % U64
    ensures Plus64(total % U64, newest) == (total + newest) % U64
  {
  }

  // ---------- publishing

  /** How much of the distance to the newest rate is left after dt: all of it when the clock went back. */
  function Left(dt: int, s: Settings): real
    requires Usable(s)
  {
    var e := s.exp(-(dt as real) / s.emaHalfLife as real);
    if e > 1.0 then 1.0 else e
  }

  /**
   * How the published fields move from one tick to the next, at time now. Without a segment in the window they
   * stay. Otherwise the instant fields are those of the window sums; the first publication starts the smoothed
   * fields there, and each later one leaves what the time since the last tick leaves of their distance.
   */
  ghost predicate Moves(p: PathEMA, q: PathEMA, now: int, s: Settings)
    requires Usable(s)
  {
    && (q.windowSegments == 0 ==>
          && q.instantLossRate == p.instantLossRate && q.instantLossErr == p.instantLossErr
          && q.emaLossRate == p.emaLossRate && q.emaLossRateErr == p.emaLossRateErr && q.lastUpdate == p.lastUpdate)
    && (q.windowSegments > 0 ==>
          && q.instantLossRate * q.windowSegments as real == q.sumRet as real
          && q.instantLossErr == WilsonLossErr(q.sumRet, q.windowSegments, s.sqrt) && q.lastUpdate == Some(now)
          && (p.lastUpdate.None? ==> q.emaLossRate == q.instantLossRate && q.emaLossRateErr == q.instantLossErr)
          && (p.lastUpdate.Some? ==>
                && p.lastTick.Some?
                && Nears(p.emaLossRate, q.emaLossRate, q.instantLossRate, Left(now - p.lastTick.value, s))
                && Nears(p.emaLossRateErr, q.emaLossRateErr, q.instantLossErr, Left(now - p.lastTick.value, s))))
    && q.lastTick == Some(now)
  }

  lemma AlphaLeaves(s: Settings, dt: int)
    requires Usable(s)
    ensures Alpha(s, dt) == 1.0 - Left(dt, s)
  {
    SecondsCancel(dt as real, s.emaHalfLife as real);
  }

  lemma SecondsCancel(a: real, b: real)
    requires b > 0.0
    ensures -(a / 1000000000.0) / (b / 1000000000.0) == -a / b
  {
  }

  /** What is left of a distance. */
  predicate Nears(before: real, after: real, target: real, left: real) {
    after - target == left * (before - target)
  }

  lemma PublishedMoves(p: PathEMA, q: PathEMA, now: int, s: Settings)
    requires Usable(s) && q.lastTick == Some(now) && p.windowSegments == p.sumSeg
    requires p.lastUpdate.Some? ==> p.lastTick.Some?
    requires p.sumSeg == 0 ==> q == p.(lastTick := Some(now))
    requires p.sumSeg > 0 ==>
               && q.instantLossRate == p.sumRet as real / p.sumSeg as real
               && q.instantLossErr == WilsonLossErr(p.sumRet, p.sumSeg, s.sqrt) && q.lastUpdate == Some(now)
               && q.sumRet == p.sumRet && q.windowSegments == p.windowSegments
               && (p.lastUpdate.None? ==> q.emaLossRate == q.instantLossRate && q.emaLossRateErr == q.instantLossErr)
               && (p.lastUpdate.Some? ==>
                     var alpha := Alpha(s, now - p.lastTick.value);
                     && q.emaLossRate == Mix(alpha, q.instantLossRate, p.emaLossRate)
                     && q.emaLossRateErr == Mix(alpha, q.instantLossErr, p.emaLossRateErr))
    ensures Moves(p, q, now, s)
  {
    if p.sumSeg > 0 {
      Fraction(p.sumRet as real, p.sumSeg as real);
      if p.lastUpdate.Some? {
        var dt := now - p.lastTick.value;
        AlphaLeaves(s, dt);
        MixLeaves(Alpha(s, dt), q.instantLossRate, p.emaLossRate);
        MixLeaves(Alpha(s, dt), q.instantLossErr, p.emaLossRateErr);
      }
    }
  }

  lemma Fraction(k: real, n: real)
    requires n != 0.0
    ensures k / n * n == k
  {
  }

  lemma MixLeaves(alpha: real, newest: real, prior: real)
    ensures Nears(prior, Mix(alpha, newest, prior), newest, 1.0 - alpha)
  {
  }

  method Publish(p: PathEMA, now: int, interval: int, ghost h: seq<Sample>, ghost t: Sample, s: Settings)
      returns (q: PathEMA)
    requires Usable(s) && p.windowCap >= 1 && t.now == now && t.interval == interval
    requires p.windowSegments == p.sumSeg
    requires p.sumSeg == WindowSegments(h + [t], p.windowCap) && p.sumRet == WindowRetransmits(h + [t], p.windowCap)
    requires p.lastTick == (if h == [] then None else Some(h[|h| - 1].now)) && RatesOf(p, Smooth(h, p.windowCap, s))
    ensures q.lastTick == Some(now) && RatesOf(q, Smooth(h + [t], p.windowCap, s)) && Moves(p, q, now, s)
    ensures q == p.(instantLossRate := q.instantLossRate, instantLossErr := q.instantLossErr,
                    emaLossRate := q.emaLossRate, emaLossRateErr := q.emaLossRateErr,
                    lastUpdate := q.lastUpdate, lastTick := q.lastTick)
  {
    q := p;
    assert (h + [t])[..|h|] == h;
    if p.sumSeg > 0 {
      var instant := p.sumRet as real / p.sumSeg as real;
      var err := WilsonLossErr(p.sumRet, p.sumSeg, s.sqrt);
      q := q.(instantLossRate := instant, instantLossErr := err);
      var dt := if p.lastTick.Some? then now - p.lastTick.value else interval;
      var alpha := Alpha(s, dt);
      if p.lastUpdate.None? {
        q := q.(emaLossRate := instant, emaLossRateErr := err);
      } else {
        q := q.(emaLossRate := Mix(alpha, instant, p.emaLossRate), emaLossRateErr := Mix(alpha, err, p.emaLossRateErr));
      }
      q := q.(lastUpdate := Some(now));
    }
    q := q.(lastTick := Some(now));
    PublishedMoves(p, q, now, s);
  }

  // ---------- what the published rates are

  /** Every window of the run that held a segment had an instant rate between lo and hi. */
  ghost predicate InstantsWithin(h: seq<Sample>, cap: nat, lo: real, hi: real) {
    forall i | 0 < i <= |h| && WindowSegments(h[..i], cap) > 0 :: lo <= Instant(h[..i], cap) <= hi
  }

  lemma AlphaIsWeight(s: Settings, dt: int)
    requires Usable(s) && Exponential(s.exp)
    ensures 0.0 <= Alpha(s, dt) < 1.0
  {
  }

  lemma MixBetween(alpha: real, a: real, b: real, lo: real, hi: real)
    requires 0.0 <= alpha <= 1.0 && lo <= a <= hi && lo <= b <= hi
    ensures lo <= Mix(alpha, a, b) <= hi
  {
    MixSides(alpha, a, b, lo);
    MixSides(alpha, a, b, hi);
  }

  lemma MixSides(alpha: real, a: real, b: real, bound: real)
    requires 0.0 <= alpha <= 1.0
    ensures bound <= a && bound <= b ==> bound <= Mix(alpha, a, b)
    ensures a <= bound && b <= bound ==> Mix(alpha, a, b) <= bound
  {
    assert Mix(alpha, a, b) - bound == alpha * (a - bound) + (1.0 - alpha) * (b - bound);
    if bound <= a && bound <= b {
      ProductSign(alpha, a - bound);
      ProductSign(1.0 - alpha, b - bound);
    }
    if a <= bound && b <= bound {
      ProductSign(alpha, bound - a);
      ProductSign(1.0 - alpha, bound - b);
    }
  }

  /** The smoothed rate never leaves the range of the instant rates so far, whatever the clock does. */
  lemma {:induction false} SmoothedBetween(h: seq<Sample>, cap: nat, s: Settings, lo: real, hi: real)
    requires Usable(s) && Exponential(s.exp) && InstantsWithin(h, cap, lo, hi)
    ensures var r := Smooth(h, cap, s); r.Some? ==> lo <= r.value.instant <= hi && lo <= r.value.ema <= hi
  {
    if h == [] {
    } else {
      var front := h[..|h| - 1];
      assert forall i | 0 < i <= |front| :: front[..i] == h[..i];
      SmoothedBetween(front, cap, s, lo, hi);
      assert h[..|h|] == h;
      if WindowSegments(h, cap) > 0 {
        var before, alpha := Smooth(front, cap, s), Alpha(s, Elapsed(h));
        AlphaIsWeight(s, Elapsed(h));
        if before.Some? {
          MixBetween(alpha, Instant(h, cap), before.value.ema, lo, hi);
        }
      }
    }
  }

  lemma {:induction false} SumOrdered(h: seq<Sample>)
    requires forall i | 0 <= i < |h| :: h[i].delta.retransmits <= h[i].delta.segments
    ensures SumOf(h, RET) <= SumOf(h, SEG)
  {
    if h == [] {
    } else {
      SumOrdered(h[..|h| - 1]);
    }
  }

  lemma InstantIsRate(h: seq<Sample>, cap: nat)
    requires forall i | 0 <= i < |h| :: h[i].delta.retransmits <= h[i].delta.segments
    requires SumOf(Recent(h, cap), SEG) < U64 && WindowSegments(h, cap) > 0
    ensures 0.0 <= Instant(h, cap) <= 1.0
  {
    SumOrdered(Recent(h, cap));
    RateIsRate(WindowRetransmits(h, cap) as real, WindowSegments(h, cap) as real);
  }

  /**
   * When every delta is a rate (see Counters.DeltaCounts) and no window overflows 64 bits, both published loss
   * rates are real rates.
   */
  lemma RatesAreRates(h: seq<Sample>, cap: nat, s: Settings)
    requires Usable(s) && Exponential(s.exp)
    requires forall i | 0 <= i < |h| :: h[i].delta.retransmits <= h[i].delta.segments
    requires forall i | 0 < i <= |h| :: SumOf(Recent(h[..i], cap), SEG) < U64
    ensures var r := Smooth(h, cap, s); r.Some? ==> 0.0 <= r.value.instant <= 1.0 && 0.0 <= r.value.ema <= 1.0
  {
    forall i | 0 < i <= |h| && WindowSegments(h[..i], cap) > 0 ensures 0.0 <= Instant(h[..i], cap) <= 1.0 {
      InstantIsRate(h[..i], cap);
    }
    SmoothedBetween(h, cap, s, 0.0, 1.0);
  }

  /** The window is as many whole ticks as fit into it, if one does. */
  lemma WindowFits(instantWindow: int, interval: int)
    requires interval > 0
    ensures instantWindow >= interval ==>
              var n := WindowCap(instantWindow, interval);
              n * interval <= instantWindow < (n + 1) * interval
    ensures instantWindow < interval ==> WindowCap(instantWindow, interval) == 1
  {
    var n, r := instantWindow / interval, instantWindow % interval;
    assert instantWindow == interval * n + r;
    if n <= 0 {
      assert interval * n <= 0;
    } else {
      Laps(interval, n);
    }
  }

  // ---------- in the fields that a store publishes

  /** What a path publishes stays within the bounds of its instant rates, once it has published. */
  lemma PublishedBetween(p: PathEMA, pk: PathKey, h: seq<Sample>, s: Settings, lo: real, hi: real)
    requires Usable(s) && Exponential(s.exp) && Tracks(p, pk, h, s) && InstantsWithin(h, p.windowCap, lo, hi)
    ensures p.lastUpdate.Some? ==> lo <= p.instantLossRate <= hi && lo <= p.emaLossRate <= hi
  {
    SmoothedBetween(h, p.windowCap, s, lo, hi);
  }

  lemma {:induction false} SumPrefix(h: seq<Sample>, i: nat, f: TransitDelta -> nat)
    requires i <= |h|
    ensures SumOf(h[..i], f) <= SumOf(h, f)
    decreases |h|
  {
    if i == |h| {
      assert h[..i] == h;
    } else {
      SumPrefix(h[..|h| - 1], i, f);
      assert h[..|h| - 1][..i] == h[..i];
    }
  }

  lemma {:induction false} SumSuffix(h: seq<Sample>, i: nat, f: TransitDelta -> nat)
    requires i <= |h|
    ensures SumOf(h[i..], f) <= SumOf(h, f)
    decreases i
  {
    if i == 0 {
      assert h[i..] == h;
    } else {
      SumSplit(h, f);
      SumSuffix(h[1..], i - 1, f);
      assert h[1..][i - 1..] == h[i..];
    }
  }

  lemma WindowAtMost(h: seq<Sample>, i: nat, cap: nat, f: TransitDelta -> nat)
    requires i <= |h|
    ensures SumOf(Recent(h[..i], cap), f) <= SumOf(h, f)
  {
    var h' := h[..i];
    SumPrefix(h, i, f);
    if i > cap {
      SumSuffix(h', i - cap, f);
      assert Recent(h', cap) == h'[i - cap..];
    }
  }

  ghost predicate AllRates(h: seq<Sample>) {
    forall i | 0 <= i < |h| :: h[i].delta.retransmits <= h[i].delta.segments
  }

  /** A path whose deltas are rates, and whose total fits 64 bits, publishes real rates. */
  lemma PublishedAreRates(p: PathEMA, pk: PathKey, h: seq<Sample>, s: Settings)
    requires Usable(s) && Exponential(s.exp) && Tracks(p, pk, h, s) && AllRates(h) && SumOf(h, SEG) < U64
    ensures 0.0 <= p.instantLossRate <= 1.0 && 0.0 <= p.emaLossRate <= 1.0
  {
    forall i | 0 < i <= |h| ensures SumOf(Recent(h[..i], p.windowCap), SEG) < U64 {
      WindowAtMost(h, i, p.windowCap, SEG);
    }
    RatesAreRates(h, p.windowCap, s);
  }
}
