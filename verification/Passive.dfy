/**
 * Step 2 of the tick (cmd/daemon/main.go), from the packets to the published loss rates: read the counters
 * between packets, take the differences, and feed them to the store.
 */
module Passive {
  import opened Bloom
  import opened Transit
  import opened Counters
  import opened Accumulator
  import opened Metrics

  // ---------- a reading between packets

  /** The map as user space iterates it: for each path with a counter, one value per CPU. */
  ghost predicate Exposes(counters: map<PathKey, seq<TransitStats>>, stats: map<Counter, TransitStats>, cpus: nat) {
    && (forall pk | pk in counters :: counters[pk] == PerCPU(stats, pk, cpus))
    && (forall c: Counter | c in stats :: c.path in counters)
  }

  /** These counters are those of the run of packets h, without a reset. */
  ghost predicate ShownAfter(counters: map<PathKey, seq<TransitStats>>, h: seq<Event>, cpus: nat) {
    OnCPUs(h, cpus) && exists stats :: Counts(stats, h) && Exposes(counters, stats, cpus)
  }

  /** The packet program keeps such counters. */
  lemma MonitorShown(monitor: TransitMonitor, counters: map<PathKey, seq<TransitStats>>, cpus: nat)
    requires monitor.Valid() && OnCPUs(monitor.history, cpus) && Exposes(counters, monitor.stats, cpus)
    ensures ShownAfter(counters, monitor.history, cpus)
  {
  }

  /** A reading that is the packet count of every path, those without an entry included. */
  ghost predicate Current(reading: map<PathKey, TransitStats>, h: seq<Event>) {
    forall pk ::
      Before(reading, pk).segments == PathSegments(h, pk) && Before(reading, pk).retransmits == PathRetransmits(h, pk)
  }

  lemma {:induction false} FewerThanPackets(h: seq<Event>, pk: PathKey)
    ensures PathSegments(h, pk) <= |h|
  {
    if h == [] {
    } else {
      FewerThanPackets(h[..|h| - 1], pk);
    }
  }

  lemma {:induction false} NoCounters(stats: map<Counter, TransitStats>, h: seq<Event>, pk: PathKey, cpus: nat)
    requires Counts(stats, h) && forall c: Counter | c in stats :: c.path != pk
    ensures SegmentsUpTo(h, pk, cpus) == 0 && RetransmitsUpTo(h, pk, cpus) == 0
  {
    if cpus == 0 {
    } else {
      NoCounters(stats, h, pk, cpus - 1);
      assert Counter(cpus - 1, pk) !in stats;
    }
  }

  lemma ReadingCurrent(reading: map<PathKey, TransitStats>, counters: map<PathKey, seq<TransitStats>>, h: seq<Event>,
                       cpus: nat)
    requires ShownAfter(counters, h, cpus) && |h| < U64
    requires reading.Keys == counters.Keys && forall pk | pk in reading :: Sums(reading[pk], counters[pk])
    ensures Current(reading, h)
  {
    var stats :| Counts(stats, h) && Exposes(counters, stats, cpus);
    forall pk ensures Before(reading, pk).segments == PathSegments(h, pk)
                      && Before(reading, pk).retransmits == PathRetransmits(h, pk) {
      FewerThanPackets(h, pk);
      if pk in reading {
        ExactReading(reading[pk], stats, h, pk, cpus);
      } else {
        NoCounters(stats, h, pk, cpus);
        UpToAll(h, pk, cpus);
      }
    }
  }

  // ---------- what the store has been fed

  /** The samples of a path are rates, and add up to what the path forwarded and retransmitted. */
  ghost predicate FedPath(samples: seq<Sample>, h: seq<Event>, pk: PathKey) {
    && AllRates(samples)
    && SumOf(samples, SEG) == PathSegments(h, pk) && SumOf(samples, RET) == PathRetransmits(h, pk)
  }

  ghost predicate Fed(history: map<PathKey, seq<Sample>>, h: seq<Event>) {
    forall pk :: FedPath(if pk in history then history[pk] else [], h, pk)
  }

  lemma NothingFed()
    ensures Fed(map[], []) && Current(map[], [])
  {
  }

  /** A path that appears starts from zero; one without an entry has forwarded nothing. */
  lemma GainBetween(cur: map<PathKey, TransitStats>, prev: map<PathKey, TransitStats>, h: seq<Event>, n: nat, pk: PathKey)
    requires n <= |h| && Current(prev, h[..n]) && Current(cur, h)
    ensures var d := Gain(Before(cur, pk), Before(prev, pk));
            && d.segments == PathSegments(h, pk) - PathSegments(h[..n], pk)
            && d.retransmits == PathRetransmits(h, pk) - PathRetransmits(h[..n], pk)
            && d.retransmits <= d.segments
  {
    PathGains(h, n, pk);
    assert Before(cur, pk).segments == PathSegments(h, pk);
    assert Before(prev, pk).segments == PathSegments(h[..n], pk);
  }

  lemma FedPathNext(samples: seq<Sample>, h: seq<Event>, n: nat, pk: PathKey, t: Sample)
    requires n <= |h| && FedPath(samples, h[..n], pk) && t.delta.retransmits <= t.delta.segments
    requires t.delta.segments == PathSegments(h, pk) - PathSegments(h[..n], pk)
    requires t.delta.retransmits == PathRetransmits(h, pk) - PathRetransmits(h[..n], pk)
    ensures FedPath(samples + [t], h, pk)
  {
    assert (samples + [t])[..|samples|] == samples;
  }

  lemma FedNext(history: map<PathKey, seq<Sample>>, h: seq<Event>, n: nat, cur: map<PathKey, TransitStats>,
                prev: map<PathKey, TransitStats>, deltas: map<PathKey, TransitDelta>, now: int, interval: int,
                after: map<PathKey, seq<Sample>>)
    requires n <= |h| && Fed(history, h[..n]) && Current(prev, h[..n]) && Current(cur, h)
    requires deltas.Keys == cur.Keys && forall pk | pk in deltas :: deltas[pk] == Gain(cur[pk], Before(prev, pk))
    requires Advanced(history, after, deltas.Keys, now, interval, deltas)
    ensures Fed(after, h)
  {
    forall pk ensures FedPath(if pk in after then after[pk] else [], h, pk) {
      var samples := if pk in history then history[pk] else [];
      assert FedPath(samples, h[..n], pk);
      GainBetween(cur, prev, h, n, pk);
      if pk in deltas {
        FedPathNext(samples, h, n, pk, Sample(now, interval, deltas[pk]));
      } else {
        assert Before(cur, pk).segments == 0;
        PathGains(h, n, pk);
      }
    }
  }

  // ---------- the loss rates

  ghost predicate PublishedRates(paths: map<PathKey, PathEMA>) {
    forall pk | pk in paths :: 0.0 <= paths[pk].instantLossRate <= 1.0 && 0.0 <= paths[pk].emaLossRate <= 1.0
  }

  lemma FedPublishes(store: EMAStore, h: seq<Event>)
    requires store.Valid() && Exponential(store.settings.exp) && Fed(store.history, h) && |h| < U64
    ensures PublishedRates(store.paths)
  {
    forall pk | pk in store.paths
      ensures 0.0 <= store.paths[pk].instantLossRate <= 1.0 && 0.0 <= store.paths[pk].emaLossRate <= 1.0 {
      assert Entry(store.paths[pk], pk, store.history[pk], store.settings);
      FewerThanPackets(h, pk);
      assert FedPath(store.history[pk], h, pk);
      PublishedAreRates(store.paths[pk], pk, store.history[pk], store.settings);
    }
  }

  /**
   * One reading. The packets up to n had been read before; whatever came since, over whichever CPUs, each path's
   * samples still add up to its packets, and every published loss rate is a real rate.
   */
  method TransitTick(store: EMAStore, counters: map<PathKey, seq<TransitStats>>, prevTransit: map<PathKey, TransitStats>,
                     now: int, interval: int, ghost h: seq<Event>, ghost n: nat, ghost cpus: nat)
      returns (transitNow: map<PathKey, TransitStats>)
    requires store.Valid() && Exponential(store.settings.exp) && interval > 0
    requires n <= |h| < U64 && Fed(store.history, h[..n]) && Current(prevTransit, h[..n])
    requires ShownAfter(counters, h, cpus)
    modifies store
    ensures store.Valid() && Fed(store.history, h) && Current(transitNow, h)
    ensures PublishedRates(store.paths) && transitNow.Keys <= store.paths.Keys
  {
    transitNow := AllTransit(counters);
    ReadingCurrent(transitNow, counters, h, cpus);
    var transitDeltas := TransitDeltas(transitNow, prevTransit);
    ghost var before := store.history;
    store.Update(now, interval, transitDeltas);
    FedNext(before, h, n, transitNow, prevTransit, transitDeltas, now, interval, store.history);
    FedPublishes(store, h);
  }

  /** The reading points of a run: no reading before the one before it, none beyond the run. */
  ghost predicate ReadingPoints(points: seq<nat>, n: nat) {
    && (forall i | 0 <= i < |points| :: points[i] <= n)
    && (forall i, j | 0 <= i < j < |points| :: points[i] <= points[j])
  }

  /**
   * A run of packets, read at any points between packets and without a reset, by a store that starts empty:
   * after the last reading (hence, because the run may stop at any reading, after each) every published loss
   * rate lies between 0 and 1.
   */
  method Watch(store: EMAStore, readings: seq<map<PathKey, seq<TransitStats>>>, times: seq<int>, interval: int,
               ghost h: seq<Event>, ghost points: seq<nat>, ghost cpus: nat)
    requires store.Valid() && store.history == map[] && Exponential(store.settings.exp) && interval > 0
    requires |readings| == |times| == |points| && |h| < U64 && ReadingPoints(points, |h|)
    requires forall i | 0 <= i < |readings| :: ShownAfter(readings[i], h[..points[i]], cpus)
    modifies store
    ensures store.Valid() && PublishedRates(store.paths)
    ensures points != [] ==> Fed(store.history, h[..points[|points| - 1]])
  {
    var prevTransit: map<PathKey, TransitStats> := map[];
    ghost var read := 0;
    NothingFed();
    FedPublishes(store, []);
    assert h[..0] == [];
    for i := 0 to |readings|
      invariant store.Valid() && read <= |h| && read == (if i == 0 then 0 else points[i - 1])
      invariant UpToDate(store, prevTransit, h, read)
    {
      PointsGrow(points, |h|, i);
      prevTransit := WatchNext(store, readings[i], prevTransit, times[i], interval, h, read, points[i], cpus);
      read := points[i];
    }
  }

  /** After a reading at point n the store holds, and publishes, what the packets so far say. */
  ghost predicate UpToDate(store: EMAStore, prevTransit: map<PathKey, TransitStats>, h: seq<Event>, n: nat)
    requires n <= |h|
    reads store
  {
    Fed(store.history, h[..n]) && Current(prevTransit, h[..n]) && PublishedRates(store.paths)
  }

  lemma PointsGrow(points: seq<nat>, n: nat, i: nat)
    requires ReadingPoints(points, n) && i < |points|
    ensures (if i == 0 then 0 else points[i - 1]) <= points[i] <= n
  {
  }

  method WatchNext(store: EMAStore, counters: map<PathKey, seq<TransitStats>>, prevTransit: map<PathKey, TransitStats>,
                   now: int, interval: int, ghost h: seq<Event>, ghost read: nat, ghost point: nat, ghost cpus: nat)
      returns (transitNow: map<PathKey, TransitStats>)
    requires store.Valid() && Exponential(store.settings.exp) && interval > 0
    requires read <= point <= |h| < U64 && UpToDate(store, prevTransit, h, read) && ShownAfter(counters, h[..point], cpus)
    modifies store
    ensures store.Valid() && UpToDate(store, transitNow, h, point)
  {
    assert h[..point][..read] == h[..read];
    transitNow := TransitTick(store, counters, prevTransit, now, interval, h[..point], read, cpus);
  }
}
