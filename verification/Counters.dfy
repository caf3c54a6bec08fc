/** From per-CPU counters to what a path gained in a tick (internal/maps/maps.go, cmd/daemon/main.go). */
module Counters {
  import opened Bloom
  import opened Transit

  /** TransitDelta: what a path gained since the last reading. */
  datatype TransitDelta = TransitDelta(segments: nat, retransmits: nat)

  // ---------- reading

  /** The total of one field over the CPUs. */
  function Total(vals: seq<TransitStats>, f: TransitStats -> nat): nat {
    if vals == [] then 0 else Total(vals[..|vals| - 1], f) + f(vals[|vals| - 1])
  }

  const SEGMENTS: TransitStats -> nat := (s: TransitStats) => s.segments
  const RETRANSMITS: TransitStats -> nat := (s: TransitStats) => s.retransmits

  ghost predicate Sums(agg: TransitStats, vals: seq<TransitStats>) {
    && agg.segments == Total(vals, SEGMENTS) % U64
    && agg.retransmits == Total(vals, RETRANSMITS) % U64
    && (forall v | v in vals :: v.lastUpdateNs <= agg.lastUpdateNs)
    && (agg.lastUpdateNs == 0 || exists v | v in vals :: v.lastUpdateNs == agg.lastUpdateNs)
  }

  method SumPerCPU(vals: seq<TransitStats>) returns (agg: TransitStats)
    ensures Sums(agg, vals)
  {
    agg := TransitStats(0, 0, 0);
    for i := 0 to |vals|
      invariant Sums(agg, vals[..i])
    {
      var v := vals[i];
      assert vals[..i + 1][..i] == vals[..i];
      WrappedSum(Total(vals[..i], SEGMENTS), v.segments);
      WrappedSum(Total(vals[..i], RETRANSMITS), v.retransmits);
      assert v in vals[..i + 1];
      agg := TransitStats((agg.segments + v.segments) % U64, (agg.retransmits + v.retransmits) % U64,
                          if v.lastUpdateNs > agg.lastUpdateNs then v.lastUpdateNs else agg.lastUpdateNs);
    }
    assert vals[..|vals|] == vals;
  }

  lemma WrappedSum(a: nat, b: nat)
    ensures (a % U64 + b) % U64 == (a + b) % U64
  {
  }

  /** Every path once, in whatever order the map yields them. */
  method AllTransit(counters: map<PathKey, seq<TransitStats>>) returns (out: map<PathKey, TransitStats>)
    ensures out.Keys == counters.Keys
    ensures forall pk | pk in out :: Sums(out[pk], counters[pk])
  {
    out := map[];
    var pending := counters.Keys;
    while pending != {}
      invariant pending <= counters.Keys && out.Keys == counters.Keys - pending
      invariant forall pk | pk in out :: Sums(out[pk], counters[pk])
      decreases |pending|
    {
      var pk :| pk in pending;
      var agg := SumPerCPU(counters[pk]);
      out := out[pk := agg];
      pending := pending - {pk};
    }
  }

  // ---------- differences

  /** A counter that went back was reset; that counts as no gain at all. */
  function Diff(cur: nat, prev: nat): nat {
    if cur < prev then 0 else cur - prev
  }

  function Gain(cur: TransitStats, prev: TransitStats): TransitDelta {
    TransitDelta(Diff(cur.segments, prev.segments), Diff(cur.retransmits, prev.retransmits))
  }

  /** A path that was not there in the last reading starts from zero. */
  function Before(prev: map<PathKey, TransitStats>, pk: PathKey): TransitStats {
    if pk in prev then prev[pk] else TransitStats(0, 0, 0)
  }

  method TransitDeltas(now: map<PathKey, TransitStats>, prev: map<PathKey, TransitStats>)
      returns (deltas: map<PathKey, TransitDelta>)
    ensures deltas.Keys == now.Keys
    ensures forall pk | pk in deltas :: deltas[pk] == Gain(now[pk], Before(prev, pk))
  {
    deltas := map[];
    var pending := now.Keys;
    while pending != {}
      invariant pending <= now.Keys && deltas.Keys == now.Keys - pending
      invariant forall pk | pk in deltas :: deltas[pk] == Gain(now[pk], Before(prev, pk))
      decreases |pending|
    {
      var pk :| pk in pending;
      var cur, last := now[pk], if pk in prev then prev[pk] else TransitStats(0, 0, 0);
      deltas := deltas[pk := TransitDelta(Diff(cur.segments, last.segments), Diff(cur.retransmits, last.retransmits))];
      pending := pending - {pk};
    }
  }

  // ---------- what a delta counts

  /** The packets of a path, whichever CPU forwarded them. */
  function PathSegments(h: seq<Event>, pk: PathKey): nat {
    if h == [] then 0 else
      PathSegments(h[..|h| - 1], pk) + if h[|h| - 1].slot.path == pk then 1 else 0
  }

  /** Those of them that the filter had seen. */
  ghost function PathRetransmits(h: seq<Event>, pk: PathKey): nat {
    if h == [] then 0 else
      var front, last := h[..|h| - 1], h[|h| - 1];
      PathRetransmits(front, pk) + if last.slot.path == pk && Seen(front, last) then 1 else 0
  }

  ghost predicate OnCPUs(h: seq<Event>, cpus: nat) {
    forall i | 0 <= i < |h| :: h[i].slot.cpu < cpus
  }

  /** What user space finds under a path: one value per CPU, zero where that CPU has forwarded nothing. */
  function PerCPU(stats: map<Counter, TransitStats>, pk: PathKey, cpus: nat): seq<TransitStats> {
    if cpus == 0 then [] else
      var c := Counter(cpus - 1, pk);
      PerCPU(stats, pk, cpus - 1) + [if c in stats then stats[c] else TransitStats(0, 0, 0)]
  }

  function SegmentsUpTo(h: seq<Event>, pk: PathKey, cpus: nat): nat {
    if cpus == 0 then 0 else SegmentsUpTo(h, pk, cpus - 1) + SegmentsOf(h, Counter(cpus - 1, pk))
  }

  ghost function RetransmitsUpTo(h: seq<Event>, pk: PathKey, cpus: nat): nat {
    if cpus == 0 then 0 else RetransmitsUpTo(h, pk, cpus - 1) + RetransmitsOf(h, Counter(cpus - 1, pk))
  }

  lemma {:induction false} UpToStep(h: seq<Event>, e: Event, pk: PathKey, cpus: nat)
    ensures SegmentsUpTo(h + [e], pk, cpus) ==
            SegmentsUpTo(h, pk, cpus) + if e.slot.path == pk && e.slot.cpu < cpus then 1 else 0
    ensures RetransmitsUpTo(h + [e], pk, cpus) ==
            RetransmitsUpTo(h, pk, cpus) + if e.slot.path == pk && e.slot.cpu < cpus && Seen(h, e) then 1 else 0
  {
    assert (h + [e])[..|h|] == h;
    if cpus == 0 {
    } else {
      UpToStep(h, e, pk, cpus - 1);
      assert e.slot == Counter(cpus - 1, pk) <==> e.slot.path == pk && e.slot.cpu == cpus - 1;
    }
  }

  lemma {:induction false} UpToEmpty(pk: PathKey, cpus: nat)
    ensures SegmentsUpTo([], pk, cpus) == 0 && RetransmitsUpTo([], pk, cpus) == 0
  {
    if cpus == 0 {
    } else {
      UpToEmpty(pk, cpus - 1);
    }
  }

  /** Summing over the CPUs counts every packet of the path once. */
  lemma {:induction false} UpToAll(h: seq<Event>, pk: PathKey, cpus: nat)
    requires OnCPUs(h, cpus)
    ensures SegmentsUpTo(h, pk, cpus) == PathSegments(h, pk)
    ensures RetransmitsUpTo(h, pk, cpus) == PathRetransmits(h, pk)
  {
    if h == [] {
      UpToEmpty(pk, cpus);
    } else {
      var front, e := h[..|h| - 1], h[|h| - 1];
      assert h == front + [e];
      UpToAll(front, pk, cpus);
      UpToStep(front, e, pk, cpus);
    }
  }

  lemma {:induction false} SegmentsTotal(stats: map<Counter, TransitStats>, h: seq<Event>, pk: PathKey, cpus: nat)
    requires Counts(stats, h)
    ensures Total(PerCPU(stats, pk, cpus), SEGMENTS) % U64 == SegmentsUpTo(h, pk, cpus) % U64
  {
    if cpus == 0 {
    } else {
      SegmentsTotal(stats, h, pk, cpus - 1);
      var vals, fewer := PerCPU(stats, pk, cpus), PerCPU(stats, pk, cpus - 1);
      assert vals[..|vals| - 1] == fewer;
      SumOfWrapped(Total(fewer, SEGMENTS), SegmentsUpTo(h, pk, cpus - 1), SegmentsOf(h, Counter(cpus - 1, pk)));
    }
  }

  lemma {:induction false} RetransmitsTotal(stats: map<Counter, TransitStats>, h: seq<Event>, pk: PathKey, cpus: nat)
    requires Counts(stats, h)
    ensures Total(PerCPU(stats, pk, cpus), RETRANSMITS) % U64 == RetransmitsUpTo(h, pk, cpus) % U64
  {
    if cpus == 0 {
    } else {
      RetransmitsTotal(stats, h, pk, cpus - 1);
      var vals, fewer := PerCPU(stats, pk, cpus), PerCPU(stats, pk, cpus - 1);
      assert vals[..|vals| - 1] == fewer;
      SumOfWrapped(Total(fewer, RETRANSMITS), RetransmitsUpTo(h, pk, cpus - 1), RetransmitsOf(h, Counter(cpus - 1, pk)));
    }
  }

  lemma SumOfWrapped(a: nat, a': nat, b: nat)
    requires a % U64 == a' % U64
    ensures (a + b % U64) % U64 == (a' + b) % U64
  {
  }

  /** A reading between packets is the packet count of the path, modulo 2^64. */
  lemma ReadingCounts(agg: TransitStats, stats: map<Counter, TransitStats>, h: seq<Event>, pk: PathKey, cpus: nat)
    requires Counts(stats, h) && OnCPUs(h, cpus) && Sums(agg, PerCPU(stats, pk, cpus))
    ensures agg.segments == PathSegments(h, pk) % U64 && agg.retransmits == PathRetransmits(h, pk) % U64
  {
    SegmentsTotal(stats, h, pk, cpus);
    RetransmitsTotal(stats, h, pk, cpus);
    UpToAll(h, pk, cpus);
  }

  /** Between two points of a run a path gains no more retransmits than segments, and loses neither. */
  lemma {:induction false} PathGains(h: seq<Event>, n: nat, pk: PathKey)
    requires n <= |h|
    ensures 0 <= PathRetransmits(h, pk) - PathRetransmits(h[..n], pk) <= PathSegments(h, pk) - PathSegments(h[..n], pk)
    decreases |h|
  {
    if n == |h| {
      assert h[..n] == h;
    } else {
      PathGains(h[..|h| - 1], n, pk);
      assert h[..|h| - 1][..n] == h[..n];
    }
  }

  /**
   * From one reading to the next, without a reset or a wrap in between, the delta is exactly what the path
   * forwarded and what was retransmitted of it, so it is a real rate.
   */
  lemma DeltaCounts(prev: TransitStats, cur: TransitStats, stats: map<Counter, TransitStats>,
                    stats': map<Counter, TransitStats>, h: seq<Event>, n: nat, pk: PathKey, cpus: nat)
    requires n <= |h| && OnCPUs(h, cpus) && PathSegments(h, pk) < U64
    requires Counts(stats, h[..n]) && Sums(prev, PerCPU(stats, pk, cpus))
    requires Counts(stats', h) && Sums(cur, PerCPU(stats', pk, cpus))
    ensures var d := Gain(cur, prev);
            && d.segments == PathSegments(h, pk) - PathSegments(h[..n], pk)
            && d.retransmits == PathRetransmits(h, pk) - PathRetransmits(h[..n], pk)
            && d.retransmits <= d.segments
  {
    PathGains(h, n, pk);
    ExactReading(prev, stats, h[..n], pk, cpus);
    ExactReading(cur, stats', h, pk, cpus);
  }

  lemma ExactReading(agg: TransitStats, stats: map<Counter, TransitStats>, h: seq<Event>, pk: PathKey, cpus: nat)
    requires Counts(stats, h) && OnCPUs(h, cpus) && Sums(agg, PerCPU(stats, pk, cpus)) && PathSegments(h, pk) < U64
    ensures agg.segments == PathSegments(h, pk) && agg.retransmits == PathRetransmits(h, pk)
  {
    PathGains(h, 0, pk);
    ReadingCounts(agg, stats, h, pk, cpus);
  }

  /**
   * The two halves of a delta are cut off separately. It is a rate exactly if the retransmits did not rise or
   * the first transmissions did not fall.
   */
  lemma DeltaIsRate(cur: TransitStats, prev: TransitStats)
    requires cur.retransmits <= cur.segments && prev.retransmits <= prev.segments
    ensures var d := Gain(cur, prev);
            d.retransmits <= d.segments <==>
              || cur.retransmits <= prev.retransmits
              || cur.segments - cur.retransmits >= prev.segments - prev.retransmits
  {
  }
}
