/**
 * Readings taken inside packets. The packet program counts a segment before it tests the filter and counts a
 * retransmit after it (bpf/transit_loss.bpf.c), and user space reads the counters at any moment: a reading can
 * lag by one retransmit for each CPU that is inside a retransmitted packet.
 */
module Inside {
  import opened Bloom
  import opened Transit
  import opened Counters
  import opened Metrics

  /** The reading of path pk after the packets h, with `lag` of their retransmits not counted yet. */
  ghost predicate Lagging(reading: TransitStats, h: seq<Event>, pk: PathKey, lag: nat) {
    reading.segments == PathSegments(h, pk) && reading.retransmits + lag == PathRetransmits(h, pk)
  }

  /** First transmissions between two points of a run. */
  ghost function FirstTransmissions(h: seq<Event>, n: nat, pk: PathKey): int
    requires n <= |h|
  {
    (PathSegments(h, pk) - PathSegments(h[..n], pk)) - (PathRetransmits(h, pk) - PathRetransmits(h[..n], pk))
  }

  // ---------- one packet

  /** Inside a retransmitted packet, between its two increments, the reading lags by one; after it, by none. */
  lemma InsideOnePacket(h: seq<Event>, e: Event, before: TransitStats)
    requires Seen(h, e) && Lagging(before, h, e.slot.path, 0)
    ensures Lagging(before.(segments := before.segments + 1), h + [e], e.slot.path, 1)
    ensures Lagging(before.(segments := before.segments + 1, retransmits := before.retransmits + 1), h + [e], e.slot.path, 0)
  {
    assert (h + [e])[..|h|] == h;
  }

  /** So the delta from the one reading to the other is a retransmit without a segment. */
  lemma RetransmitWithoutSegment()
    ensures Gain(TransitStats(101, 2, 0), TransitStats(101, 1, 0)) == TransitDelta(0, 1)
  {
  }

  // ---------- from one reading to a later one

  /** Counters never go down while the process runs. */
  predicate NotBefore(cur: TransitStats, prev: TransitStats) {
    prev.segments <= cur.segments && prev.retransmits <= cur.retransmits
  }

  /**
   * The delta of two readings, wherever they are taken, is a rate if and only if at least as many first
   * transmissions lie between them as retransmits were counted late.
   */
  lemma LaggingDelta(prev: TransitStats, cur: TransitStats, h: seq<Event>, n: nat, pk: PathKey, lag: nat, lag': nat)
    requires n <= |h| && Lagging(prev, h[..n], pk, lag) && Lagging(cur, h, pk, lag') && NotBefore(cur, prev)
    ensures var d := Gain(cur, prev);
            && d.segments == PathSegments(h, pk) - PathSegments(h[..n], pk)
            && d.retransmits == PathRetransmits(h, pk) - PathRetransmits(h[..n], pk) + lag - lag'
            && (d.retransmits <= d.segments <==> lag - lag' <= FirstTransmissions(h, n, pk))
  {
  }

  // ---------- the window

  /** Sample i is the delta from reading i to reading i + 1. */
  ghost predicate Sampled(samples: seq<Sample>, readings: seq<TransitStats>) {
    && |readings| == |samples| + 1
    && forall i | 0 <= i < |samples| ::
         NotBefore(readings[i + 1], readings[i]) && samples[i].delta == Gain(readings[i + 1], readings[i])
  }

  /** The deltas between two readings add up to the difference of the readings. */
  lemma {:induction false} DeltasTelescope(samples: seq<Sample>, readings: seq<TransitStats>)
    requires Sampled(samples, readings)
    ensures SumOf(samples, SEG) == readings[|samples|].segments - readings[0].segments
    ensures SumOf(samples, RET) == readings[|samples|].retransmits - readings[0].retransmits
  {
    if samples == [] {
    } else {
      var n := |samples| - 1;
      assert readings[..|readings| - 1][n] == readings[n];
      DeltasTelescope(samples[..n], readings[..|readings| - 1]);
    }
  }

  /** The reading at which the window of the last samples began. */
  function WindowStart(samples: seq<Sample>, cap: nat): nat {
    if |samples| <= cap then 0 else |samples| - cap
  }

  lemma WindowTelescopes(samples: seq<Sample>, readings: seq<TransitStats>, cap: nat)
    requires Sampled(samples, readings)
    ensures var first, last := readings[WindowStart(samples, cap)], readings[|samples|];
            && NotBefore(last, first)
            && SumOf(Recent(samples, cap), SEG) == last.segments - first.segments
            && SumOf(Recent(samples, cap), RET) == last.retransmits - first.retransmits
  {
    var k := WindowStart(samples, cap);
    var late, rest := samples[k..], readings[k..];
    assert Recent(samples, cap) == late;
    forall i | 0 <= i < |late|
      ensures NotBefore(rest[i + 1], rest[i]) && late[i].delta == Gain(rest[i + 1], rest[i]) {
      assert late[i] == samples[k + i] && rest[i] == readings[k + i];
    }
    DeltasTelescope(late, rest);
  }

  /**
   * When the published instant rate exceeds 1: exactly when, between the reading at which its window began and
   * the last one, fewer first transmissions lie than retransmits were counted late. On one CPU that is a window
   * that began inside a retransmitted packet and, to a reading between packets, saw retransmits only.
   */
  lemma RateExceedsOne(p: PathEMA, pk: PathKey, samples: seq<Sample>, s: Settings, readings: seq<TransitStats>,
                       h: seq<Event>, n: nat, lag: nat, lag': nat)
    requires Usable(s) && Tracks(p, pk, samples, s) && Sampled(samples, readings) && samples != []
    requires n <= |h| < U64
    requires Lagging(readings[WindowStart(samples, p.windowCap)], h[..n], pk, lag)
    requires Lagging(readings[|samples|], h, pk, lag')
    requires p.windowSegments > 0
    ensures p.instantLossRate > 1.0 <==> FirstTransmissions(h, n, pk) < lag - lag'
  {
    LaggingWindow(samples, readings, p.windowCap, h, n, pk, lag, lag');
    PublishedInstant(p, pk, samples, s);
    OverOneIff(p.sumRet, p.sumSeg);
  }

  lemma LaggingWindow(samples: seq<Sample>, readings: seq<TransitStats>, cap: nat, h: seq<Event>, n: nat, pk: PathKey,
                      lag: nat, lag': nat)
    requires Sampled(samples, readings) && n <= |h| < U64
    requires Lagging(readings[WindowStart(samples, cap)], h[..n], pk, lag) && Lagging(readings[|samples|], h, pk, lag')
    ensures WindowRetransmits(samples, cap) > WindowSegments(samples, cap) <==> FirstTransmissions(h, n, pk) < lag - lag'
  {
    WindowTelescopes(samples, readings, cap);
    AtMostPackets(h, pk);
  }

  /** It happens: readings of 101 segments with 1 retransmit, inside a packet, and of 102 with 3, after the next one. */
  lemma RateOfTwo(p: PathEMA, pk: PathKey, samples: seq<Sample>, s: Settings)
    requires Usable(s) && Tracks(p, pk, samples, s) && p.windowCap == 1 && samples != []
    requires samples[|samples| - 1].delta == Gain(TransitStats(102, 3, 0), TransitStats(101, 1, 0))
    ensures p.instantLossRate == 2.0
  {
    WindowOfOne(samples, SEG);
    WindowOfOne(samples, RET);
    assert WindowSegments(samples, 1) == 1 && WindowRetransmits(samples, 1) == 2;
    PublishedInstant(p, pk, samples, s);
  }

  lemma WindowOfOne(samples: seq<Sample>, f: TransitDelta -> nat)
    requires samples != []
    ensures SumOf(Recent(samples, 1), f) == f(samples[|samples| - 1].delta)
  {
    var last := [samples[|samples| - 1]];
    assert Recent(samples, 1) == last && last[..0] == [];
  }

  lemma {:induction false} AtMostPackets(h: seq<Event>, pk: PathKey)
    ensures PathRetransmits(h, pk) <= PathSegments(h, pk) <= |h|
  {
    if h == [] {
    } else {
      AtMostPackets(h[..|h| - 1], pk);
    }
  }

  /** While its window holds a segment, a path publishes the rate of the window. */
  lemma PublishedInstant(p: PathEMA, pk: PathKey, samples: seq<Sample>, s: Settings)
    requires Usable(s) && Tracks(p, pk, samples, s) && samples != [] && p.windowSegments > 0
    ensures p.windowSegments == p.sumSeg && p.instantLossRate == p.sumRet as real / p.sumSeg as real
  {
  }

  lemma OverOneIff(k: nat, n: nat)
    requires n > 0
    ensures k as real / n as real > 1.0 <==> k > n
  {
    var q, kr, nr := k as real / n as real, k as real, n as real;
    assert q * nr == kr;
    if q > 1.0 {
      assert (q - 1.0) * nr > 0.0;
    } else {
      assert (1.0 - q) * nr >= 0.0;
    }
  }
}
