/** The packet program of bpf/transit_loss.bpf.c, and what its per-path counters count. */
module Transit {
  import opened Options
  import opened Bloom

  /** The header fields that transit_egress looks at. */
  datatype Segment = Segment(
    saddr: nat, daddr: nat, sport: nat, dport: nat, seqNo: nat,
    payloadLen: nat, syn: bool, fin: bool, rst: bool, ack: bool)
  {
    /** Data is keyed by its sequence number in units of 16 bytes, an initial SYN by the number itself. */
    function KeyOf(): Option<Key> {
      if payloadLen > 0 then Some(Key(saddr, daddr, sport, dport, seqNo / 16))
      else if syn && !ack then Some(Key(saddr, daddr, sport, dport, seqNo))
      else None
    }
  }

  /** transit_stats: unsigned 64-bit counters. */
  datatype TransitStats = TransitStats(segments: nat, retransmits: nat, lastUpdateNs: nat)

  // ---------- what the counters mean

  function SegmentsOf(h: seq<Event>, slot: Counter): nat {
    if h == [] then 0 else
      SegmentsOf(h[..|h| - 1], slot) + if h[|h| - 1].slot == slot then 1 else 0
  }

  ghost function RetransmitsOf(h: seq<Event>, slot: Counter): nat {
    if h == [] then 0 else
      var front, last := h[..|h| - 1], h[|h| - 1];
      RetransmitsOf(front, slot) + if last.slot == slot && Seen(front, last) then 1 else 0
  }

  /** Between two points of a run a slot gains no more retransmits than segments. */
  lemma {:induction false} GainsOrdered(h: seq<Event>, n: nat, slot: Counter)
    requires n <= |h|
    ensures 0 <= RetransmitsOf(h, slot) - RetransmitsOf(h[..n], slot) <= SegmentsOf(h, slot) - SegmentsOf(h[..n], slot)
    decreases |h|
  {
    if n == |h| {
      assert h[..n] == h;
    } else {
      GainsOrdered(h[..|h| - 1], n, slot);
      assert h[..|h| - 1][..n] == h[..n];
    }
  }

  /** Every counter counts its slot, modulo 2^64; a slot without a counter has had no packet. */
  ghost predicate Counts(stats: map<Counter, TransitStats>, h: seq<Event>) {
    && (forall slot | slot in stats ::
          stats[slot].segments == SegmentsOf(h, slot) % U64 && stats[slot].retransmits == RetransmitsOf(h, slot) % U64)
    && (forall slot | slot !in stats :: SegmentsOf(h, slot) == 0 && RetransmitsOf(h, slot) == 0)
  }

  lemma CountsStep(stats: map<Counter, TransitStats>, h: seq<Event>, e: Event, st: TransitStats)
    requires Counts(stats, h)
    requires var old' := if e.slot in stats then stats[e.slot] else TransitStats(0, 0, 0);
             && st.segments == (old'.segments + 1) % U64
             && st.retransmits == if Seen(h, e) then (old'.retransmits + 1) % U64 else old'.retransmits
    ensures Counts(stats[e.slot := st], h + [e])
  {
    assert (h + [e])[..|h|] == h;
    OneMore(SegmentsOf(h, e.slot));
    OneMore(RetransmitsOf(h, e.slot));
  }

  lemma OneMore(n: nat)
    ensures (n % U64 + 1) % U64 == (n + 1) % U64
  {
  }

  function BitsOf(s: Segment, hash: Key -> Bits): Option<Bits> {
    match s.KeyOf()
    case None => None
    case Some(k) => Some(hash(k))
  }

  /** The bits of the counted packets are those of their headers. */
  ghost predicate Hashed(h: seq<Event>, packets: seq<Segment>, hash: Key -> Bits) {
    |packets| == |h| && forall i | 0 <= i < |h| :: h[i].bits == BitsOf(packets[i], hash)
  }

  // ---------- the program

  class TransitMonitor {
    const hash: Key -> Bits
    const words: array<Word>
    var epoch: Epoch
    var stats: map<Counter, TransitStats>
    ghost var history: seq<Event>
    ghost var packets: seq<Segment>

    ghost predicate Valid()
      reads this, words
    {
      && Hashed(history, packets, hash)
      && Represents(words[..], history) && epoch == EpochAfter(history) && epoch.startNs < U64
      && Counts(stats, history)
    }

    constructor (hash: Key -> Bits)
      ensures Valid() && history == [] && packets == [] && stats == map[] && fresh(words)
    {
      this.hash := hash;
      words := new Word[2 * BLOOM_WORDS](_ => Word(0, 0));
      epoch := Epoch(0, 0);
      stats := map[];
      history, packets := [], [];
      new;
      forall bit | 0 <= bit < BLOOM_BITS ensures !TestBit(words[..], bit, 0) {
        NoBits(bit % 64);
      }
    }

    method BloomTestBitGen(bit: nat, gen: nat) returns (r: bool)
      requires words.Length == 2 * BLOOM_WORDS && bit < BLOOM_BITS
      ensures r == TestBit(words[..], bit, gen)
    {
      var idx := (gen % 2) * BLOOM_WORDS + bit / 64;
      var w := words[idx];
      r := if w.gen != gen then false else HasBit(w.bits, bit % 64);
    }

    method BloomSetBitGen(bit: nat, gen: nat)
      requires words.Length == 2 * BLOOM_WORDS && bit < BLOOM_BITS
      modifies words
      ensures words[..] == SetBit(old(words[..]), bit, gen)
    {
      var idx := (gen % 2) * BLOOM_WORDS + bit / 64;
      if words[idx].gen != gen {
        words[idx] := Word(gen, 0);
      }
      words[idx] := words[idx].(bits := WithBit(words[idx].bits, bit % 64));
    }

    method BloomMaybeRollEpoch(now: nat)
      requires epoch.gen + 1 < U64
      modifies this`epoch
      ensures epoch == Roll(old(epoch), now)
    {
      if now > epoch.startNs && now - epoch.startNs > BLOOM_EPOCH_NS {
        epoch := Epoch((epoch.gen + 1) % U64, now);
      }
    }

    /** One bit against the current generation or the one before; before generation 0 lies 2^64 - 1. */
    method BloomSeenBit(bit: nat, ghost h: seq<Event>) returns (seen: bool)
      requires Primed(words[..], h, epoch.gen) && bit < BLOOM_BITS && epoch.gen < U64 - 1
      ensures seen == Live(h, bit, epoch.gen)
    {
      var prevGen := (epoch.gen + U64 - 1) % U64;
      seen := BloomTestBitGen(bit, epoch.gen);
      if !seen {
        seen := BloomTestBitGen(bit, prevGen);
      }
    }

    method BloomTestAndSet(bits: Bits, ghost h: seq<Event>) returns (seen: bool)
      requires Primed(words[..], h, epoch.gen) && epoch.gen < U64 - 1
      modifies words
      ensures seen == forall k | 0 <= k < 3 :: Live(h, bits[k], epoch.gen)
      ensures words[..] == SetKey(old(words[..]), bits, epoch.gen)
    {
      seen := TestKeyBits(bits, h);
      SetKeyBits(bits);
    }

    method TestKeyBits(bits: Bits, ghost h: seq<Event>) returns (seen: bool)
      requires Primed(words[..], h, epoch.gen) && epoch.gen < U64 - 1
      ensures seen == forall k | 0 <= k < 3 :: Live(h, bits[k], epoch.gen)
    {
      var seen0 := BloomSeenBit(bits[0], h);
      var seen1 := BloomSeenBit(bits[1], h);
      var seen2 := BloomSeenBit(bits[2], h);
      seen := seen0 && seen1 && seen2;
    }

    method SetKeyBits(bits: Bits)
      requires words.Length == 2 * BLOOM_WORDS
      modifies words
      ensures words[..] == SetKey(old(words[..]), bits, epoch.gen)
    {
      BloomSetBitGen(bits[0], epoch.gen);
      BloomSetBitGen(bits[1], epoch.gen);
      BloomSetBitGen(bits[2], epoch.gen);
    }

    /**
     * One forwarded packet. `slot` is None when its destination has no next hop yet. Pure ACKs are skipped; any
     * other packet is a segment of its slot, and a retransmit if its bits had been seen; a SYN with an ACK, a FIN
     * and a RST without payload never are. Valid() then says that every counter still counts exactly the packets,
     * and exactly the seen packets, of its slot.
     */
    method TransitEgress(s: Segment, slot: Option<Counter>, now: nat)
      requires Valid() && now < U64
      modifies this, words
      ensures Valid()
      ensures (s.payloadLen == 0 && !s.syn && !s.fin && !s.rst) || slot.None? ==>
                history == old(history) && packets == old(packets) && stats == old(stats) && words[..] == old(words[..])
      ensures (s.payloadLen > 0 || s.syn || s.fin || s.rst) && slot.Some? ==>
                && packets == old(packets) + [s] && history == old(history) + [EventOf(s, slot.value, now)]
                && slot.value in stats && stats[slot.value].lastUpdateNs == now
                && stats - {slot.value} == old(stats) - {slot.value}
      ensures (s.payloadLen > 0 || s.syn || s.fin || s.rst) && slot.Some? ==>
                var before := if slot.value in old(stats) then old(stats)[slot.value] else TransitStats(0, 0, 0);
                && stats[slot.value].segments == (before.segments + 1) % U64
                && (s.payloadLen == 0 && (s.ack || !s.syn) ==> stats[slot.value].retransmits == before.retransmits)
                && stats[slot.value].retransmits ==
                   if Seen(old(history), EventOf(s, slot.value, now)) then (before.retransmits + 1) % U64
                   else before.retransmits
    {
      if s.payloadLen == 0 && !s.syn && !s.fin && !s.rst {
        return;
      }
      if slot.None? {
        return;
      }
      var st := if slot.value in stats then stats[slot.value] else TransitStats(0, 0, 0);
      st := st.(segments := (st.segments + 1) % U64);

      ghost var e := EventOf(s, slot.value, now);
      var isRetrans := Detect(s, slot.value, now);
      if isRetrans {
        st := st.(retransmits := (st.retransmits + 1) % U64);
      }
      st := st.(lastUpdateNs := now);
      CountsStep(stats, history, e, st);
      stats := stats[slot.value := st];
      history, packets := history + [e], packets + [s];
    }

    function EventOf(s: Segment, slot: Counter, now: nat): Event {
      Event(slot, now, BitsOf(s, hash))
    }

    /** The clock and filter part of transit_egress. */
    method Detect(s: Segment, slot: Counter, now: nat) returns (isRetrans: bool)
      requires Represents(words[..], history) && epoch == EpochAfter(history) && epoch.startNs < U64 && now < U64
      modifies this`epoch, words
      ensures isRetrans == Seen(history, EventOf(s, slot, now))
      ensures Represents(words[..], history + [EventOf(s, slot, now)])
      ensures epoch == EpochAfter(history + [EventOf(s, slot, now)]) && epoch.startNs < U64
    {
      ghost var e := EventOf(s, slot, now);
      RollFor(e, now);
      PacketRepresents(words[..], history, e);
      isRetrans := TestFor(s);
    }

    /** The clock part: the words are then ready for the packet's generation. */
    method RollFor(ghost e: Event, now: nat)
      requires Represents(words[..], history) && epoch == EpochAfter(history) && epoch.startNs < U64
      requires now == e.now < U64
      modifies this`epoch
      ensures epoch == EpochAfter(history + [e]) && epoch.startNs < U64 && epoch.gen < U64 - 1
      ensures Primed(words[..], history, epoch.gen)
    {
      assert (history + [e])[..|history|] == history;
      GenerationFits(history, epoch);
      BloomMaybeRollEpoch(now);
      RollRepresents(words[..], history, e);
      GenerationFits(history + [e], epoch);
    }

    /** The filter part: a packet with a key is tested and inserted, any other leaves the filter alone. */
    method TestFor(s: Segment) returns (isRetrans: bool)
      requires Primed(words[..], history, epoch.gen) && epoch.gen < U64 - 1
      modifies words
      ensures s.KeyOf().None? ==> !isRetrans && words[..] == old(words[..])
      ensures s.KeyOf().Some? ==>
                var bits := hash(s.KeyOf().value);
                && isRetrans == (forall k | 0 <= k < 3 :: Live(history, bits[k], epoch.gen))
                && words[..] == SetKey(old(words[..]), bits, epoch.gen)
    {
      isRetrans := false;
      if s.payloadLen > 0 {
        isRetrans := BloomTestAndSet(hash(Key(s.saddr, s.daddr, s.sport, s.dport, s.seqNo / 16)), history);
      } else if s.syn && !s.ack {
        isRetrans := BloomTestAndSet(hash(Key(s.saddr, s.daddr, s.sport, s.dport, s.seqNo)), history);
      }
    }
  }

  /** Each roll moves the start by more than an epoch, so a 64-bit clock cannot wrap the generation. */
  lemma GenerationFits(h: seq<Event>, epoch: Epoch)
    requires epoch == EpochAfter(h) && epoch.startNs < U64
    ensures epoch.gen + 1 < U64
  {
    EpochMonotone(h, |h|);
  }

  // ---------- how long a key is remembered

  ghost predicate Clocked(h: seq<Event>) {
    forall i, j | 0 <= i <= j < |h| :: h[i].now <= h[j].now
  }

  /** A key set in generation g is reported as long as the generation is g or g + 1. */
  lemma RememberedWithin(h: seq<Event>, i: nat, e: Event)
    requires i < |h| && h[i].bits.Some? && e.bits == h[i].bits
    requires GenOf(h, i) <= EpochAfter(h + [e]).gen <= GenOf(h, i) + 1
    ensures Seen(h, e)
  {
    forall k | 0 <= k < 3 ensures Live(h, e.bits.value[k], EpochAfter(h + [e]).gen) {
      LiveBit(h, i, e.bits.value[k], EpochAfter(h + [e]).gen);
    }
  }

  lemma LiveBit(h: seq<Event>, i: nat, bit: nat, gen: nat)
    requires i < |h| && h[i].bits.Some? && bit in h[i].bits.value && GenOf(h, i) <= gen <= GenOf(h, i) + 1
    ensures Live(h, bit, gen)
  {
    assert Sets(h[i], bit);
    assert SetIn(h, bit, GenOf(h, i));
  }

  /** After event i: at most the next generation until an epoch has passed since it, and what its start is. */
  lemma {:induction false} SlowRolls(h: seq<Event>, i: nat)
    requires i < |h| && Clocked(h) && h[|h| - 1].now <= h[i].now + BLOOM_EPOCH_NS + 1
    ensures GenOf(h, i) <= EpochAfter(h).gen <= GenOf(h, i) + 1
    ensures EpochAfter(h).gen == GenOf(h, i) + 1 ==> EpochAfter(h).startNs > h[i].now
    decreases |h|
  {
    if i == |h| - 1 {
      assert h[..i + 1] == h;
    } else {
      var front := h[..|h| - 1];
      assert Clocked(front) && front[i] == h[i] && front[|front| - 1] == h[|h| - 2];
      assert front[..i + 1] == h[..i + 1];
      SlowRolls(front, i);
      if EpochAfter(h).gen == GenOf(h, i) + 1 && EpochAfter(front).gen == GenOf(h, i) {
        NotOverdue(front, i);
      }
    }
  }

  /** The start stays within an epoch of event i's time, as long as the generation is still i's. */
  lemma {:induction false} NotOverdue(h: seq<Event>, i: nat)
    requires i < |h| && Clocked(h) && EpochAfter(h).gen == GenOf(h, i)
    ensures h[i].now <= EpochAfter(h).startNs + BLOOM_EPOCH_NS
    decreases |h|
  {
    if i == |h| - 1 {
      assert h[..i + 1] == h;
    } else {
      var front := h[..|h| - 1];
      assert Clocked(front) && front[..i + 1] == h[..i + 1] && front[i] == h[i];
      EpochMonotone(front, i + 1);
      NotOverdue(front, i);
    }
  }

  /**
   * With a clock that does not go back, a key seen at time t is reported whenever it is tested up to
   * t + BLOOM_EPOCH_NS + 1: two rolls after t are more than an epoch apart.
   */
  lemma RememberedForAnEpoch(h: seq<Event>, i: nat, e: Event)
    requires i < |h| && Clocked(h + [e]) && h[i].bits.Some? && e.bits == h[i].bits
    requires e.now <= h[i].now + BLOOM_EPOCH_NS + 1
    ensures Seen(h, e)
  {
    var h' := h + [e];
    assert h'[i] == h[i] && h'[|h'| - 1] == e;
    SlowRolls(h', i);
    GenOfPrefix(h, e, i);
    RememberedWithin(h, i, e);
  }

  /** The bound is sharp: one nanosecond later two rolls fit in between, and the key is forgotten. */
  lemma ForgottenAfterward(bits: Bits, slot: Counter)
    ensures var t := BLOOM_EPOCH_NS;
            var h := [Event(slot, t, Some(bits)), Event(slot, t + 1, None)];
            var e := Event(slot, 2 * t + 2, Some(bits));
            Clocked(h + [e]) && e.now == h[0].now + BLOOM_EPOCH_NS + 2 && !Seen(h, e)
  {
    var t := BLOOM_EPOCH_NS;
    var a, b, e := Event(slot, t, Some(bits)), Event(slot, t + 1, None), Event(slot, 2 * t + 2, Some(bits));
    var h := [a, b];
    assert h[..1] == [a] && [a][..0] == [] && h[..0] == [] && (h + [e])[..2] == h;
    assert EpochAfter([a]) == Epoch(0, 0);
    assert EpochAfter(h) == Epoch(1, t + 1);
    assert EpochAfter(h + [e]) == Epoch(2, 2 * t + 2);
    assert GenOf(h, 0) == 0;
    assert !Live(h, bits[0], 2);
  }

  /** There is no upper bound: a roll needs a packet, so across a silence a key is never forgotten. */
  lemma RememberedAcrossSilence(h: seq<Event>, e: Event)
    requires h != [] && h[|h| - 1].bits.Some? && e.bits == h[|h| - 1].bits
    ensures Seen(h, e)
  {
    assert h[..|h| - 1 + 1] == h && (h + [e])[..|h|] == h;
    RememberedWithin(h, |h| - 1, e);
  }

  // ---------- which packets are retransmits of which

  /**
   * Two packets that carry data or start a connection, of one flow and with one number: that of the sequence in
   * units of 16 bytes for data, the sequence number itself for an initial SYN.
   */
  predicate SameSegment(a: Segment, b: Segment) {
    && (a.payloadLen > 0 || (a.syn && !a.ack)) && (b.payloadLen > 0 || (b.syn && !b.ack))
    && a.saddr == b.saddr && a.daddr == b.daddr && a.sport == b.sport && a.dport == b.dport
    && (if a.payloadLen > 0 then a.seqNo / 16 else a.seqNo) == (if b.payloadLen > 0 then b.seqNo / 16 else b.seqNo)
  }

  lemma SameKey(a: Segment, b: Segment)
    ensures SameSegment(a, b) <==> a.KeyOf().Some? && a.KeyOf() == b.KeyOf()
  {
  }

  /** A segment that was counted is a retransmit when it comes again within 1.5 s, whatever came in between. */
  lemma RepeatCounted(m: TransitMonitor, s: Segment, slot: Counter, now: nat, i: nat)
    requires m.Valid() && i < |m.packets| && SameSegment(m.packets[i], s)
    requires Clocked(m.history + [m.EventOf(s, slot, now)]) && now <= m.history[i].now + 1_500_000_001
    ensures Seen(m.history, m.EventOf(s, slot, now))
  {
    SameKey(m.packets[i], s);
    RememberedForAnEpoch(m.history, i, m.EventOf(s, slot, now));
  }

  /** One of the packet's bits is set by no counted packet that is another segment. */
  ghost predicate Distinguished(h: seq<Event>, packets: seq<Segment>, s: Segment, bits: Bits)
    requires |packets| == |h|
  {
    exists k | 0 <= k < 3 ::
      forall i | 0 <= i < |h| && Sets(h[i], bits[k]) :: SameSegment(packets[i], s)
  }

  /**
   * A packet that the hash tells apart from other segments is a retransmit if and only if the same segment was
   * counted in the current generation or the one before.
   */
  lemma RetransmitsAreRepeats(m: TransitMonitor, s: Segment, slot: Counter, now: nat)
    requires m.Valid()
    requires var e := m.EventOf(s, slot, now); e.bits.Some? ==> Distinguished(m.history, m.packets, s, e.bits.value)
    ensures var gen := EpochAfter(m.history + [m.EventOf(s, slot, now)]).gen;
            Seen(m.history, m.EventOf(s, slot, now)) <==>
              exists i :: 0 <= i < |m.packets| && SameSegment(m.packets[i], s)
                          && GenOf(m.history, i) <= gen <= GenOf(m.history, i) + 1
  {
    var h, e := m.history, m.EventOf(s, slot, now);
    var gen := EpochAfter(h + [e]).gen;
    if Seen(h, e) {
      var i := SeenBefore(h, m.packets, s, e);
    }
    if i :| 0 <= i < |m.packets| && SameSegment(m.packets[i], s) && GenOf(h, i) <= gen <= GenOf(h, i) + 1 {
      SameKey(m.packets[i], s);
      RememberedWithin(h, i, e);
    }
  }

  lemma SeenBefore(h: seq<Event>, packets: seq<Segment>, s: Segment, e: Event) returns (i: nat)
    requires |packets| == |h| && Seen(h, e) && Distinguished(h, packets, s, e.bits.value)
    ensures i < |h| && SameSegment(packets[i], s) && GenOf(h, i) <= EpochAfter(h + [e]).gen <= GenOf(h, i) + 1
  {
    var gen := EpochAfter(h + [e]).gen;
    var k :| 0 <= k < 3 && forall i | 0 <= i < |h| && Sets(h[i], e.bits.value[k]) :: SameSegment(packets[i], s);
    i := SetAt(h, e.bits.value[k], gen);
  }

  lemma SetAt(h: seq<Event>, bit: nat, gen: nat) returns (i: nat)
    requires Live(h, bit, gen)
    ensures i < |h| && GenOf(h, i) <= gen <= GenOf(h, i) + 1 && Sets(h[i], bit)
  {
    if SetIn(h, bit, gen) {
      i :| 0 <= i < |h| && GenOf(h, i) == gen && Sets(h[i], bit);
    } else {
      i :| 0 <= i < |h| && GenOf(h, i) == gen - 1 && Sets(h[i], bit);
    }
  }
}
