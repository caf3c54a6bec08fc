/**
 * The retransmit detector of bpf/transit_loss.bpf.c: two half-arrays of words, tagged with the
 * generation that last wrote them, against the bits that packets really set.
 */
module Bloom {
  import opened Options

  const BLOOM_WORDS: nat := 32768
  const BLOOM_BITS: nat := 2097152
  const BLOOM_EPOCH_NS: nat := 1_500_000_000
  const U64: nat := 0x1_0000_0000_0000_0000

  /** bloom_word */
  datatype Word = Word(gen: nat, bits: bv64)

  /** bloom_epoch_state */
  datatype Epoch = Epoch(gen: nat, startNs: nat)

  /** What identifies a segment: the flow and its (scaled) sequence number. */
  datatype Key = Key(saddr: nat, daddr: nat, sport: nat, dport: nat, seqNo: nat)

  /** The three bit indices of a key: bloom_bit_index under the three seeds. */
  type Bits = s: seq<nat> | |s| == 3 && forall k | 0 <= k < 3 :: s[k] < BLOOM_BITS witness [0, 0, 0]

  // ---------- words

  function BitMask(pos: nat): bv64
    requires pos < 64
  {
    (1 as bv64) << pos
  }

  lemma MaskBits(w: bv64, i: bv64, j: bv64)
    requires i < 64 && j < 64
    ensures ((w | (1 << i)) & (1 << j) != 0) == ((w & (1 << j) != 0) || i == j)
  {
  }

  predicate HasBit(bits: bv64, pos: nat)
    requires pos < 64
  {
    bits & BitMask(pos) != 0
  }

  function WithBit(bits: bv64, pos: nat): bv64
    requires pos < 64
  {
    bits | BitMask(pos)
  }

  lemma WithBitHas(bits: bv64, i: nat, j: nat)
    requires i < 64 && j < 64
    ensures HasBit(WithBit(bits, i), j) <==> HasBit(bits, j) || i == j
  {
    OrTest(bits, i, j);
  }

  lemma OrTest(w: bv64, i: nat, j: nat)
    requires i < 64 && j < 64
    ensures ((w | BitMask(i)) & BitMask(j) != 0) == ((w & BitMask(j) != 0) || i == j)
  {
    MaskBits(w, i as bv64, j as bv64);
  }

  lemma NoBits(j: nat)
    requires j < 64
    ensures !HasBit(0, j)
  {
  }

  function Slot(bit: nat, gen: nat): (idx: nat)
    requires bit < BLOOM_BITS
    ensures idx < 2 * BLOOM_WORDS
  {
    (gen % 2) * BLOOM_WORDS + bit / 64
  }

  predicate TestBit(words: seq<Word>, bit: nat, gen: nat)
    requires |words| == 2 * BLOOM_WORDS && bit < BLOOM_BITS
  {
    var w := words[Slot(bit, gen)];
    w.gen == gen && HasBit(w.bits, bit % 64)
  }

  function SetBit(words: seq<Word>, bit: nat, gen: nat): seq<Word>
    requires |words| == 2 * BLOOM_WORDS && bit < BLOOM_BITS
  {
    var w := words[Slot(bit, gen)];
    words[Slot(bit, gen) := Word(gen, WithBit(if w.gen == gen then w.bits else 0, bit % 64))]
  }

  /** Setting a bit is visible as exactly that bit, in its generation and in the one before. */
  lemma SetThenTest(words: seq<Word>, bit: nat, gen: nat, other: nat, gen': nat)
    requires |words| == 2 * BLOOM_WORDS && bit < BLOOM_BITS && other < BLOOM_BITS
    requires gen' == gen || gen' + 1 == gen
    ensures TestBit(SetBit(words, bit, gen), other, gen')
       <==> TestBit(words, other, gen') || (other == bit && gen' == gen)
  {
    SlotInjective(bit, gen, other, gen');
    if Slot(other, gen') == Slot(bit, gen) {
      var w := words[Slot(bit, gen)];
      WithBitHas(if w.gen == gen then w.bits else 0, bit % 64, other % 64);
      NoBits(other % 64);
    }
  }

  /** The two halves never share a word, and a word's 64 bits are 64 different indices. */
  lemma SlotInjective(bit: nat, gen: nat, other: nat, gen': nat)
    requires bit < BLOOM_BITS && other < BLOOM_BITS && (gen' == gen || gen' + 1 == gen)
    ensures Slot(other, gen') == Slot(bit, gen) ==> gen' == gen && other / 64 == bit / 64
    ensures other == bit <==> other / 64 == bit / 64 && other % 64 == bit % 64
  {
  }

  // ---------- the specification, over the packets seen so far

  /** A path: the next hop, and the subnet of the destination. */
  datatype PathKey = PathKey(nextHopIP: nat, dstSubnet: nat)

  /** The counters are kept per CPU; the filter is shared by all of them. */
  datatype Counter = Counter(cpu: nat, path: PathKey)

  /** A counted packet: its counter (CPU and path), its arrival time, and its bits if it is tested. */
  datatype Event = Event(slot: Counter, now: nat, bits: Option<Bits>)

  function Roll(e: Epoch, now: nat): Epoch {
    if now > e.startNs && now - e.startNs > BLOOM_EPOCH_NS then Epoch(e.gen + 1, now) else e
  }

  function EpochAfter(h: seq<Event>): Epoch {
    if h == [] then Epoch(0, 0) else Roll(EpochAfter(h[..|h| - 1]), h[|h| - 1].now)
  }

  /** The generation in which event i was processed. */
  function GenOf(h: seq<Event>, i: nat): nat
    requires i < |h|
  {
    EpochAfter(h[..i + 1]).gen
  }

  /** Some packet of that generation set the bit. */
  ghost predicate SetIn(h: seq<Event>, bit: nat, gen: nat) {
    exists i | 0 <= i < |h| :: GenOf(h, i) == gen && Sets(h[i], bit)
  }

  ghost predicate Live(h: seq<Event>, bit: nat, gen: nat) {
    SetIn(h, bit, gen) || (gen > 0 && SetIn(h, bit, gen - 1))
  }

  /** The answer for a packet after history h: all its bits are of this or the previous generation. */
  ghost predicate Seen(h: seq<Event>, e: Event) {
    e.bits.Some? && forall k | 0 <= k < 3 :: Live(h, e.bits.value[k], EpochAfter(h + [e]).gen)
  }

  lemma {:induction false} EpochMonotone(h: seq<Event>, i: nat)
    requires i <= |h|
    ensures EpochAfter(h[..i]).gen <= EpochAfter(h).gen
    ensures EpochAfter(h).gen * BLOOM_EPOCH_NS <= EpochAfter(h).startNs
    decreases |h|
  {
    if i == |h| {
      assert h[..i] == h;
      if h != [] {
        EpochMonotone(h[..|h| - 1], |h| - 1);
      }
    } else {
      EpochMonotone(h[..|h| - 1], i);
      assert h[..|h| - 1][..i] == h[..i];
    }
  }

  lemma GenOfPrefix(h: seq<Event>, e: Event, i: nat)
    requires i < |h|
    ensures GenOf(h + [e], i) == GenOf(h, i)
  {
    assert (h + [e])[..i + 1] == h[..i + 1];
  }

  predicate Sets(e: Event, bit: nat) {
    e.bits.Some? && bit in e.bits.value
  }

  /** How one more packet changes the set of set bits. */
  lemma SetInStep(h: seq<Event>, e: Event, bit: nat, gen: nat)
    ensures SetIn(h + [e], bit, gen) <==> SetIn(h, bit, gen) || (gen == EpochAfter(h + [e]).gen && Sets(e, bit))
  {
    var h' := h + [e];
    assert h'[..|h| + 1] == h';
    forall i | 0 <= i < |h| ensures GenOf(h', i) == GenOf(h, i) && h'[i] == h[i] {
      GenOfPrefix(h, e, i);
    }
    assert GenOf(h', |h|) == EpochAfter(h').gen && h'[|h|] == e;
    if SetIn(h, bit, gen) {
      var i :| 0 <= i < |h| && GenOf(h, i) == gen && Sets(h[i], bit);
      assert GenOf(h', i) == gen && Sets(h'[i], bit);
    }
  }

  // ---------- the representation

  ghost predicate Answers(words: seq<Word>, h: seq<Event>, gen: nat)
    requires |words| == 2 * BLOOM_WORDS
  {
    forall bit | 0 <= bit < BLOOM_BITS :: TestBit(words, bit, gen) <==> SetIn(h, bit, gen)
  }

  /** The words answer for the current generation and the previous one exactly as the history does. */
  ghost predicate Represents(words: seq<Word>, h: seq<Event>) {
    Primed(words, h, EpochAfter(h).gen)
  }

  /** They do so in generation gen, which may have begun with a packet that is not yet in the history. */
  ghost predicate Primed(words: seq<Word>, h: seq<Event>, gen: nat) {
    && |words| == 2 * BLOOM_WORDS
    && (forall i | 0 <= i < |words| :: words[i].gen <= gen)
    && Answers(words, h, gen)
    && (gen > 0 ==> Answers(words, h, gen - 1))
  }

  /** No packet belongs to a generation that has not begun. */
  lemma NoFuture(h: seq<Event>, bit: nat, gen: nat)
    requires gen > EpochAfter(h).gen
    ensures !SetIn(h, bit, gen)
  {
    forall i | 0 <= i < |h| ensures GenOf(h, i) < gen {
      EpochMonotone(h, i + 1);
    }
  }

  /** Three bits set in turn, as bloom_test_and_set does. */
  function SetKey(words: seq<Word>, bits: Bits, gen: nat): seq<Word>
    requires |words| == 2 * BLOOM_WORDS
  {
    SetBit(SetBit(SetBit(words, bits[0], gen), bits[1], gen), bits[2], gen)
  }

  lemma SetKeyThenTest(words: seq<Word>, bits: Bits, gen: nat, bit: nat, gen': nat)
    requires |words| == 2 * BLOOM_WORDS
    requires bit < BLOOM_BITS && (gen' == gen || gen' + 1 == gen)
    ensures TestBit(SetKey(words, bits, gen), bit, gen') <==> TestBit(words, bit, gen') || (bit in bits && gen' == gen)
  {
    SetBitsThenTest(words, bits[0], bits[1], bits[2], gen, bit, gen');
    assert bit in bits <==> bit == bits[0] || bit == bits[1] || bit == bits[2];
  }

  lemma SetBitsThenTest(words: seq<Word>, b0: nat, b1: nat, b2: nat, gen: nat, bit: nat, gen': nat)
    requires |words| == 2 * BLOOM_WORDS && b0 < BLOOM_BITS && b1 < BLOOM_BITS && b2 < BLOOM_BITS
    requires bit < BLOOM_BITS && (gen' == gen || gen' + 1 == gen)
    ensures TestBit(SetBit(SetBit(SetBit(words, b0, gen), b1, gen), b2, gen), bit, gen') <==>
            TestBit(words, bit, gen') || ((bit == b0 || bit == b1 || bit == b2) && gen' == gen)
  {
    var w1 := SetBit(words, b0, gen);
    var w2 := SetBit(w1, b1, gen);
    SetThenTest(words, b0, gen, bit, gen');
    SetThenTest(w1, b1, gen, bit, gen');
    SetThenTest(w2, b2, gen, bit, gen');
  }

  /** A packet's roll leaves the words right for the new generation; the old bits stay as "previous". */
  lemma RollRepresents(words: seq<Word>, h: seq<Event>, e: Event)
    requires Represents(words, h)
    ensures Primed(words, h, EpochAfter(h + [e]).gen)
  {
    assert (h + [e])[..|h|] == h;
    var gen := EpochAfter(h + [e]).gen;
    if gen > EpochAfter(h).gen {
      forall bit | 0 <= bit < BLOOM_BITS ensures !SetIn(h, bit, gen) {
        NoFuture(h, bit, gen);
      }
    }
  }

  lemma AnswersStep(words: seq<Word>, h: seq<Event>, e: Event, g: nat)
    requires |words| == 2 * BLOOM_WORDS && Answers(words, h, g)
    requires g == EpochAfter(h + [e]).gen || g + 1 == EpochAfter(h + [e]).gen
    ensures Answers(WordsAfter(words, h, e), h + [e], g)
  {
    var gen := EpochAfter(h + [e]).gen;
    forall bit | 0 <= bit < BLOOM_BITS
      ensures TestBit(WordsAfter(words, h, e), bit, g) <==> SetIn(h + [e], bit, g)
    {
      SetInStep(h, e, bit, g);
      if e.bits.Some? {
        SetKeyThenTest(words, e.bits.value, gen, bit, g);
      }
    }
  }

  function WordsAfter(words: seq<Word>, h: seq<Event>, e: Event): seq<Word>
    requires |words| == 2 * BLOOM_WORDS
  {
    if e.bits.Some? then SetKey(words, e.bits.value, EpochAfter(h + [e]).gen) else words
  }

  lemma PacketRepresents(words: seq<Word>, h: seq<Event>, e: Event)
    requires Represents(words, h)
    ensures Represents(WordsAfter(words, h, e), h + [e])
  {
    var gen := EpochAfter(h + [e]).gen;
    RollRepresents(words, h, e);
    GensStep(words, h, e);
    AnswersStep(words, h, e, gen);
    if gen > 0 {
      AnswersStep(words, h, e, gen - 1);
    }
  }

  /** A packet tags the words it writes with its own generation. */
  lemma GensStep(words: seq<Word>, h: seq<Event>, e: Event)
    requires |words| == 2 * BLOOM_WORDS
    requires forall i | 0 <= i < |words| :: words[i].gen <= EpochAfter(h + [e]).gen
    ensures |WordsAfter(words, h, e)| == |words|
    ensures forall i | 0 <= i < |words| :: WordsAfter(words, h, e)[i].gen <= EpochAfter(h + [e]).gen
  {
  }
}
