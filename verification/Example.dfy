/** The premises of the theorems can be met: a concrete neighbour and prefix, and a first update. */
module Example {
  import opened Options
  import opened Text
  import opened Addresses
  import opened Octets
  import opened Names
  import opened Router
  import opened Actuate
  import opened TierScripts
  import opened Compilation
  import opened Normalization
  import opened Restart
  import opened Runs

  lemma QuadEnd(a: nat, b: nat, c: nat)
    ensures Quad(a, b, c, 0) % 256 == 0
  {
  }

  lemma ZeroOctet(s: string)
    requires s == "0"
    ensures IsOctet(s) && Value(s) == 0
  {
    assert s[..0] == "";
  }

  lemma ThreeDigits(s: string, x: char, y: char)
    requires s == ['1'] + [x] + [y] && IsDigit(x) && IsDigit(y)
    ensures IsOctet(s)
  {
    OneMoreDigit("", '1');
    assert "" + ['1'] == ['1'];
    OneMoreDigit(['1'], x);
    OneMoreDigit(['1'] + [x], y);
  }

  /** An address that ends in a zero octet makes a canonical prefix of length 24. */
  lemma Slash24(addr: string, s: string)
    requires IsIPv4(addr) && Address(addr) % 256 == 0 && s == addr + ['/'] + "24"
    ensures IsCidr(s)
  {
    var len := "24";
    IPv4Chars(addr);
    JoinHead(addr, [len], '/');
    assert forall part | part in [addr] + [len] :: '/' !in part;
    SplitJoin([addr] + [len], '/');
    assert len[..1] == "2" && "2"[..0] == "";
    assert Value("2") == 2 && Value(len) == 24;
    Block24();
  }

  lemma Block24()
    ensures BlockSize(24) == 256
  {
    assert BlockSize(30) == 4;
    assert BlockSize(28) == 16;
    assert BlockSize(26) == 64;
  }

  lemma ExampleNeighbor(nb: string)
    requires nb == "192" + ['.'] + ("168" + ['.'] + ("100" + ['.'] + "101"))
    ensures IsIPv4(nb)
  {
    ThreeDigits("192", '9', '2');
    ThreeDigits("168", '6', '8');
    ThreeDigits("100", '0', '0');
    ThreeDigits("101", '0', '1');
    FourOctets("192", "168", "100", "101", nb);
  }

  /**
   * On an empty router, in every dialect, a first update with one prefix goes through once its session lives
   * long enough: the neighbour's route for the prefix gets its preference, every other passes with what it had.
   */
  lemma FirstUpdate(d: Dialect, nb: string, only: string, v: int, least: nat, fault: nat, prefix: string, pref: int)
    requires least == MIN_SLOTS
    requires IsIPv4(nb) && IsCidr(only) && LegalPref(v) && prefix != NEVER_CIDR
    requires fault >= |TierScript(NeighborTierUpdate(nb, [PrefixPref(only, v)]), least)|
    ensures var r := SetTiers(d, World(Config(map[], map[], map[], map[]), map[]),
                              NeighborTierUpdate(nb, [PrefixPref(only, v)]), fault);
            && r.1
            && Receive(r.0.config, nb, prefix, pref) == Accepted(if prefix == only then v else pref)
  {
    var u, w := NeighborTierUpdate(nb, [PrefixPref(only, v)]), World(Config(map[], map[], map[], map[]), map[]);
    CleanStartGood(w.config);
    SingleMeaning(d, w, u, least, fault, prefix, pref);
  }

  lemma SingleMeaning(d: Dialect, w: World, u: NeighborTierUpdate, least: nat, fault: nat, prefix: string, pref: int)
    requires least == MIN_SLOTS
    requires Good(w) && w.counts == map[] && LegalUpdate(u) && |u.prefs| == 1 && LegalPref(u.prefs[0].localPref)
    requires fault >= |TierScript(u, least)| && prefix != NEVER_CIDR
    ensures var r := SetTiers(d, w, u, fault);
            && r.1
            && Receive(r.0.config, u.neighbor, prefix, pref) ==
               Accepted(if prefix == u.prefs[0].prefix then u.prefs[0].localPref else pref)
  {
    SetTiersMeaning(d, w, u, fault, prefix, pref);
    FreshSlotsAre(w, u, least);
    SoleAssigned(u.prefs, prefix);
  }

  lemma FreshSlotsAre(w: World, u: NeighborTierUpdate, least: nat)
    requires least == MIN_SLOTS && w.counts == map[] && |u.prefs| == 1
    ensures SlotsOf(w, u) == least && (LegalPref(u.prefs[0].localPref) ==> Fits(u, least))
  {
  }

  lemma SoleAssigned(prefs: seq<PrefixPref>, prefix: string)
    requires |prefs| == 1
    ensures Assigned(prefs, prefix) == if prefix == prefs[0].prefix then Some(prefs[0].localPref) else None
  {
    assert prefs[1..] == [];
  }

  // ---------- many prefixes

  const HEAD: string := "192" + ['.'] + ("168" + ['.'])
  const TAIL: string := ['.'] + "0" + (['/'] + "24")

  /** 192.168.i.0/24 */
  function PrefixNo(i: nat): string {
    HEAD + Decimal(i) + TAIL
  }

  lemma PrefixNoLegal(i: nat)
    requires i < 256
    ensures IsCidr(PrefixNo(i)) && PrefixNo(i) != NEVER_CIDR
  {
    var digits := Decimal(i);
    var addr := "192" + ['.'] + ("168" + ['.'] + (digits + ['.'] + "0"));
    ThreeDigits("192", '9', '2');
    ThreeDigits("168", '6', '8');
    DecimalOctet(i);
    ZeroOctet("0");
    FourOctets("192", "168", digits, "0", addr);
    var parts := Split(addr, '.');
    QuadEnd(Value(parts[0]), Value(parts[1]), Value(parts[2]));
    assert PrefixNo(i) == addr + ['/'] + "24";
    Slash24(addr, PrefixNo(i));
    assert PrefixNo(i)[|PrefixNo(i)| - 1] == '4' && NEVER_CIDR[|NEVER_CIDR| - 1] == '2';
  }

  lemma PrefixNoInjective(i: nat, j: nat)
    requires PrefixNo(i) == PrefixNo(j)
    ensures i == j
  {
    Between(HEAD, Decimal(i), Decimal(j), TAIL);
    DecimalValue(i);
    DecimalValue(j);
  }

  lemma Between(head: string, x: string, y: string, tail: string)
    requires head + x + tail == head + y + tail
    ensures x == y
  {
    var s := head + x + tail;
    assert |x| == |y|;
    assert s[|head|..|head| + |x|] == x && s[|head|..|head| + |y|] == y;
  }

  /** The prefixes 0 .. n - 1, all with the same preference. */
  function ManyPrefs(n: nat, v: int): (prefs: seq<PrefixPref>)
    ensures |prefs| == n && forall i | 0 <= i < n :: prefs[i] == PrefixPref(PrefixNo(i), v)
  {
    seq(n, i requires 0 <= i < n => PrefixPref(PrefixNo(i), v))
  }

  lemma ManyLegal(nb: string, n: nat, v: int)
    requires IsIPv4(nb) && n <= 256
    ensures LegalUpdate(NeighborTierUpdate(nb, ManyPrefs(n, v)))
    ensures forall i, j | 0 <= i < j < n :: PrefixNo(i) != PrefixNo(j)
  {
    forall i | 0 <= i < n ensures IsCidr(ManyPrefs(n, v)[i].prefix) {
      PrefixNoLegal(i);
    }
    forall i, j | 0 <= i < j < n ensures PrefixNo(i) != PrefixNo(j) {
      if PrefixNo(i) == PrefixNo(j) {
        PrefixNoInjective(i, j);
      }
    }
  }

  // ---------- a stale slot

  /** A router without configuration, and a daemon without counts. */
  predicate Empty(w: World) {
    w.config.lists == map[] && w.config.maps == map[] && w.config.inbound == map[] && w.config.outbound == map[]
    && w.counts == map[]
  }

  lemma EmptyIsGood(w: World)
    requires Empty(w)
    ensures CleanStart(w.config) && Good(w) && w.counts == map[]
  {
    CleanStartGood(w.config);
  }

  /**
   * A run that ends with a stale slot: on an empty router an update with n of these prefixes (33, say) at 300, a
   * restart, and an update with the first m of them (one, say). Prefix k (the last, say), which the second update
   * does not list, still gets 300 instead of passing.
   */
  lemma StaleRun(d: Dialect, start: World, nb: string, n: nat, m: nat, k: nat, fault: nat, fault': nat, pref: int)
    requires Empty(start)
    requires IsIPv4(nb) && 1 <= m <= MIN_SLOTS <= k < n <= 256
    requires var big, small := NeighborTierUpdate(nb, ManyPrefs(n, 300)), NeighborTierUpdate(nb, ManyPrefs(m, 300));
             Undisturbed(big, fault) && Undisturbed(small, fault')
    ensures var big, small := NeighborTierUpdate(nb, ManyPrefs(n, 300)), NeighborTierUpdate(nb, ManyPrefs(m, 300));
            var ops := [Update(big, fault), Restarted];
            var (end, ok) := SetTiers(d, Execute(d, start, ops), small, fault');
            && CleanStart(start.config) && (forall isIP: string -> bool :: LegalRun(d, start, isIP, ops))
            && ok && Assigned(small.prefs, PrefixNo(k)).None?
            && Receive(end.config, nb, PrefixNo(k), pref) == Accepted(300)
  {
    var big, small := NeighborTierUpdate(nb, ManyPrefs(n, 300)), NeighborTierUpdate(nb, ManyPrefs(m, 300));
    EmptyIsGood(start);
    ManyAcceptable(nb, n);
    ManyAcceptable(nb, m);
    PrefixNoLegal(k);
    ManyUnlisted(m, k);
    StaleRunOf(d, start, big, small, fault, fault', k, pref);
  }

  lemma StaleRunOf(d: Dialect, start: World, big: NeighborTierUpdate, small: NeighborTierUpdate, fault: nat,
                   fault': nat, k: nat, pref: int)
    requires Good(start) && start.counts == map[] && Acceptable(big) && Acceptable(small)
    requires |small.prefs| <= MIN_SLOTS <= k < |big.prefs| && small.neighbor == big.neighbor
    requires forall i | 0 <= i < k :: big.prefs[i].prefix != big.prefs[k].prefix
    requires Assigned(small.prefs, big.prefs[k].prefix).None? && big.prefs[k].prefix != NEVER_CIDR
    requires Undisturbed(big, fault) && Undisturbed(small, fault')
    ensures var ops := [Update(big, fault), Restarted];
            var (end, ok) := SetTiers(d, Execute(d, start, ops), small, fault');
            && (forall isIP: string -> bool :: LegalRun(d, start, isIP, ops))
            && ok && Receive(end.config, small.neighbor, big.prefs[k].prefix, pref) == Accepted(big.prefs[k].localPref)
  {
    BothSucceed(d, start, big, small, fault, fault');
    StaleAfterRestart(d, start, big, small, fault, fault', k, pref);
    TwoSteps(d, start, Update(big, fault), Restarted);
  }

  /** How many slots an update gets from a daemon without counts. */
  function FreshSlots(u: NeighborTierUpdate): nat {
    if |u.prefs| < MIN_SLOTS then MIN_SLOTS else |u.prefs|
  }

  /** The session lives through the whole script of an update whose daemon has no counts. */
  ghost predicate Undisturbed(u: NeighborTierUpdate, fault: nat) {
    fault >= |TierScript(u, FreshSlots(u))|
  }

  ghost predicate Acceptable(u: NeighborTierUpdate) {
    LegalUpdate(u) && u.prefs != [] && Fits(u, FreshSlots(u))
  }

  lemma ManyAcceptable(nb: string, n: nat)
    requires IsIPv4(nb) && 1 <= n <= 256
    ensures Acceptable(NeighborTierUpdate(nb, ManyPrefs(n, 300)))
    ensures forall i, j | 0 <= i < j < n :: PrefixNo(i) != PrefixNo(j)
  {
    ManyLegal(nb, n, 300);
  }

  lemma ManyUnlisted(m: nat, k: nat)
    requires m <= k < 256
    ensures Assigned(ManyPrefs(m, 300), PrefixNo(k)).None?
  {
    forall i | 0 <= i < m ensures PrefixNo(i) != PrefixNo(k) {
      if PrefixNo(i) == PrefixNo(k) {
        PrefixNoInjective(i, k);
      }
    }
    Unlisted(ManyPrefs(m, 300), PrefixNo(k));
  }

  lemma BothSucceed(d: Dialect, start: World, big: NeighborTierUpdate, small: NeighborTierUpdate, fault: nat, fault': nat)
    requires Good(start) && start.counts == map[] && Acceptable(big) && Acceptable(small)
    requires Undisturbed(big, fault) && Undisturbed(small, fault')
    ensures SetTiers(d, start, big, fault).1
    ensures SetTiers(d, World(SetTiers(d, start, big, fault).0.config, map[]), small, fault').1
  {
    GoodIsSound(start);
    FreshSucceeds(d, start, big, fault);
    FreshSucceeds(d, World(SetTiers(d, start, big, fault).0.config, map[]), small, fault');
  }

  lemma Unlisted(prefs: seq<PrefixPref>, prefix: string)
    requires forall i | 0 <= i < |prefs| :: prefs[i].prefix != prefix
    ensures Assigned(prefs, prefix).None?
  {
    var j := FirstMention(prefs, prefix, 0);
    assert prefs[0..] == prefs;
  }

  /** Without counts an update within the limits succeeds, and the daemon may then lose its counts again. */
  lemma FreshSucceeds(d: Dialect, w: World, u: NeighborTierUpdate, fault: nat)
    requires Sound(w) && w.counts == map[] && Acceptable(u) && Undisturbed(u, fault)
    ensures SetTiers(d, w, u, fault).1 && Sound(World(SetTiers(d, w, u, fault).0.config, map[]))
  {
    SetTiersListed(d, w, u, fault, "", 0);
    SetTiersSafe(d, w, u, fault);
    var after := SetTiers(d, w, u, fault).0;
    var counts :| Covers(counts, after);
    assert Covers(counts, World(after.config, map[]));
  }

  lemma TwoSteps(d: Dialect, w: World, op: Op, op': Op)
    ensures Execute(d, w, [op, op']) == Apply(d, Apply(d, w, op), op')
    ensures forall isIP: string -> bool :: Legal(w, isIP, op) && Legal(Apply(d, w, op), isIP, op') ==>
              LegalRun(d, w, isIP, [op, op'])
  {
    var w' := Apply(d, w, op);
    assert [op, op'][1..] == [op'] && [op'][1..] == [];
    assert Execute(d, w', [op']) == Execute(d, Apply(d, w', op'), []);
    forall isIP: string -> bool | Legal(w, isIP, op) && Legal(w', isIP, op') ensures LegalRun(d, w, isIP, [op, op']) {
      assert LegalRun(d, Apply(d, w', op'), isIP, []);
      assert LegalRun(d, w', isIP, [op']);
    }
  }

  // ---------- a normalization that frees something in use

  /** An owned map that a peer-group applies: the parser finds no binding, and the script deletes it in use. */
  lemma PeerGroupHazard(d: Dialect, isIP: string -> bool)
    requires !isIP("UPSTREAMS")
    ensures var name := MAP_PREFIX + "UPSTREAMS";
            var config := Config(map[], map[name := map[MAX_SEQ := Clause(true, None, None)]],
                                 map["UPSTREAMS" := name], map[]);
            && Extracted(config, isIP, [], [name], [])
            && !HazardFree(d, Session(config, Enable), NormalizeScript([], [name], []))
  {
    PeerGroupHazardOf(d, isIP, "UPSTREAMS", MAP_PREFIX + "UPSTREAMS");
  }

  lemma PeerGroupHazardOf(d: Dialect, isIP: string -> bool, group: string, name: string)
    requires !isIP(group) && OwnedMap(name)
    ensures var config := Config(map[], map[name := map[MAX_SEQ := Clause(true, None, None)]], map[group := name], map[]);
            && Extracted(config, isIP, [], [name], [])
            && !HazardFree(d, Session(config, Enable), NormalizeScript([], [name], []))
  {
    var config := Config(map[], map[name := map[MAX_SEQ := Clause(true, None, None)]], map[group := name], map[]);
    NormalizeHazards(d, config, isIP, [], [name], []);
    assert group in config.inbound && config.inbound[group] in [name];
  }
}
