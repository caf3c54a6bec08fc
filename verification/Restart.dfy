/**
 * A daemon that lost its slot counts. A process that starts over routers of an earlier one, and whose startup
 * normalization failed, runs on with empty counts (cmd/daemon/main.go): its updates rewrite only as many slots
 * as they need, and what the sequences above still say stays in force.
 */
module Restart {
  import opened Options
  import opened Addresses
  import opened Names
  import opened Router
  import opened Actuate
  import opened Invariant
  import opened TierScripts
  import opened Compilation
  import opened Isolation

  /** What is left of a route-map above the slots an update rewrites. */
  function Leftover(config: Config, name: string): Clauses {
    config.ClausesOf(name)[MAX_SEQ := Clause(true, None, None)]
  }

  function RestartVerdict(config: Config, u: NeighborTierUpdate, slots: nat, prefix: string, pref: int): Verdict {
    match Assigned(u.prefs, prefix)
    case Some(v) => Accepted(v)
    case None => Evaluate(config.lists, Leftover(config, MapName(u.neighbor)), SLOT_STEP * slots + 1, prefix, pref)
  }

  /**
   * Whatever counts were lost, a successful update gives the prefixes it lists exactly their preferences, and
   * any other prefix exactly what the sequences above the rewritten slots said before the call.
   */
  lemma RestartMeaning(d: Dialect, w: World, u: NeighborTierUpdate, fault: nat, prefix: string, pref: int)
    requires Sound(w) && LegalUpdate(u) && u.prefs != []
    requires Assigned(u.prefs, prefix).Some? || prefix != NEVER_CIDR
    ensures var r := SetTiers(d, w, u, fault);
            r.1 ==> Receive(r.0.config, u.neighbor, prefix, pref) ==
                    RestartVerdict(w.config, u, SlotsOf(w, u), prefix, pref)
  {
    if Assigned(u.prefs, prefix).Some? {
      SetTiersListed(d, w, u, fault, prefix, pref);
    } else {
      var counts :| Covers(counts, w);
      var raised, slots := Raised(counts, w, u), SlotsOf(w, u);
      SetTiersCovers(d, counts, w, u, fault);
      TierScriptRun(d, raised, w.config, u, slots);
      SetTouches(d, w, u, fault);
      var r := SetTiers(d, w, u, fault);
      if r.1 {
        LeftoverMeaning(w.config, r.0.config, raised, u, slots, prefix, pref);
      }
    }
  }

  lemma LeftoverMeaning(
      a: Config, b: Config, counts: SlotCounts, u: NeighborTierUpdate, slots: nat, prefix: string, pref: int)
    requires Inv(a, counts) && Inv(b, counts) && LegalUpdate(u) && |u.prefs| <= slots <= MAX_SLOTS
    requires prefix != NEVER_CIDR
    requires Installed(a, b, u, slots) && Touches(a, b, u.neighbor) && MapName(u.neighbor) in counts
    ensures Receive(b, u.neighbor, prefix, pref) == RestartVerdict(a, u, slots, prefix, pref)
  {
    SlotsPassed(b, counts, a, u, slots, prefix, pref);
    LeftoverKept(a, b, counts, u, slots, prefix, pref);
  }

  lemma LeftoverKept(
      a: Config, b: Config, counts: SlotCounts, u: NeighborTierUpdate, slots: nat, prefix: string, pref: int)
    requires Inv(a, counts) && Inv(b, counts) && slots <= MAX_SLOTS
    requires Installed(a, b, u, slots) && Touches(a, b, u.neighbor)
    ensures var last := SLOT_STEP * slots + 1;
            Evaluate(b.lists, b.maps[MapName(u.neighbor)], last, prefix, pref)
            == Evaluate(a.lists, Leftover(a, MapName(u.neighbor)), last, prefix, pref)
  {
    var name := MapName(u.neighbor);
    var clauses, left, last := b.maps[name], Leftover(a, name), SLOT_STEP * slots + 1;
    Ownership(u.neighbor, "");
    assert clauses[MAX_SEQ] == Clause(true, None, None);
    forall i | last <= i ensures (i in left <==> i in clauses) && (i in left ==> left[i] == clauses[i]) {
      assert !IsSlot(i, slots);
    }
    if name in a.maps {
      GuardsKept(a, b, counts, u.neighbor, name, prefix);
    }
    EvaluateCongruent(a.lists, b.lists, left, clauses, last, prefix, pref);
  }

  /** So a stale slot above the rewritten ones still decides: the map is not the update's. */
  lemma StaleSlotDecides(config: Config, name: string, slots: nat, q: nat, list: string, v: int, prefix: string, pref: int)
    requires SLOT_STEP * slots < q < MAX_SEQ && q in config.ClausesOf(name)
    requires config.maps[name][q] == Clause(true, Some(list), Some(v))
    requires list in config.lists && config.lists[list] == map[LIST_SEQ := prefix]
    requires forall i | SLOT_STEP * slots < i < q && i in config.ClausesOf(name) ::
               !Guards(config.lists, config.maps[name][i], prefix)
    ensures Evaluate(config.lists, Leftover(config, name), SLOT_STEP * slots + 1, prefix, pref) == Accepted(v)
  {
    EvaluateSkips(config.lists, Leftover(config, name), SLOT_STEP * slots + 1, q, prefix, pref);
    assert LIST_SEQ in config.lists[list];
  }

  // ---------- when a daemon with lost counts does deliver

  /** The first sequence from q on that applies to the prefix. */
  function FirstGuard(lists: map<string, map<nat, string>>, clauses: Clauses, q: nat, prefix: string): (r: Option<nat>)
    ensures r.Some? ==> r.value in clauses
    decreases MAX_SEQ + 1 - q
  {
    if q > MAX_SEQ then None
    else if q in clauses && Guards(lists, clauses[q], prefix) then Some(q)
    else FirstGuard(lists, clauses, q + 1, prefix)
  }

  /** The local-preference of the first sequence above the rewritten slots that applies to the prefix. */
  function StalePref(config: Config, name: string, slots: nat, prefix: string): Option<int> {
    match FirstGuard(config.lists, Leftover(config, name), SLOT_STEP * slots + 1, prefix)
    case None => None
    case Some(q) => Leftover(config, name)[q].pref
  }

  lemma {:induction false} EvaluateByFirst(
      lists: map<string, map<nat, string>>, clauses: Clauses, q: nat, prefix: string, pref: int)
    requires q <= MAX_SEQ && MAX_SEQ in clauses && clauses[MAX_SEQ].guard.None?
    requires forall i | i in clauses :: clauses[i].permit
    ensures var first := FirstGuard(lists, clauses, q, prefix);
            first.Some? && Evaluate(lists, clauses, q, prefix, pref) == Accepted(clauses[first.value].pref.GetOr(pref))
    decreases MAX_SEQ - q
  {
    if q in clauses && Guards(lists, clauses[q], prefix) {
    } else {
      EvaluateByFirst(lists, clauses, q + 1, prefix, pref);
    }
  }

  lemma LeftoverVerdict(config: Config, counts: SlotCounts, nb: string, slots: nat, prefix: string, pref: int)
    requires Inv(config, counts) && slots <= MAX_SLOTS
    ensures Evaluate(config.lists, Leftover(config, MapName(nb)), SLOT_STEP * slots + 1, prefix, pref) ==
            Accepted(StalePref(config, MapName(nb), slots, prefix).GetOr(pref))
  {
    Ownership(nb, "");
    EvaluateByFirst(config.lists, Leftover(config, MapName(nb)), SLOT_STEP * slots + 1, prefix, pref);
  }

  /** The neighbour's routes carry what the update assigns; all others pass unchanged, if `exact`. */
  ghost predicate Delivers(config: Config, u: NeighborTierUpdate, exact: bool) {
    forall prefix, pref | (exact && prefix != NEVER_CIDR) || Assigned(u.prefs, prefix).Some? ::
      Receive(config, u.neighbor, prefix, pref) == Accepted(Assigned(u.prefs, prefix).GetOr(pref))
  }

  /** No sequence above the rewritten slots sets a preference for a prefix that the update does not list. */
  ghost predicate NothingStale(w: World, u: NeighborTierUpdate) {
    forall prefix | prefix != NEVER_CIDR && Assigned(u.prefs, prefix).None? ::
      StalePref(w.config, MapName(u.neighbor), SlotsOf(w, u), prefix).None?
  }

  /** With lost counts a successful update delivers exactly if nothing stale was there before the call. */
  lemma DeliversIff(d: Dialect, w: World, u: NeighborTierUpdate, fault: nat)
    requires Sound(w) && LegalUpdate(u) && u.prefs != [] && SetTiers(d, w, u, fault).1
    ensures Delivers(SetTiers(d, w, u, fault).0.config, u, true) <==> NothingStale(w, u)
  {
    var config := SetTiers(d, w, u, fault).0.config;
    forall prefix, pref | prefix != NEVER_CIDR && Assigned(u.prefs, prefix).None?
      ensures Receive(config, u.neighbor, prefix, pref) ==
              Accepted(StalePref(w.config, MapName(u.neighbor), SlotsOf(w, u), prefix).GetOr(pref)) {
      UnlistedVerdict(d, w, u, fault, prefix, pref);
    }
    forall prefix, pref | Assigned(u.prefs, prefix).Some?
      ensures Receive(config, u.neighbor, prefix, pref) == Accepted(Assigned(u.prefs, prefix).value) {
      SetTiersListed(d, w, u, fault, prefix, pref);
    }
    if Delivers(config, u, true) {
      forall prefix | prefix != NEVER_CIDR && Assigned(u.prefs, prefix).None?
        ensures StalePref(w.config, MapName(u.neighbor), SlotsOf(w, u), prefix).None? {
        var stale := StalePref(w.config, MapName(u.neighbor), SlotsOf(w, u), prefix);
        var other := stale.GetOr(0) + 1;
        assert Receive(config, u.neighbor, prefix, other) == Accepted(stale.GetOr(other));
      }
    }
  }

  lemma UnlistedVerdict(d: Dialect, w: World, u: NeighborTierUpdate, fault: nat, prefix: string, pref: int)
    requires Sound(w) && LegalUpdate(u) && u.prefs != [] && SetTiers(d, w, u, fault).1
    requires prefix != NEVER_CIDR && Assigned(u.prefs, prefix).None?
    ensures Receive(SetTiers(d, w, u, fault).0.config, u.neighbor, prefix, pref) ==
            Accepted(StalePref(w.config, MapName(u.neighbor), SlotsOf(w, u), prefix).GetOr(pref))
  {
    RestartMeaning(d, w, u, fault, prefix, pref);
    WithinLimit(d, w, u, fault);
    StaleVerdict(w, u, SlotsOf(w, u), prefix, pref);
  }

  lemma WithinLimit(d: Dialect, w: World, u: NeighborTierUpdate, fault: nat)
    requires Sound(w) && LegalUpdate(u) && u.prefs != [] && SetTiers(d, w, u, fault).1
    ensures SlotsOf(w, u) <= MAX_SLOTS
  {
    SetTiersListed(d, w, u, fault, "", 0);
  }

  lemma StaleVerdict(w: World, u: NeighborTierUpdate, slots: nat, prefix: string, pref: int)
    requires Sound(w) && slots <= MAX_SLOTS && Assigned(u.prefs, prefix).None?
    ensures RestartVerdict(w.config, u, slots, prefix, pref) ==
            Accepted(StalePref(w.config, MapName(u.neighbor), slots, prefix).GetOr(pref))
  {
    var counts :| Covers(counts, w);
    LeftoverVerdict(w.config, counts, u.neighbor, slots, prefix, pref);
  }

  /** In particular an update of a daemon that kept its counts delivers, and one with lost counts what it lists. */
  lemma SetTiersDelivers(d: Dialect, w: World, u: NeighborTierUpdate, fault: nat)
    requires Sound(w) && LegalUpdate(u) && u.prefs != [] && SetTiers(d, w, u, fault).1
    ensures Delivers(SetTiers(d, w, u, fault).0.config, u, Good(w))
  {
    var config := SetTiers(d, w, u, fault).0.config;
    forall prefix, pref | (Good(w) && prefix != NEVER_CIDR) || Assigned(u.prefs, prefix).Some?
      ensures Receive(config, u.neighbor, prefix, pref) == Accepted(Assigned(u.prefs, prefix).GetOr(pref)) {
      if Good(w) {
        SetTiersMeaning(d, w, u, fault, prefix, pref);
      } else {
        SetTiersListed(d, w, u, fault, prefix, pref);
      }
    }
  }

  /** All cases of a successful update. */
  lemma UpdateVerdict(d: Dialect, w: World, u: NeighborTierUpdate, fault: nat, prefix: string, pref: int)
    requires Sound(w) && LegalUpdate(u) && u.prefs != [] && prefix != NEVER_CIDR && SetTiers(d, w, u, fault).1
    ensures var after := Receive(SetTiers(d, w, u, fault).0.config, u.neighbor, prefix, pref);
            var stale := StalePref(w.config, MapName(u.neighbor), SlotsOf(w, u), prefix);
            && after == Accepted(Assigned(u.prefs, prefix).GetOr(stale.GetOr(pref)))
            && (Good(w) ==> after == Accepted(Assigned(u.prefs, prefix).GetOr(pref)))
  {
    if Good(w) {
      SetTiersMeaning(d, w, u, fault, prefix, pref);
    }
    if Assigned(u.prefs, prefix).None? {
      UnlistedVerdict(d, w, u, fault, prefix, pref);
    } else {
      SetTiersListed(d, w, u, fault, prefix, pref);
    }
  }

  // ---------- it happens

  /**
   * An update with more prefixes than the minimum of slots, a restart that loses the counts, a small update:
   * every prefix beyond the minimum that the small update does not list keeps the preference of the big one.
   */
  lemma StaleAfterRestart(d: Dialect, w: World, big: NeighborTierUpdate, small: NeighborTierUpdate,
                          fault: nat, fault': nat, k: nat, pref: int)
    requires Good(w) && LegalUpdate(big) && LegalUpdate(small) && small.neighbor == big.neighbor
    requires 0 < |small.prefs| <= MIN_SLOTS <= k < |big.prefs|
    requires forall i | 0 <= i < k :: big.prefs[i].prefix != big.prefs[k].prefix
    requires Assigned(small.prefs, big.prefs[k].prefix).None? && big.prefs[k].prefix != NEVER_CIDR
    requires SetTiers(d, w, big, fault).1
    requires SetTiers(d, World(SetTiers(d, w, big, fault).0.config, map[]), small, fault').1
    ensures var restarted := World(SetTiers(d, w, big, fault).0.config, map[]);
            var after := SetTiers(d, restarted, small, fault').0.config;
            Receive(after, small.neighbor, big.prefs[k].prefix, pref) == Accepted(big.prefs[k].localPref)
  {
    var r := SetTiers(d, w, big, fault).0;
    var restarted, prefix := World(r.config, map[]), big.prefs[k].prefix;
    GoodIsSound(w);
    SetTiersSafe(d, w, big, fault);
    assert Covers(r.counts, restarted);
    RestartMeaning(d, restarted, small, fault', prefix, pref);
    SetTiersCovers(d, w.counts, w, big, fault);
    TierScriptRun(d, Raised(w.counts, w, big), w.config, big, SlotsOf(w, big));
    BigSlotDecides(w.config, r.config, r.counts, big, SlotsOf(w, big), MIN_SLOTS, k, pref);
  }

  /** In the map of a finished update the slots from `from` on evaluate to the first mention from there on. */
  lemma BigSlotDecides(a: Config, b: Config, counts: SlotCounts, u: NeighborTierUpdate, slots: nat, from: nat, k: nat,
                       pref: int)
    requires Inv(b, counts) && Installed(a, b, u, slots) && CidrPrefs(u.prefs) && from <= k < |u.prefs| <= slots <= MAX_SLOTS
    requires forall i | 0 <= i < k :: u.prefs[i].prefix != u.prefs[k].prefix
    requires MapName(u.neighbor) in counts && IsIPv4(u.neighbor)
    ensures Evaluate(b.lists, Leftover(b, MapName(u.neighbor)), SLOT_STEP * from + 1, u.prefs[k].prefix, pref) ==
            Accepted(u.prefs[k].localPref)
  {
    var name := MapName(u.neighbor);
    Ownership(u.neighbor, "");
    SlotsDecide(b.lists, Leftover(b, name), counts[name], u.prefs, slots, from, k, pref);
  }

  lemma SlotsDecide(lists: map<string, map<nat, string>>, clauses: Clauses, count: nat, prefs: seq<PrefixPref>,
                    slots: nat, from: nat, k: nat, pref: int)
    requires ListsOk(lists) && Ready(lists, prefs) && CidrPrefs(prefs) && from <= k < |prefs| <= slots <= MAX_SLOTS
    requires forall i | 0 <= i < k :: prefs[i].prefix != prefs[k].prefix
    requires forall q | q in clauses :: q == MAX_SEQ || IsSlot(q, count)
    requires forall i: nat | i < slots :: SlotSeq(i) in clauses && SlotWritten(clauses[SlotSeq(i)], prefs, i)
    ensures Evaluate(lists, clauses, SLOT_STEP * from + 1, prefs[k].prefix, pref) == Accepted(prefs[k].localPref)
  {
    forall q | SLOT_STEP * from + 1 <= q < SlotSeq(k) && q in clauses
      ensures !Guards(lists, clauses[q], prefs[k].prefix) {
      LowerSlotPasses(lists, clauses, count, prefs, slots, q, k);
    }
    EvaluateSkips(lists, clauses, SLOT_STEP * from + 1, SlotSeq(k), prefs[k].prefix, pref);
    OwnSlotDecides(lists, clauses, prefs, slots, k, pref);
  }

  lemma OwnSlotDecides(lists: map<string, map<nat, string>>, clauses: Clauses, prefs: seq<PrefixPref>, slots: nat,
                       k: nat, pref: int)
    requires ListsOk(lists) && Ready(lists, prefs) && CidrPrefs(prefs) && k < |prefs| <= slots <= MAX_SLOTS
    requires SlotSeq(k) in clauses && SlotWritten(clauses[SlotSeq(k)], prefs, k)
    ensures Evaluate(lists, clauses, SlotSeq(k), prefs[k].prefix, pref) == Accepted(prefs[k].localPref)
  {
    SlotGuards(lists, clauses[SlotSeq(k)], prefs, k, prefs[k].prefix);
  }

  lemma LowerSlotPasses(lists: map<string, map<nat, string>>, clauses: Clauses, count: nat, prefs: seq<PrefixPref>,
                        slots: nat, q: nat, k: nat)
    requires ListsOk(lists) && Ready(lists, prefs) && CidrPrefs(prefs) && k < |prefs| <= slots
    requires forall i | 0 <= i < k :: prefs[i].prefix != prefs[k].prefix
    requires q in clauses && IsSlot(q, count) && q < SlotSeq(k)
    requires forall i: nat | i < slots :: SlotSeq(i) in clauses && SlotWritten(clauses[SlotSeq(i)], prefs, i)
    ensures !Guards(lists, clauses[q], prefs[k].prefix)
  {
    var i := SlotIndex(q, count);
    SlotGuards(lists, clauses[q], prefs, i, prefs[k].prefix);
  }
}
