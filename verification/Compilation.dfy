/**
 * What the compiled scripts mean: a finished update gives exactly its local-preferences, an
 * unfinished one denies nothing and disturbs no other neighbour, and nothing in use is freed.
 */
module Compilation {
  import opened Options
  import opened Addresses
  import opened Names
  import opened Router
  import opened Actuate
  import opened Invariant
  import opened TierScripts

  /** The daemon's own slot counts bound the slots of every owned map. */
  ghost predicate Good(w: World) {
    Inv(w.config, w.counts)
  }

  /** These counts do, and the daemon's, perhaps lost with an earlier process, are no larger. */
  ghost predicate Covers(counts: SlotCounts, w: World) {
    Inv(w.config, counts) && forall name | name in w.counts :: name in counts && w.counts[name] <= counts[name]
  }

  /** Some counts bound the slots: what is true of a router even when the daemon was restarted. */
  ghost predicate Sound(w: World) {
    exists counts: SlotCounts :: Covers(counts, w)
  }

  /** What is true of the router at all times, by whether the daemon knows its slot counts. */
  ghost predicate Kept(w: World, knows: bool) {
    Sound(w) && (knows ==> Good(w))
  }

  lemma GoodIsSound(w: World)
    requires Good(w)
    ensures Sound(w)
  {
    assert Covers(w.counts, w);
  }

  lemma GrowKeeps(config: Config, counts: SlotCounts, name: string, n: nat)
    requires Inv(config, counts) && (name in counts ==> counts[name] <= n)
    ensures Inv(config, counts[name := n])
  {
    forall m | m in config.maps && OwnedMap(m)
      ensures OwnedClauses(config.lists, config.maps[m], counts[name := n][m])
    {
    }
  }

  /** The script a call sends, in the world in which it is sent. */
  function SlotsOf(w: World, u: NeighborTierUpdate): nat {
    Slots(w.counts, MapName(u.neighbor), |u.prefs|)
  }

  // ---------- safety at every command boundary

  /** The counts that cover the router while and after the update is sent. */
  function Raised(counts: SlotCounts, w: World, u: NeighborTierUpdate): (r: SlotCounts)
    ensures MapName(u.neighbor) in r && r[MapName(u.neighbor)] >= SlotsOf(w, u)
    ensures forall name | name in counts :: name in r && counts[name] <= r[name]
  {
    var name, slots := MapName(u.neighbor), SlotsOf(w, u);
    counts[name := if name in counts && counts[name] > slots then counts[name] else slots]
  }

  lemma SetTiersCovers(d: Dialect, counts: SlotCounts, w: World, u: NeighborTierUpdate, fault: nat)
    requires Covers(counts, w) && LegalUpdate(u) && u.prefs != []
    ensures Inv(w.config, Raised(counts, w, u)) && Covers(Raised(counts, w, u), SetTiers(d, w, u, fault).0)
    ensures Disciplined(d, Raised(counts, w, u), Session(w.config, Enable), TierScript(u, SlotsOf(w, u)))
    ensures HazardFree(d, Session(w.config, Enable), TierScript(u, SlotsOf(w, u)))
  {
    var name, raised := MapName(u.neighbor), Raised(counts, w, u);
    GrowKeeps(w.config, counts, name, raised[name]);
    TierScriptRun(d, raised, w.config, u, SlotsOf(w, u));
    DisciplinedKeeps(d, raised, Session(w.config, Enable), TierScript(u, SlotsOf(w, u)));
    VtyshKeeps(d, raised, w.config, TierScript(u, SlotsOf(w, u)), fault);
  }

  /**
   * Wherever the session dies, the invariant survives, with lost counts too; and no command of the script
   * frees a bound route-map or a referenced prefix-list. Every command boundary is the end of such a session.
   */
  lemma SetTiersSafe(d: Dialect, w: World, u: NeighborTierUpdate, fault: nat)
    requires Sound(w) && LegalUpdate(u)
    ensures Sound(SetTiers(d, w, u, fault).0)
    ensures Good(w) ==> Good(SetTiers(d, w, u, fault).0)
    ensures u.prefs != [] ==> HazardFree(d, Session(w.config, Enable), TierScript(u, SlotsOf(w, u)))
  {
    if u.prefs == [] {
    } else {
      var counts :| Covers(counts, w);
      SetTiersCovers(d, counts, w, u, fault);
      if Good(w) {
        SetTiersCovers(d, w.counts, w, u, fault);
        assert Raised(w.counts, w, u) == w.counts[MapName(u.neighbor) := SlotsOf(w, u)];
      }
    }
  }

  /** What the complete removal script leaves behind. */
  function Removed(d: Dialect, config: Config, nb: string): Config {
    config.(inbound := Detached(d, config.inbound, nb, MapName(nb)), maps := config.maps - {MapName(nb)})
  }

  lemma RemoveScriptRun(d: Dialect, counts: SlotCounts, config: Config, nb: string)
    requires Inv(config, counts) && IsIPv4(nb)
    ensures Disciplined(d, counts, Session(config, Enable), RemoveScript(nb))
    ensures Run(d, Session(config, Enable), RemoveScript(nb)) == Outcome(Session(Removed(d, config, nb), Enable), true)
  {
    var name := MapName(nb);
    var rest3 := [Exit] + ([DeleteMap(name)] + [Exit]);
    var rest2 := [Unbind(nb, name)] + rest3;
    assert RemoveScript(nb) == [Configure] + ([RouterBgp] + rest2);
    RunCons(d, Session(config, Enable), Configure, [RouterBgp] + rest2);
    DisciplinedCons(d, counts, Session(config, Enable), Configure, [RouterBgp] + rest2);
    RunCons(d, Session(config, Top), RouterBgp, rest2);
    DisciplinedCons(d, counts, Session(config, Top), RouterBgp, rest2);
    RunCons(d, Session(config, InBgp), Unbind(nb, name), rest3);
    DisciplinedCons(d, counts, Session(config, InBgp), Unbind(nb, name), rest3);
    var c := config.(inbound := Detached(d, config.inbound, nb, name));
    DetachedUnbound(d, counts, config, nb);
    DeleteEndRun(d, counts, c, name);
  }

  /** After its own neighbour's detach nothing applies the map: no other neighbour has this name. */
  lemma DetachedUnbound(d: Dialect, counts: SlotCounts, config: Config, nb: string)
    requires Inv(config, counts) && IsIPv4(nb)
    ensures OwnedMap(MapName(nb))
    ensures !config.(inbound := Detached(d, config.inbound, nb, MapName(nb))).Bound(MapName(nb))
  {
    Ownership(nb, "");
    forall other | other in config.inbound && config.inbound[other] == MapName(nb) ensures other == nb {
      MapNameInjective(other, nb);
    }
  }

  lemma DeleteEndRun(d: Dialect, counts: SlotCounts, config: Config, name: string)
    requires OwnedMap(name) && !config.Bound(name)
    ensures var script := [Exit] + ([DeleteMap(name)] + [Exit]);
            && Disciplined(d, counts, Session(config, InBgp), script)
            && Run(d, Session(config, InBgp), script) ==
                 Outcome(Session(config.(maps := config.maps - {name}), Enable), true)
  {
    var rest := [DeleteMap(name)] + [Exit];
    RunCons(d, Session(config, InBgp), Exit, rest);
    DisciplinedCons(d, counts, Session(config, InBgp), Exit, rest);
    RunCons(d, Session(config, Top), DeleteMap(name), [Exit]);
    DisciplinedCons(d, counts, Session(config, Top), DeleteMap(name), [Exit]);
    var e := config.(maps := config.maps - {name});
    assert Run(d, Session(e, Top), [Exit]) == Run(d, Session(e, Enable), []);
  }

  lemma RemoveTiersSafe(d: Dialect, w: World, nb: string, fault: nat)
    requires Sound(w) && IsIPv4(nb)
    ensures Sound(RemoveTiers(d, w, nb, fault).0)
    ensures Good(w) ==> Good(RemoveTiers(d, w, nb, fault).0)
    ensures HazardFree(d, Session(w.config, Enable), RemoveScript(nb))
  {
    var counts :| Covers(counts, w);
    RemoveTiersCovers(d, counts, w, nb, fault);
    if Good(w) {
      RemoveTiersCovers(d, w.counts, w, nb, fault);
    }
  }

  lemma RemoveTiersCovers(d: Dialect, counts: SlotCounts, w: World, nb: string, fault: nat)
    requires Covers(counts, w) && IsIPv4(nb)
    ensures Covers(counts, RemoveTiers(d, w, nb, fault).0)
    ensures Disciplined(d, counts, Session(w.config, Enable), RemoveScript(nb))
    ensures HazardFree(d, Session(w.config, Enable), RemoveScript(nb))
  {
    RemoveScriptRun(d, counts, w.config, nb);
    DisciplinedKeeps(d, counts, Session(w.config, Enable), RemoveScript(nb));
    VtyshKeeps(d, counts, w.config, RemoveScript(nb), fault);
  }

  /**
   * A removal succeeds exactly when its session lives through the six commands. Its map is then gone, its own
   * binding too, so that every route of the neighbour passes as it came, and nothing else has changed.
   */
  lemma RemovalMeaning(d: Dialect, w: World, nb: string, fault: nat, prefix: string, pref: int)
    requires Sound(w) && IsIPv4(nb) && (nb in w.config.inbound ==> w.config.inbound[nb] == MapName(nb))
    ensures var r := RemoveTiers(d, w, nb, fault);
            && (r.1 <==> fault >= 6) && r.0.counts == w.counts
            && (r.1 ==> r.0.config == w.config.(maps := w.config.maps - {MapName(nb)}, inbound := w.config.inbound - {nb})
                        && Receive(r.0.config, nb, prefix, pref) == Accepted(pref))
  {
    var counts :| Covers(counts, w);
    RemoveScriptRun(d, counts, w.config, nb);
  }

  // ---------- the meaning of a finished update

  /** The local-preference an update assigns to a prefix: its first mention counts. */
  function Assigned(prefs: seq<PrefixPref>, prefix: string): Option<int> {
    if prefs == [] then None
    else if prefs[0].prefix == prefix then Some(prefs[0].localPref)
    else Assigned(prefs[1..], prefix)
  }

  /** The first position from k on that mentions the prefix. */
  lemma {:induction false} FirstMention(prefs: seq<PrefixPref>, prefix: string, k: nat) returns (j: nat)
    requires k <= |prefs|
    ensures k <= j <= |prefs| && forall i | k <= i < j :: prefs[i].prefix != prefix
    ensures if j == |prefs| then Assigned(prefs[k..], prefix) == None
            else prefs[j].prefix == prefix && Assigned(prefs[k..], prefix) == Some(prefs[j].localPref)
    decreases |prefs| - k
  {
    if k == |prefs| || prefs[k].prefix == prefix {
      j := k;
    } else {
      assert prefs[k..][1..] == prefs[k + 1..];
      j := FirstMention(prefs, prefix, k + 1);
    }
  }

  lemma SlotGuards(lists: map<string, map<nat, string>>, clause: Clause, prefs: seq<PrefixPref>, k: nat, prefix: string)
    requires ListsOk(lists) && Ready(lists, prefs) && CidrPrefs(prefs) && SlotWritten(clause, prefs, k)
    ensures Guards(lists, clause, prefix) <==> prefix == if k < |prefs| then prefs[k].prefix else NEVER_CIDR
  {
    var only := if k < |prefs| then prefs[k].prefix else NEVER_CIDR;
    var list := clause.guard.value;
    assert lists[list] == map[LIST_SEQ := only];
    assert LIST_SEQ in lists[list];
  }

  /** Evaluation reaches the prefix's own slot, or passes all slots when it has none. */
  lemma SlotsPassed(
      config: Config, counts: SlotCounts, before: Config, u: NeighborTierUpdate, slots: nat, prefix: string, pref: int)
    requires Inv(config, counts) && LegalUpdate(u) && |u.prefs| <= slots <= MAX_SLOTS && MapName(u.neighbor) in counts
    requires Installed(before, config, u, slots)
    requires Assigned(u.prefs, prefix).Some? || prefix != NEVER_CIDR
    ensures Receive(config, u.neighbor, prefix, pref) ==
              match Assigned(u.prefs, prefix)
              case Some(v) => Accepted(v)
              case None => Evaluate(config.lists, config.maps[MapName(u.neighbor)], SLOT_STEP * slots + 1, prefix, pref)
  {
    var lists, clauses := config.lists, config.maps[MapName(u.neighbor)];
    Ownership(u.neighbor, "");
    var j := FirstMention(u.prefs, prefix, 0);
    assert u.prefs[0..] == u.prefs;
    var target := if j < |u.prefs| then SlotSeq(j) else SLOT_STEP * slots + 1;
    forall q | q in clauses && 1 <= q < target ensures !Guards(lists, clauses[q], prefix) {
      assert IsSlot(q, counts[MapName(u.neighbor)]);
      var k := SlotIndex(q, slots);
      SlotGuards(lists, clauses[q], u.prefs, k, prefix);
    }
    EvaluateSkips(lists, clauses, 1, target, prefix, pref);
    if j < |u.prefs| {
      SlotGuards(lists, clauses[target], u.prefs, j, prefix);
    }
  }

  /** The clauses of a finished update, and nothing else, evaluate to the update's assignment. */
  lemma InstalledMeaning(
      config: Config, counts: SlotCounts, before: Config, u: NeighborTierUpdate, slots: nat, prefix: string, pref: int)
    requires Inv(config, counts) && LegalUpdate(u) && |u.prefs| <= slots <= MAX_SLOTS
    requires MapName(u.neighbor) in counts && counts[MapName(u.neighbor)] == slots
    requires Installed(before, config, u, slots)
    requires Assigned(u.prefs, prefix).Some? || prefix != NEVER_CIDR
    ensures Receive(config, u.neighbor, prefix, pref) == Accepted(Assigned(u.prefs, prefix).GetOr(pref))
  {
    SlotsPassed(config, counts, before, u, slots, prefix, pref);
    Ownership(u.neighbor, "");
    EvaluateSkips(config.lists, config.maps[MapName(u.neighbor)], SLOT_STEP * slots + 1, MAX_SEQ, prefix, pref);
  }

  lemma SlotIndex(q: nat, n: nat) returns (k: nat)
    requires IsSlot(q, n)
    ensures k < n && q == SlotSeq(k)
  {
    k := q / SLOT_STEP - 1;
  }

  /**
   * Compiler correctness. Whatever earlier updates, removals and aborted sessions left behind, the
   * update succeeds exactly when vtysh survives and FRR accepts its numbers, and then the neighbour's
   * routes get exactly the local-preferences it lists; all other routes pass unchanged.
   */
  lemma SetTiersMeaning(d: Dialect, w: World, u: NeighborTierUpdate, fault: nat, prefix: string, pref: int)
    requires Good(w) && LegalUpdate(u) && u.prefs != []
    ensures var r := SetTiers(d, w, u, fault);
            && (r.1 <==> fault >= |TierScript(u, SlotsOf(w, u))| && Fits(u, SlotsOf(w, u)))
            && (r.1 ==> u.neighbor in r.0.config.inbound && r.0.config.inbound[u.neighbor] == MapName(u.neighbor))
            && (r.1 && (Assigned(u.prefs, prefix).Some? || prefix != NEVER_CIDR) ==>
                  Receive(r.0.config, u.neighbor, prefix, pref) == Accepted(Assigned(u.prefs, prefix).GetOr(pref)))
  {
    var name, slots := MapName(u.neighbor), SlotsOf(w, u);
    var counts := w.counts[name := slots];
    GrowKeeps(w.config, w.counts, name, slots);
    TierScriptRun(d, counts, w.config, u, slots);
    GoodIsSound(w);
    SetTiersSafe(d, w, u, fault);
    var r := SetTiers(d, w, u, fault);
    if r.1 && (Assigned(u.prefs, prefix).Some? || prefix != NEVER_CIDR) {
      InstalledMeaning(r.0.config, counts, w.config, u, slots, prefix, pref);
    }
  }

  /** When it succeeds does not depend on what the daemon forgot; nor do the prefixes that it lists. */
  lemma SetTiersListed(d: Dialect, w: World, u: NeighborTierUpdate, fault: nat, prefix: string, pref: int)
    requires Sound(w) && LegalUpdate(u) && u.prefs != []
    ensures var r := SetTiers(d, w, u, fault);
            && (r.1 <==> fault >= |TierScript(u, SlotsOf(w, u))| && Fits(u, SlotsOf(w, u)))
            && (r.1 ==> u.neighbor in r.0.config.inbound && r.0.config.inbound[u.neighbor] == MapName(u.neighbor))
            && (r.1 && Assigned(u.prefs, prefix).Some? ==>
                  Receive(r.0.config, u.neighbor, prefix, pref) == Accepted(Assigned(u.prefs, prefix).value))
  {
    var counts :| Covers(counts, w);
    var raised, slots := Raised(counts, w, u), SlotsOf(w, u);
    SetTiersCovers(d, counts, w, u, fault);
    TierScriptRun(d, raised, w.config, u, slots);
    var r := SetTiers(d, w, u, fault);
    if r.1 && Assigned(u.prefs, prefix).Some? {
      SlotsPassed(r.0.config, raised, w.config, u, slots, prefix, pref);
    }
  }
}
