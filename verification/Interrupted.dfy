/**
 * What an update that died leaves for its own neighbour (internal/actuate/actuate.go). The rewrite is one vtysh
 * session but not one step: a slot can already match the new prefix and still carry the old local-preference.
 */
module Interrupted {
  import opened Options
  import opened Addresses
  import opened Names
  import opened Router
  import opened Actuate
  import opened Invariant
  import opened TierScripts
  import opened Compilation
  import opened Isolation

  // ---------- where local-preferences can come from

  function PrefsIn(clauses: Clauses): set<int> {
    set q | q in clauses && clauses[q].pref.Some? :: clauses[q].pref.value
  }

  function PrefsListed(prefs: seq<PrefixPref>): set<int> {
    set i | 0 <= i < |prefs| :: prefs[i].localPref
  }

  ghost predicate PrefsWithin(clauses: Clauses, from: set<int>) {
    forall q | q in clauses && clauses[q].pref.Some? :: clauses[q].pref.value in from
  }

  /** The script sets no local-preference from elsewhere, and binds its own map to its own neighbour, if anything. */
  ghost predicate Writes(script: seq<Command>, nb: string, from: set<int>) {
    forall c | c in script ::
      (c.SetPref? ==> c.pref in from) && (c.Bind? ==> c == Bind(nb, MapName(nb))) && !c.Unbind?
  }

  lemma {:induction false} ListDeclsWrite(prefs: seq<PrefixPref>, n: nat, nb: string, from: set<int>)
    requires n <= |prefs|
    ensures Writes(ListDecls(prefs, n), nb, from)
  {
    if n == 0 {
    } else {
      ListDeclsWrite(prefs, n - 1, nb, from);
    }
  }

  lemma {:induction false} SlotBlocksWrite(prefs: seq<PrefixPref>, n: nat, name: string, nb: string)
    ensures Writes(SlotBlocks(name, prefs, n), nb, PrefsListed(prefs))
  {
    if n == 0 {
    } else {
      SlotBlocksWrite(prefs, n - 1, name, nb);
    }
  }

  lemma TierScriptWrites(u: NeighborTierUpdate, slots: nat)
    ensures Writes(TierScript(u, slots), u.neighbor, PrefsListed(u.prefs))
  {
    ListDeclsWrite(u.prefs, |u.prefs|, u.neighbor, PrefsListed(u.prefs));
    SlotBlocksWrite(u.prefs, slots, MapName(u.neighbor), u.neighbor);
  }

  lemma StepWithin(d: Dialect, s: Session, c: Command, name: string, from: set<int>)
    requires PrefsWithin(s.config.ClausesOf(name), from) && (c.SetPref? ==> c.pref in from) && Step(d, s, c).Some?
    ensures PrefsWithin(Step(d, s, c).value.config.ClausesOf(name), from)
  {
  }

  lemma {:induction false} RunWithin(d: Dialect, s: Session, script: seq<Command>, nb: string, name: string, from: set<int>)
    requires PrefsWithin(s.config.ClausesOf(name), from) && Writes(script, nb, from)
    ensures PrefsWithin(Run(d, s, script).session.config.ClausesOf(name), from)
    decreases |script|
  {
    if script == [] {
    } else {
      assert script[0] in script;
      match Step(d, s, script[0])
      case None =>
      case Some(t) =>
        StepWithin(d, s, script[0], name, from);
        RunWithin(d, t, script[1..], nb, name, from);
    }
  }

  lemma {:induction false} RunBinds(d: Dialect, s: Session, script: seq<Command>, nb: string, from: set<int>)
    requires Writes(script, nb, from)
    ensures var after := Run(d, s, script).session.config.inbound;
            after == s.config.inbound || (nb in after && after[nb] == MapName(nb))
    decreases |script|
  {
    if script == [] {
    } else {
      assert script[0] in script;
      match Step(d, s, script[0])
      case None =>
      case Some(t) => RunBinds(d, t, script[1..], nb, from);
    }
  }

  lemma {:induction false} EvaluateWithin(
      lists: map<string, map<nat, string>>, clauses: Clauses, q: nat, prefix: string, pref: int, from: set<int>)
    requires PrefsWithin(clauses, from)
    ensures var verdict := Evaluate(lists, clauses, q, prefix, pref);
            verdict.Accepted? ==> verdict.pref == pref || verdict.pref in from
    decreases MAX_SEQ + 1 - q
  {
    if q > MAX_SEQ {
    } else {
      EvaluateWithin(lists, clauses, q + 1, prefix, pref, from);
    }
  }

  // ---------- the bound

  /** The local-preferences that the neighbour's map held before the update or that the update lists. */
  function OldOrListed(config: Config, u: NeighborTierUpdate): set<int> {
    PrefsIn(config.ClausesOf(MapName(u.neighbor))) + PrefsListed(u.prefs)
  }

  /**
   * Wherever the session of an update dies, a route of its neighbour is treated as before, or it is accepted
   * unchanged, or with a local-preference that the map held before or that the update lists.
   */
  lemma UnfinishedUpdate(d: Dialect, w: World, u: NeighborTierUpdate, fault: nat, prefix: string, pref: int)
    requires Sound(w) && LegalUpdate(u)
    ensures var verdict := Receive(SetTiers(d, w, u, fault).0.config, u.neighbor, prefix, pref);
            || verdict == Receive(w.config, u.neighbor, prefix, pref)
            || (verdict.Accepted? && (verdict.pref == pref || verdict.pref in OldOrListed(w.config, u)))
  {
    if u.prefs == [] {
    } else {
      var nb, name, after := u.neighbor, MapName(u.neighbor), SetTiers(d, w, u, fault).0;
      var counts :| Covers(counts, w);
      SetTiersCovers(d, counts, w, u, fault);
      UpdateWithin(d, w.config, u, SlotsOf(w, u), fault);
      if nb in after.config.inbound && after.config.inbound[nb] == name {
        Ownership(nb, "");
        NeverDenied(after.config, Raised(counts, w, u), nb, prefix, pref);
        EvaluateWithin(after.config.lists, after.config.ClausesOf(name), 1, prefix, pref, OldOrListed(w.config, u));
      } else {
        SetTouches(d, w, u, fault);
        ForeignSame(w.config, after.config, counts, nb, prefix, pref);
      }
    }
  }

  lemma UpdateWithin(d: Dialect, config: Config, u: NeighborTierUpdate, slots: nat, fault: nat)
    ensures var after := Vtysh(d, config, TierScript(u, slots), fault).0;
            && PrefsWithin(after.ClausesOf(MapName(u.neighbor)), OldOrListed(config, u))
            && (after.inbound == config.inbound ||
                (u.neighbor in after.inbound && after.inbound[u.neighbor] == MapName(u.neighbor)))
  {
    var script, name := TierScript(u, slots), MapName(u.neighbor);
    var sent := if fault >= |script| then script else script[..fault];
    TierScriptWrites(u, slots);
    assert Writes(sent, u.neighbor, OldOrListed(config, u));
    RunWithin(d, Session(config, Enable), sent, u.neighbor, name, OldOrListed(config, u));
    RunBinds(d, Session(config, Enable), sent, u.neighbor, OldOrListed(config, u));
  }

  /** A neighbour that is not bound to its own map sees nothing of an update of that map. */
  lemma ForeignSame(a: Config, b: Config, counts: SlotCounts, nb: string, prefix: string, pref: int)
    requires Inv(a, counts) && Touches(a, b, nb) && a.inbound == b.inbound
    requires nb in a.inbound ==> a.inbound[nb] != MapName(nb)
    ensures Receive(b, nb, prefix, pref) == Receive(a, nb, prefix, pref)
  {
    if nb in a.inbound {
      var name := a.inbound[nb];
      assert name in a.maps <==> name in (a.maps - {MapName(nb)});
      assert name in b.maps <==> name in (b.maps - {MapName(nb)});
      if name in a.maps {
        assert (a.maps - {MapName(nb)})[name] == (b.maps - {MapName(nb)})[name];
        GuardsKept(a, b, counts, nb, name, prefix);
        EvaluateCongruent(a.lists, b.lists, a.maps[name], b.maps[name], 1, prefix, pref);
      }
    }
  }

  // ---------- neither the old nor the new

  lemma {:induction false} FirstBlock(name: string, prefs: seq<PrefixPref>, n: nat)
    requires n >= 1
    ensures SlotBlock(name, prefs, 0) <= SlotBlocks(name, prefs, n)
  {
    if n == 1 {
      assert SlotBlocks(name, prefs, 0) == [];
    } else {
      FirstBlock(name, prefs, n - 1);
    }
  }

  /** The first commands of an update with one prefix, up to its first slot. */
  lemma ScriptStart(u: NeighborTierUpdate, slots: nat)
    requires |u.prefs| == 1 && slots >= 1
    ensures var enter, guard := EnterMap(MapName(u.neighbor), SLOT_STEP), MatchList(ScopeList(u.prefs[0].prefix));
            && |TierScript(u, slots)| > 5 && |TierHead(u.prefs)| == 3
            && TierScript(u, slots)[..4] == TierHead(u.prefs) + [enter]
            && TierScript(u, slots)[..5] == TierHead(u.prefs) + ([enter] + [guard])
  {
    var name, prefs := MapName(u.neighbor), u.prefs;
    assert ListDecls(prefs, 1) == ListDecls(prefs, 0) + ListDecl(prefs[0]);
    FirstBlock(name, prefs, slots);
    var blocks := SlotBlocks(name, prefs, slots);
    assert blocks[..4] == SlotBlock(name, prefs, 0);
    assert TierScript(u, slots)[3..7] == blocks[..4];
  }

  /** The first slot of the neighbour's bound map belongs to p and carries v. */
  ghost predicate FirstSlot(config: Config, nb: string, p: string, v: int) {
    && nb in config.inbound && config.inbound[nb] == MapName(nb) && MapName(nb) in config.maps
    && SLOT_STEP in config.maps[MapName(nb)]
    && config.maps[MapName(nb)][SLOT_STEP] == Clause(true, Some(ScopeList(p)), Some(v))
  }

  /** In a map under the invariant the first slot decides what it applies to. */
  lemma FirstSlotDecides(config: Config, counts: SlotCounts, nb: string, prefix: string, pref: int)
    requires Inv(config, counts) && nb in config.inbound && config.inbound[nb] == MapName(nb)
    requires MapName(nb) in config.maps && SLOT_STEP in config.maps[MapName(nb)]
    requires Guards(config.lists, config.maps[MapName(nb)][SLOT_STEP], prefix)
    ensures Receive(config, nb, prefix, pref) == Accepted(config.maps[MapName(nb)][SLOT_STEP].pref.GetOr(pref))
  {
    Ownership(nb, "");
    EvaluateSkips(config.lists, config.maps[MapName(nb)], 1, SLOT_STEP, prefix, pref);
  }

  /** A session that dies in the first slot, after its `match` or, at `fault` 4, before it. */
  lemma FirstSlotHalf(d: Dialect, w: World, u: NeighborTierUpdate, p: string, v: int, fault: nat)
    requires Sound(w) && LegalUpdate(u) && |u.prefs| == 1 && 4 <= fault <= 5
    requires FirstSlot(w.config, u.neighbor, p, v)
    ensures var config, nb := SetTiers(d, w, u, fault).0.config, u.neighbor;
            && nb in config.inbound && config.inbound[nb] == MapName(nb) && ScopeList(u.prefs[0].prefix) in config.lists
            && MapName(nb) in config.maps && SLOT_STEP in config.maps[MapName(nb)]
            && config.maps[MapName(nb)][SLOT_STEP] ==
               Clause(true,
                      if fault == 5 then Some(ScopeList(u.prefs[0].prefix))
                      else if d.redeclareClears then None else Some(ScopeList(p)),
                      if d.redeclareClears then None else Some(v))
  {
    var counts :| Covers(counts, w);
    var lists := StartRun(d, counts, w.config, u, SlotsOf(w, u), fault);
    ScriptStart(u, SlotsOf(w, u));
  }

  /** What such a session leaves: its list declarations, and one rewritten clause. */
  lemma StartRun(d: Dialect, counts: SlotCounts, config: Config, u: NeighborTierUpdate, slots: nat, fault: nat)
      returns (lists: map<string, map<nat, string>>)
    requires Inv(config, counts) && LegalUpdate(u) && |u.prefs| == 1 && slots >= 1 && 4 <= fault <= 5
    ensures ScopeList(u.prefs[0].prefix) in lists
    ensures var name, list := MapName(u.neighbor), ScopeList(u.prefs[0].prefix);
            var before := config.ClausesOf(name);
            var c := Entered(d, before, SLOT_STEP);
            Run(d, Session(config, Enable), TierScript(u, slots)[..fault]).session.config ==
            WithClauses(config.(lists := lists), name,
                        before[SLOT_STEP := if fault == 5 then c.(guard := Some(list)) else c])
  {
    var name, list := MapName(u.neighbor), ScopeList(u.prefs[0].prefix);
    var s, head := Session(config, Enable), TierHead(u.prefs);
    ScriptStart(u, slots);
    TierHeadRun(d, counts, config, u.prefs);
    var t := Run(d, s, head).session;
    lists := t.config.lists;
    EnterMatch(d, t, name, list);
    if fault == 4 {
      RunAppend(d, s, head, [EnterMap(name, SLOT_STEP)]);
    } else {
      RunAppend(d, s, head, [EnterMap(name, SLOT_STEP)] + [MatchList(list)]);
    }
  }

  lemma EnterMatch(d: Dialect, t: Session, name: string, list: string)
    requires t.mode == Top
    ensures var before := t.config.ClausesOf(name);
            var c := Entered(d, before, SLOT_STEP);
            && Run(d, t, [EnterMap(name, SLOT_STEP)]) ==
               Outcome(Session(WithClauses(t.config, name, before[SLOT_STEP := c]), InMap(name, SLOT_STEP)), true)
            && Run(d, t, [EnterMap(name, SLOT_STEP)] + [MatchList(list)]) ==
               Outcome(Session(WithClauses(t.config, name, before[SLOT_STEP := c.(guard := Some(list))]),
                               InMap(name, SLOT_STEP)), true)
  {
    var before := t.config.ClausesOf(name);
    var c := Entered(d, before, SLOT_STEP);
    var u := Session(WithClauses(t.config, name, before[SLOT_STEP := c]), InMap(name, SLOT_STEP));
    RunCons(d, t, EnterMap(name, SLOT_STEP), [MatchList(list)]);
    RunCons(d, t, EnterMap(name, SLOT_STEP), []);
    assert [EnterMap(name, SLOT_STEP)] + [] == [EnterMap(name, SLOT_STEP)];
    AmendEntered(t.config, name, before, SLOT_STEP, c, c.(guard := Some(list)));
    RunCons(d, u, MatchList(list), []);
    assert [MatchList(list)] + [] == [MatchList(list)];
  }

  /**
   * Where re-declaring a sequence keeps its clauses: an update of q that dies between the `match` and the `set`
   * of its slot gives q the preference that the slot had for p.
   */
  lemma OldPreferenceForNewPrefix(d: Dialect, w: World, u: NeighborTierUpdate, p: string, v: int, pref: int)
    requires !d.redeclareClears && Sound(w) && LegalUpdate(u) && |u.prefs| == 1 && FirstSlot(w.config, u.neighbor, p, v)
    ensures Receive(SetTiers(d, w, u, 5).0.config, u.neighbor, u.prefs[0].prefix, pref) == Accepted(v)
  {
    var after := SetTiers(d, w, u, 5).0;
    FirstSlotHalf(d, w, u, p, v, 5);
    SetTiersSafe(d, w, u, 5);
    var counts :| Covers(counts, after);
    assert LIST_SEQ in after.config.lists[ScopeList(u.prefs[0].prefix)];
    FirstSlotDecides(after.config, counts, u.neighbor, u.prefs[0].prefix, pref);
  }

  /**
   * Where re-declaring clears them: an update that dies right after it entered its first slot lets every route
   * pass unchanged, also one whose preference should go from one value to another.
   */
  lemma NoPreferenceAtAll(d: Dialect, w: World, u: NeighborTierUpdate, p: string, v: int, prefix: string, pref: int)
    requires d.redeclareClears && Sound(w) && LegalUpdate(u) && |u.prefs| == 1 && FirstSlot(w.config, u.neighbor, p, v)
    ensures Receive(SetTiers(d, w, u, 4).0.config, u.neighbor, prefix, pref) == Accepted(pref)
  {
    var after := SetTiers(d, w, u, 4).0;
    FirstSlotHalf(d, w, u, p, v, 4);
    SetTiersSafe(d, w, u, 4);
    var counts :| Covers(counts, after);
    FirstSlotDecides(after.config, counts, u.neighbor, prefix, pref);
  }

  /** A finished update with one prefix has written its first slot. */
  lemma InstalledFirstSlot(d: Dialect, w: World, u: NeighborTierUpdate, fault: nat)
    requires Good(w) && LegalUpdate(u) && |u.prefs| == 1 && SetTiers(d, w, u, fault).1
    ensures Good(SetTiers(d, w, u, fault).0)
    ensures FirstSlot(SetTiers(d, w, u, fault).0.config, u.neighbor, u.prefs[0].prefix, u.prefs[0].localPref)
  {
    GoodIsSound(w);
    SetTiersSafe(d, w, u, fault);
    SetTiersCovers(d, w.counts, w, u, fault);
    TierScriptRun(d, Raised(w.counts, w, u), w.config, u, SlotsOf(w, u));
    assert SlotSeq(0) == SLOT_STEP;
  }

  /**
   * In every dialect some interrupted update is neither old nor new: after a finished update of p at v, an
   * update to v' (of another prefix q, or of p itself) can die so that its prefix gets neither what it got
   * before nor v'.
   */
  lemma NeitherOldNorNew(d: Dialect, w0: World, nb: string, p: string, q: string, v: int, v': int, fault0: nat, pref: int)
    requires Good(w0) && IsIPv4(nb) && IsCidr(p) && IsCidr(q) && p != q && p != NEVER_CIDR && q != NEVER_CIDR
    requires v != v' && v != pref && v' != pref && SetTiers(d, w0, NeighborTierUpdate(nb, [PrefixPref(p, v)]), fault0).1
    ensures var w := SetTiers(d, w0, NeighborTierUpdate(nb, [PrefixPref(p, v)]), fault0).0;
            var prefix, fault := if d.redeclareClears then p else q, if d.redeclareClears then 4 else 5;
            var u := NeighborTierUpdate(nb, [PrefixPref(prefix, v')]);
            var verdict := Receive(SetTiers(d, w, u, fault).0.config, nb, prefix, pref);
            verdict != Receive(w.config, nb, prefix, pref) && verdict != Accepted(v')
  {
    var u0 := NeighborTierUpdate(nb, [PrefixPref(p, v)]);
    var w := SetTiers(d, w0, u0, fault0).0;
    var prefix := if d.redeclareClears then p else q;
    var u := NeighborTierUpdate(nb, [PrefixPref(prefix, v')]);
    InstalledFirstSlot(d, w0, u0, fault0);
    GoodIsSound(w);
    SetTiersMeaning(d, w0, u0, fault0, prefix, pref);
    assert u0.prefs[1..] == [];
    if d.redeclareClears {
      NoPreferenceAtAll(d, w, u, p, v, prefix, pref);
    } else {
      OldPreferenceForNewPrefix(d, w, u, p, v, pref);
    }
  }
}
