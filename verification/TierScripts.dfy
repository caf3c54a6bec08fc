/** SetNeighborTiers and RemoveNeighborTiers: disciplined scripts, and exactly what they leave behind. */
module TierScripts {
  import opened Options
  import opened Addresses
  import opened Names
  import opened Router
  import opened Actuate
  import opened Invariant

  predicate CidrPrefs(prefs: seq<PrefixPref>) {
    forall i | 0 <= i < |prefs| :: IsCidr(prefs[i].prefix)
  }

  predicate LegalUpdate(u: NeighborTierUpdate) {
    IsIPv4(u.neighbor) && CidrPrefs(u.prefs)
  }

  const MAX_SLOTS: nat := 6553

  /** The slot sequence numbers stay below the catch-all's, and the local-preferences are 32-bit. */
  predicate Fits(u: NeighborTierUpdate, slots: nat) {
    slots <= MAX_SLOTS && forall i | 0 <= i < |u.prefs| :: LegalPref(u.prefs[i].localPref)
  }

  // ---------- prefix-lists

  ghost predicate Declared(lists: map<string, map<nat, string>>, prefs: seq<PrefixPref>, n: nat)
    requires n <= |prefs|
  {
    forall i | 0 <= i < n :: ScopeList(prefs[i].prefix) in lists
  }

  /** Nothing but new list names appeared. */
  ghost predicate ListsExtend(a: Config, b: Config) {
    && b == a.(lists := b.lists)
    && forall list | list in a.lists :: list in b.lists
  }

  lemma DeclareRun(d: Dialect, counts: SlotCounts, s: Session, list: string, prefix: string)
    requires Inv(s.config, counts) && s.mode == Top
    requires (IsCidr(prefix) && list == ScopeList(prefix)) || (list == NEVER_LIST && prefix == NEVER_CIDR)
    ensures var script := [DeclareList(list, LIST_SEQ, prefix)];
            var r := Run(d, s, script);
            && Disciplined(d, counts, s, script)
            && r.ok && r.session.mode == Top && Inv(r.session.config, counts)
            && ListsExtend(s.config, r.session.config) && list in r.session.config.lists
  {
    var c := DeclareList(list, LIST_SEQ, prefix);
    StepKeeps(d, counts, s, c);
    var t := Step(d, s, c).value;
    assert Run(d, s, [c]) == Run(d, t, []);
  }

  /** After n declarations: back at the top level, the invariant kept, the n lists present. */
  ghost predicate DeclsDone(counts: SlotCounts, config: Config, t: Session, prefs: seq<PrefixPref>, n: nat)
    requires n <= |prefs|
  {
    t.mode == Top && Inv(t.config, counts) && ListsExtend(config, t.config) && Declared(t.config.lists, prefs, n)
  }

  lemma DeclareNext(d: Dialect, counts: SlotCounts, config: Config, t: Session, prefs: seq<PrefixPref>, n: nat)
    requires n < |prefs| && IsCidr(prefs[n].prefix) && DeclsDone(counts, config, t, prefs, n)
    ensures var r := Run(d, t, ListDecl(prefs[n]));
            Disciplined(d, counts, t, ListDecl(prefs[n])) && r.ok && DeclsDone(counts, config, r.session, prefs, n + 1)
  {
    DeclareRun(d, counts, t, ScopeList(prefs[n].prefix), prefs[n].prefix);
  }

  lemma {:induction false} ListDeclsRun(d: Dialect, counts: SlotCounts, s: Session, prefs: seq<PrefixPref>, n: nat)
    requires n <= |prefs| && CidrPrefs(prefs) && DeclsDone(counts, s.config, s, prefs, 0)
    ensures Disciplined(d, counts, s, ListDecls(prefs, n))
    ensures var r := Run(d, s, ListDecls(prefs, n)); r.ok && DeclsDone(counts, s.config, r.session, prefs, n)
  {
    if n == 0 {
    } else {
      ListDeclsRun(d, counts, s, prefs, n - 1);
      ListDeclsExtend(d, counts, s, prefs, n - 1);
    }
  }

  lemma ListDeclsExtend(d: Dialect, counts: SlotCounts, s: Session, prefs: seq<PrefixPref>, n: nat)
    requires n < |prefs| && CidrPrefs(prefs)
    requires Disciplined(d, counts, s, ListDecls(prefs, n))
    requires var r := Run(d, s, ListDecls(prefs, n)); r.ok && DeclsDone(counts, s.config, r.session, prefs, n)
    ensures Disciplined(d, counts, s, ListDecls(prefs, n + 1))
    ensures var r := Run(d, s, ListDecls(prefs, n + 1)); r.ok && DeclsDone(counts, s.config, r.session, prefs, n + 1)
  {
    var front, last := ListDecls(prefs, n), ListDecl(prefs[n]);
    DeclareNext(d, counts, s.config, Run(d, s, front).session, prefs, n);
    DisciplinedAppend(d, counts, s, front, last);
    RunAppend(d, s, front, last);
  }

  lemma TierHeadRun(d: Dialect, counts: SlotCounts, config: Config, prefs: seq<PrefixPref>)
    requires Inv(config, counts) && CidrPrefs(prefs)
    ensures Disciplined(d, counts, Session(config, Enable), TierHead(prefs))
    ensures var r := Run(d, Session(config, Enable), TierHead(prefs));
            && r.ok && r.session.mode == Top && Inv(r.session.config, counts)
            && ListsExtend(config, r.session.config)
            && Declared(r.session.config.lists, prefs, |prefs|) && NEVER_LIST in r.session.config.lists
  {
    var s, t := Session(config, Enable), Session(config, Top);
    var decls, never := ListDecls(prefs, |prefs|), [DeclareList(NEVER_LIST, LIST_SEQ, NEVER_CIDR)];
    ListDeclsRun(d, counts, t, prefs, |prefs|);
    DisciplinedAppend(d, counts, t, decls, never);
    RunAppend(d, t, decls, never);
    DeclareRun(d, counts, Run(d, t, decls).session, NEVER_LIST, NEVER_CIDR);
    assert TierHead(prefs) == [Configure] + (decls + never);
    RunCons(d, s, Configure, decls + never);
    DisciplinedCons(d, counts, s, Configure, decls + never);
  }

  // ---------- slots

  ghost predicate SlotWritten(clause: Clause, prefs: seq<PrefixPref>, k: nat) {
    && clause.permit
    && (if k < |prefs| then clause.guard == Some(ScopeList(prefs[k].prefix)) && clause.pref == Some(prefs[k].localPref)
        else clause.guard == Some(NEVER_LIST))
  }

  /** What one slot holds after its block, given what it held before. */
  function SlotClause(d: Dialect, before: Clauses, prefs: seq<PrefixPref>, k: nat): Clause {
    var entered := Entered(d, before, SlotSeq(k));
    if k < |prefs| then entered.(guard := Some(ScopeList(prefs[k].prefix)), pref := Some(prefs[k].localPref))
    else entered.(guard := Some(NEVER_LIST))
  }

  function WithClauses(config: Config, name: string, clauses: Clauses): Config {
    config.(maps := config.maps[name := clauses])
  }

  lemma AmendEntered(config: Config, name: string, before: Clauses, q: nat, c: Clause, c': Clause)
    ensures var s := Session(WithClauses(config, name, before[q := c]), InMap(name, q));
            InClause(s) && CurrentClause(s) == c
            && Amended(s, c') == Session(WithClauses(config, name, before[q := c']), InMap(name, q))
  {
    assert before[q := c][q := c'] == before[q := c'];
    assert config.maps[name := before[q := c]][name := before[q := c']] == config.maps[name := before[q := c']];
  }

  predicate SlotFits(prefs: seq<PrefixPref>, k: nat) {
    SlotSeq(k) <= MAX_SEQ && (k < |prefs| ==> LegalPref(prefs[k].localPref))
  }

  ghost predicate Ready(lists: map<string, map<nat, string>>, prefs: seq<PrefixPref>) {
    Declared(lists, prefs, |prefs|) && NEVER_LIST in lists
  }

  function SlotRest(prefs: seq<PrefixPref>, k: nat): seq<Command> {
    (if k < |prefs| then [SetPref(prefs[k].localPref)] else []) + [Exit]
  }

  function SlotList(prefs: seq<PrefixPref>, k: nat): string {
    if k < |prefs| then ScopeList(prefs[k].prefix) else NEVER_LIST
  }

  /** The block runs to its end unless FRR rejects its sequence number or its local-preference. */
  lemma SlotBlockRun(d: Dialect, counts: SlotCounts, s: Session, name: string, prefs: seq<PrefixPref>, k: nat)
    requires s.mode == Top
    ensures var r := Run(d, s, SlotBlock(name, prefs, k));
            && (r.ok <==> SlotFits(prefs, k))
            && (r.ok ==> var before := s.config.ClausesOf(name);
                  r.session == Session(WithClauses(s.config, name,
                                         before[SlotSeq(k) := SlotClause(d, before, prefs, k)]), Top))
    ensures OwnedMap(name) && name in counts && k < counts[name] && Ready(s.config.lists, prefs)
        ==> Disciplined(d, counts, s, SlotBlock(name, prefs, k))
  {
    var q, before, list := SlotSeq(k), s.config.ClausesOf(name), SlotList(prefs, k);
    var rest := SlotRest(prefs, k);
    Ownership("", if k < |prefs| then prefs[k].prefix else "");
    assert SlotBlock(name, prefs, k) == [EnterMap(name, q)] + ([MatchList(list)] + rest);
    RunCons(d, s, EnterMap(name, q), [MatchList(list)] + rest);
    DisciplinedCons(d, counts, s, EnterMap(name, q), [MatchList(list)] + rest);
    if q <= MAX_SEQ {
      SlotMatchRun(d, counts, s.config, name, prefs, k, before, Entered(d, before, q));
    }
  }

  lemma SlotMatchRun(
      d: Dialect, counts: SlotCounts, config: Config, name: string, prefs: seq<PrefixPref>, k: nat, before: Clauses, c: Clause)
    requires SlotSeq(k) <= MAX_SEQ
    ensures var s := Session(WithClauses(config, name, before[SlotSeq(k) := c]), InMap(name, SlotSeq(k)));
            var script := [MatchList(SlotList(prefs, k))] + SlotRest(prefs, k);
            var c' := c.(guard := Some(SlotList(prefs, k)));
            var r := Run(d, s, script);
            && (r.ok <==> k < |prefs| ==> LegalPref(prefs[k].localPref))
            && (r.ok ==> r.session == Session(WithClauses(config, name, before[SlotSeq(k) :=
                             if k < |prefs| then c'.(pref := Some(prefs[k].localPref)) else c']), Top))
            && (OwnedMap(name) && OwnedList(SlotList(prefs, k)) && SlotList(prefs, k) in config.lists ==>
                  Disciplined(d, counts, s, script))
  {
    var q, list := SlotSeq(k), SlotList(prefs, k);
    var s := Session(WithClauses(config, name, before[q := c]), InMap(name, q));
    var c' := c.(guard := Some(list));
    AmendEntered(config, name, before, q, c, c');
    RunCons(d, s, MatchList(list), SlotRest(prefs, k));
    DisciplinedCons(d, counts, s, MatchList(list), SlotRest(prefs, k));
    SlotEndRun(d, counts, config, name, prefs, k, before, c');
  }

  lemma SlotEndRun(
      d: Dialect, counts: SlotCounts, config: Config, name: string, prefs: seq<PrefixPref>, k: nat, before: Clauses, c: Clause)
    requires SlotSeq(k) <= MAX_SEQ
    ensures var s := Session(WithClauses(config, name, before[SlotSeq(k) := c]), InMap(name, SlotSeq(k)));
            var script := SlotRest(prefs, k);
            var r := Run(d, s, script);
            && (r.ok <==> k < |prefs| ==> LegalPref(prefs[k].localPref))
            && (r.ok ==> r.session == Session(WithClauses(config, name, before[SlotSeq(k) :=
                             if k < |prefs| then c.(pref := Some(prefs[k].localPref)) else c]), Top))
            && (OwnedMap(name) ==> Disciplined(d, counts, s, script))
  {
    var q := SlotSeq(k);
    var s := Session(WithClauses(config, name, before[q := c]), InMap(name, q));
    if k < |prefs| {
      var v := prefs[k].localPref;
      var c' := c.(pref := Some(v));
      AmendEntered(config, name, before, q, c, c');
      RunCons(d, s, SetPref(v), [Exit]);
      DisciplinedCons(d, counts, s, SetPref(v), [Exit]);
      ExitRun(d, counts, Session(WithClauses(config, name, before[q := c']), InMap(name, q)));
    } else {
      ExitRun(d, counts, s);
      assert [] + [Exit] == [Exit];
    }
  }

  lemma ExitRun(d: Dialect, counts: SlotCounts, s: Session)
    requires s.mode.InMap? || s.mode.InBgp?
    ensures Run(d, s, [Exit]) == Outcome(s.(mode := Top), true) && Disciplined(d, counts, s, [Exit])
  {
    assert Run(d, s, [Exit]) == Run(d, s.(mode := Top), []);
  }

  /** The map after n slots: those are rewritten, every other sequence is as it was. */
  ghost predicate Rewritten(before: Clauses, after: Clauses, prefs: seq<PrefixPref>, n: nat) {
    && (forall k: nat | k < n :: SlotSeq(k) in after && SlotWritten(after[SlotSeq(k)], prefs, k))
    && (forall q | q in after :: IsSlot(q, n) || (q in before && after[q] == before[q]))
    && (forall q | q in before && !IsSlot(q, n) :: q in after)
  }

  /** The only difference between the configurations is in one map, whose n slots were rewritten. */
  ghost predicate MapRewritten(a: Config, b: Config, name: string, prefs: seq<PrefixPref>, n: nat) {
    && b == a.(maps := b.maps)
    && b.maps - {name} == a.maps - {name}
    && Rewritten(a.ClausesOf(name), b.ClausesOf(name), prefs, n)
  }

  predicate SlotsFit(prefs: seq<PrefixPref>, n: nat) {
    n == 0 || (SlotsFit(prefs, n - 1) && SlotFits(prefs, n - 1))
  }

  ghost predicate BlocksDone(config: Config, t: Session, name: string, prefs: seq<PrefixPref>, n: nat) {
    t.mode == Top && Ready(t.config.lists, prefs) && MapRewritten(config, t.config, name, prefs, n)
  }

  lemma SlotBlockNext(
      d: Dialect, counts: SlotCounts, config: Config, t: Session, name: string, prefs: seq<PrefixPref>, n: nat)
    requires OwnedMap(name) && name in counts && n < counts[name]
    requires BlocksDone(config, t, name, prefs, n)
    ensures var script := SlotBlock(name, prefs, n);
            var r := Run(d, t, script);
            && Disciplined(d, counts, t, script)
            && (r.ok <==> SlotFits(prefs, n))
            && (r.ok ==> BlocksDone(config, r.session, name, prefs, n + 1))
  {
    SlotBlockRun(d, counts, t, name, prefs, n);
    MapStepRewrites(d, config, t.config, name, prefs, n);
  }

  lemma {:induction false} SlotBlocksRun(
      d: Dialect, counts: SlotCounts, s: Session, name: string, prefs: seq<PrefixPref>, n: nat)
    requires OwnedMap(name) && name in counts && n <= counts[name]
    requires s.mode == Top && Ready(s.config.lists, prefs)
    ensures Disciplined(d, counts, s, SlotBlocks(name, prefs, n))
    ensures var r := Run(d, s, SlotBlocks(name, prefs, n));
            && (r.ok <==> SlotsFit(prefs, n))
            && (r.ok ==> BlocksDone(s.config, r.session, name, prefs, n))
  {
    if n == 0 {
      assert forall q :: !IsSlot(q, 0);
    } else {
      var front, last := SlotBlocks(name, prefs, n - 1), SlotBlock(name, prefs, n - 1);
      SlotBlocksRun(d, counts, s, name, prefs, n - 1);
      DisciplinedAppend(d, counts, s, front, last);
      RunAppend(d, s, front, last);
      if Run(d, s, front).ok {
        SlotBlockNext(d, counts, s.config, Run(d, s, front).session, name, prefs, n - 1);
      }
    }
  }

  lemma MapStepRewrites(d: Dialect, a: Config, b: Config, name: string, prefs: seq<PrefixPref>, n: nat)
    requires MapRewritten(a, b, name, prefs, n)
    ensures var before := b.ClausesOf(name);
            MapRewritten(a, WithClauses(b, name, before[SlotSeq(n) := SlotClause(d, before, prefs, n)]), name, prefs, n + 1)
  {
    var before := b.ClausesOf(name);
    var after := before[SlotSeq(n) := SlotClause(d, before, prefs, n)];
    SlotStepRewrites(d, a.ClausesOf(name), before, prefs, n);
    assert b.maps[name := after] - {name} == b.maps - {name};
  }

  lemma SlotStepRewrites(d: Dialect, before: Clauses, middle: Clauses, prefs: seq<PrefixPref>, n: nat)
    requires Rewritten(before, middle, prefs, n)
    ensures Rewritten(before, middle[SlotSeq(n) := SlotClause(d, middle, prefs, n)], prefs, n + 1)
  {
    assert forall q :: IsSlot(q, n + 1) <==> IsSlot(q, n) || q == SlotSeq(n);
  }

  lemma {:induction false} SlotsFitIff(u: NeighborTierUpdate, slots: nat, n: nat)
    requires |u.prefs| <= slots
    ensures SlotsFit(u.prefs, n)
       <==> n <= MAX_SLOTS && forall i | 0 <= i < |u.prefs| && i < n :: LegalPref(u.prefs[i].localPref)
  {
    if n == 0 {
    } else {
      SlotsFitIff(u, slots, n - 1);
    }
  }

  // ---------- the catch-all and the binding

  function BoundConfig(d: Dialect, config: Config, neighbor: string): Config {
    var name := MapName(neighbor);
    var clauses := config.ClausesOf(name);
    WithClauses(config, name, clauses[MAX_SEQ := Entered(d, clauses, MAX_SEQ)]).(inbound := config.inbound[neighbor := name])
  }

  lemma TierTailRun(d: Dialect, counts: SlotCounts, s: Session, neighbor: string)
    requires s.mode == Top && IsIPv4(neighbor) && MapName(neighbor) in counts
    ensures Disciplined(d, counts, s, TierTail(neighbor))
    ensures Run(d, s, TierTail(neighbor)) == Outcome(Session(BoundConfig(d, s.config, neighbor), Enable), true)
  {
    var name := MapName(neighbor);
    var clauses := s.config.ClausesOf(name);
    var c1 := WithClauses(s.config, name, clauses[MAX_SEQ := Entered(d, clauses, MAX_SEQ)]);
    var rest2 := BindTail(neighbor, name);
    var rest1 := [Exit] + rest2;
    assert TierTail(neighbor) == [EnterMap(name, MAX_SEQ)] + rest1;
    Ownership(neighbor, "");
    RunCons(d, s, EnterMap(name, MAX_SEQ), rest1);
    DisciplinedCons(d, counts, s, EnterMap(name, MAX_SEQ), rest1);
    var s1 := Session(c1, InMap(name, MAX_SEQ));
    RunCons(d, s1, Exit, rest2);
    DisciplinedCons(d, counts, s1, Exit, rest2);
    BindTailRun(d, counts, c1, neighbor, name);
  }

  function BindTail(neighbor: string, name: string): seq<Command> {
    [RouterBgp] + ([Bind(neighbor, name)] + ([Exit] + [Exit]))
  }

  lemma BindTailRun(d: Dialect, counts: SlotCounts, c: Config, neighbor: string, name: string)
    requires IsIPv4(neighbor) && name == MapName(neighbor) && name in c.maps && MAX_SEQ in c.maps[name]
    ensures Disciplined(d, counts, Session(c, Top), BindTail(neighbor, name))
    ensures Run(d, Session(c, Top), BindTail(neighbor, name)) ==
            Outcome(Session(c.(inbound := c.inbound[neighbor := name]), Enable), true)
  {
    var rest4 := [Exit] + [Exit];
    var rest3 := [Bind(neighbor, name)] + rest4;
    RunCons(d, Session(c, Top), RouterBgp, rest3);
    DisciplinedCons(d, counts, Session(c, Top), RouterBgp, rest3);
    RunCons(d, Session(c, InBgp), Bind(neighbor, name), rest4);
    DisciplinedCons(d, counts, Session(c, InBgp), Bind(neighbor, name), rest4);
    var e := c.(inbound := c.inbound[neighbor := name]);
    RunCons(d, Session(e, InBgp), Exit, [Exit]);
    DisciplinedCons(d, counts, Session(e, InBgp), Exit, [Exit]);
    assert Run(d, Session(e, Top), [Exit]) == Run(d, Session(e, Enable), []);
  }

  // ---------- the whole script

  /** The router after a complete SetNeighborTiers: every slot rewritten, the map complete and bound. */
  ghost predicate Installed(a: Config, b: Config, u: NeighborTierUpdate, slots: nat) {
    var name := MapName(u.neighbor);
    && Ready(b.lists, u.prefs) && (forall list | list in a.lists :: list in b.lists)
    && b.inbound == a.inbound[u.neighbor := name] && b.outbound == a.outbound
    && b.maps - {name} == a.maps - {name}
    && CatchAll(b, name)
    && (forall k: nat | k < slots :: SlotSeq(k) in b.maps[name] && SlotWritten(b.maps[name][SlotSeq(k)], u.prefs, k))
    && (forall q | !IsSlot(q, slots) && q != MAX_SEQ ::
          (q in b.maps[name] <==> q in a.ClausesOf(name)) && (q in b.maps[name] ==> b.maps[name][q] == a.maps[name][q]))
  }

  lemma TierScriptRun(d: Dialect, counts: SlotCounts, config: Config, u: NeighborTierUpdate, slots: nat)
    requires Inv(config, counts) && LegalUpdate(u)
    requires MapName(u.neighbor) in counts && |u.prefs| <= slots <= counts[MapName(u.neighbor)]
    ensures Disciplined(d, counts, Session(config, Enable), TierScript(u, slots))
    ensures var r := Run(d, Session(config, Enable), TierScript(u, slots));
            && (r.ok <==> Fits(u, slots))
            && (r.ok ==> Installed(config, r.session.config, u, slots))
  {
    var s, name := Session(config, Enable), MapName(u.neighbor);
    var head, blocks, tail := TierHead(u.prefs), SlotBlocks(name, u.prefs, slots), TierTail(u.neighbor);
    Ownership(u.neighbor, "");
    SlotsFitIff(u, slots, slots);
    TierHeadRun(d, counts, config, u.prefs);
    DisciplinedAppend(d, counts, s, head, blocks);
    RunAppend(d, s, head, blocks);
    var s1 := Run(d, s, head).session;
    SlotBlocksRun(d, counts, s1, name, u.prefs, slots);
    DisciplinedAppend(d, counts, s, head + blocks, tail);
    RunAppend(d, s, head + blocks, tail);
    var r2 := Run(d, s1, blocks);
    if r2.ok {
      TierTailRun(d, counts, r2.session, u.neighbor);
      TailInstalls(d, config, s1.config, r2.session, u, slots);
    }
  }

  lemma TailInstalls(d: Dialect, a: Config, b: Config, t: Session, u: NeighborTierUpdate, slots: nat)
    requires ListsExtend(a, b) && BlocksDone(b, t, MapName(u.neighbor), u.prefs, slots)
    ensures Installed(a, BoundConfig(d, t.config, u.neighbor), u, slots)
  {
    var name := MapName(u.neighbor);
    var clauses := t.config.ClausesOf(name);
    var c := BoundConfig(d, t.config, u.neighbor);
    assert c.maps - {name} == t.config.maps - {name};
    assert forall k: nat :: SlotSeq(k) != MAX_SEQ;
    assert a.ClausesOf(name) == b.ClausesOf(name);
  }
}
