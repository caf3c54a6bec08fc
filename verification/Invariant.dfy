/**
 * The invariant that holds at every command boundary of every script, and the discipline
 * that makes a command keep it.
 */
module Invariant {
  import opened Options
  import opened Addresses
  import opened Names
  import opened Router
  import opened Actuate

  predicate IsSlot(q: nat, n: nat) {
    q % SLOT_STEP == 0 && SLOT_STEP <= q <= SLOT_STEP * n
  }

  /** All clauses permit; beyond the slots there is only the unconditional catch-all. */
  ghost predicate OwnedClauses(lists: map<string, map<nat, string>>, clauses: Clauses, count: nat) {
    forall q | q in clauses ::
      && clauses[q].permit
      && (if q == MAX_SEQ then clauses[q].guard == None && clauses[q].pref == None else IsSlot(q, count))
      && (clauses[q].guard.Some? ==> OwnedList(clauses[q].guard.value) && clauses[q].guard.value in lists)
  }

  ghost predicate MapsOk(config: Config, counts: SlotCounts) {
    forall name | name in config.maps && OwnedMap(name) ::
      name in counts && OwnedClauses(config.lists, config.maps[name], counts[name])
  }

  /** A scope list permits exactly its own prefix, however often it was declared. */
  ghost predicate ListsOk(lists: map<string, map<nat, string>>) {
    && (forall p | IsCidr(p) && ScopeList(p) in lists :: lists[ScopeList(p)] == map[LIST_SEQ := p])
    && (NEVER_LIST in lists ==> lists[NEVER_LIST] == map[LIST_SEQ := NEVER_CIDR])
  }

  ghost predicate CatchAll(config: Config, name: string) {
    name in config.maps && MAX_SEQ in config.maps[name]
  }

  /** An owned map is bound only inbound, only by its own neighbour, and only when complete. */
  ghost predicate BindingsOk(config: Config) {
    && (forall nb | nb in config.inbound && OwnedMap(config.inbound[nb]) ::
          config.inbound[nb] == MapName(nb) && IsIPv4(nb) && CatchAll(config, config.inbound[nb]))
    && (forall nb | nb in config.outbound :: !OwnedMap(config.outbound[nb]))
  }

  /** Maps that are not the daemon's do not match on lists that are. */
  ghost predicate ForeignOk(config: Config) {
    forall name, q | name in config.maps && !OwnedMap(name) && q in config.maps[name] ::
      config.maps[name][q].guard.Some? ==> !OwnedList(config.maps[name][q].guard.value)
  }

  ghost predicate Inv(config: Config, counts: SlotCounts) {
    MapsOk(config, counts) && ListsOk(config.lists) && BindingsOk(config) && ForeignOk(config)
  }

  // ---------- the discipline

  ghost predicate Obeys(counts: SlotCounts, s: Session, c: Command) {
    match c
    case DeclareList(list, q, prefix) =>
      && q == LIST_SEQ
      && ((IsCidr(prefix) && list == ScopeList(prefix)) || (list == NEVER_LIST && prefix == NEVER_CIDR))
    case EnterMap(name, q) => OwnedMap(name) && name in counts && (q == MAX_SEQ || IsSlot(q, counts[name]))
    case MatchList(list) => InOwnedSlot(s) && OwnedList(list) && list in s.config.lists
    case SetPref(_) => InOwnedSlot(s)
    case Bind(nb, name) => name == MapName(nb) && IsIPv4(nb) && CatchAll(s.config, name)
    case DeleteMap(name) => OwnedMap(name) && !Hazard(s, c)
    case DeleteList(list) => OwnedList(list) && !Hazard(s, c)
    case _ => true
  }

  ghost predicate InOwnedSlot(s: Session) {
    s.mode.InMap? ==> OwnedMap(s.mode.name) && s.mode.seqNo != MAX_SEQ
  }

  lemma DeclareKeeps(config: Config, counts: SlotCounts, list: string, prefix: string)
    requires Inv(config, counts)
    requires (IsCidr(prefix) && list == ScopeList(prefix)) || (list == NEVER_LIST && prefix == NEVER_CIDR)
    ensures list in config.lists ==> config.lists[list] == map[LIST_SEQ := prefix]
    ensures var entries := config.EntriesOf(list)[LIST_SEQ := prefix];
            entries == map[LIST_SEQ := prefix] && Inv(config.(lists := config.lists[list := entries]), counts)
  {
    var entries := config.EntriesOf(list)[LIST_SEQ := prefix];
    assert entries == map[LIST_SEQ := prefix] by {
      if list in config.lists {
        assert config.lists[list].Keys == {LIST_SEQ};
      }
    }
    var lists := config.lists[list := entries];
    forall p | IsCidr(p) && ScopeList(p) in lists ensures lists[ScopeList(p)] == map[LIST_SEQ := p] {
      Ownership("", p);
      if ScopeList(p) == list {
        ScopeListInjective(p, prefix);
      }
    }
    if NEVER_LIST == list {
      if IsCidr(prefix) && list == ScopeList(prefix) {
        Ownership("", prefix);
      }
    }
  }

  lemma EnterKeeps(d: Dialect, config: Config, counts: SlotCounts, name: string, q: nat)
    requires Inv(config, counts) && OwnedMap(name) && name in counts && (q == MAX_SEQ || IsSlot(q, counts[name]))
    ensures var clauses := config.ClausesOf(name);
            Inv(config.(maps := config.maps[name := clauses[q := Entered(d, clauses, q)]]), counts)
  {
  }

  lemma AmendKeeps(s: Session, counts: SlotCounts, clause: Clause)
    requires Inv(s.config, counts) && InOwnedSlot(s) && InClause(s)
    requires clause.permit == CurrentClause(s).permit
    requires clause.guard == CurrentClause(s).guard
          || (clause.guard.Some? && OwnedList(clause.guard.value) && clause.guard.value in s.config.lists)
    ensures Inv(Amended(s, clause).config, counts)
  {
  }

  /** A command that obeys the discipline is no hazard and keeps the invariant. */
  lemma StepKeeps(d: Dialect, counts: SlotCounts, s: Session, c: Command)
    requires Inv(s.config, counts) && Obeys(counts, s, c)
    ensures !Hazard(s, c)
    ensures Step(d, s, c).Some? ==> Inv(Step(d, s, c).value.config, counts)
  {
    if Step(d, s, c).Some? {
      match c
      case DeclareList(list, q, prefix) => DeclareKeeps(s.config, counts, list, prefix);
      case EnterMap(name, q) => EnterKeeps(d, s.config, counts, name, q);
      case MatchList(list) => AmendKeeps(s, counts, CurrentClause(s).(guard := Some(list)));
      case SetPref(v) => AmendKeeps(s, counts, CurrentClause(s).(pref := Some(v)));
      case Bind(nb, name) => BindKeeps(s.config, counts, nb);
      case DeleteMap(name) => DeleteMapKeeps(s.config, counts, name);
      case DeleteList(list) => DeleteListKeeps(s.config, counts, list);
      case _ =>
    }
  }

  lemma BindKeeps(config: Config, counts: SlotCounts, nb: string)
    requires Inv(config, counts) && IsIPv4(nb) && CatchAll(config, MapName(nb))
    ensures Inv(config.(inbound := config.inbound[nb := MapName(nb)]), counts)
  {
    Ownership(nb, "");
  }

  lemma DeleteMapKeeps(config: Config, counts: SlotCounts, name: string)
    requires Inv(config, counts) && OwnedMap(name) && !config.Bound(name)
    ensures Inv(config.(maps := config.maps - {name}), counts)
  {
  }

  lemma DeleteListKeeps(config: Config, counts: SlotCounts, list: string)
    requires Inv(config, counts) && !config.Referenced(list)
    ensures Inv(config.(lists := config.lists - {list}), counts)
  {
    forall name | name in config.maps && OwnedMap(name)
      ensures OwnedClauses(config.lists - {list}, config.maps[name], counts[name])
    {
      forall q | q in config.maps[name] ensures config.maps[name][q].guard != Some(list) {
      }
    }
  }

  // ---------- disciplined scripts

  ghost predicate Disciplined(d: Dialect, counts: SlotCounts, s: Session, script: seq<Command>)
    decreases |script|
  {
    script == [] ||
    (Obeys(counts, s, script[0]) &&
     match Step(d, s, script[0])
     case None => true
     case Some(t) => Disciplined(d, counts, t, script[1..]))
  }

  lemma DisciplinedCons(d: Dialect, counts: SlotCounts, s: Session, c: Command, rest: seq<Command>)
    ensures Disciplined(d, counts, s, [c] + rest)
       <==> Obeys(counts, s, c) && (Step(d, s, c).Some? ==> Disciplined(d, counts, Step(d, s, c).value, rest))
  {
    assert ([c] + rest)[1..] == rest;
  }

  lemma {:induction false} DisciplinedAppend(
      d: Dialect, counts: SlotCounts, s: Session, a: seq<Command>, b: seq<Command>)
    ensures Disciplined(d, counts, s, a + b)
       <==> Disciplined(d, counts, s, a) && (Run(d, s, a).ok ==> Disciplined(d, counts, Run(d, s, a).session, b))
    decreases |a|
  {
    if a == [] {
      assert a + b == b;
    } else {
      assert (a + b)[1..] == a[1..] + b;
      match Step(d, s, a[0])
      case None =>
      case Some(t) => DisciplinedAppend(d, counts, t, a[1..], b);
    }
  }

  lemma {:induction false} DisciplinedKeeps(d: Dialect, counts: SlotCounts, s: Session, script: seq<Command>)
    requires Inv(s.config, counts) && Disciplined(d, counts, s, script)
    ensures Inv(Run(d, s, script).session.config, counts)
    ensures HazardFree(d, s, script)
    decreases |script|
  {
    if script == [] {
    } else {
      StepKeeps(d, counts, s, script[0]);
      match Step(d, s, script[0])
      case None =>
      case Some(t) => DisciplinedKeeps(d, counts, t, script[1..]);
    }
  }

  /** A disciplined script keeps the invariant wherever vtysh dies. */
  lemma VtyshKeeps(d: Dialect, counts: SlotCounts, config: Config, script: seq<Command>, fault: nat)
    requires Inv(config, counts) && Disciplined(d, counts, Session(config, Enable), script)
    ensures Inv(Vtysh(d, config, script, fault).0, counts)
  {
    var s := Session(config, Enable);
    if fault < |script| {
      assert script == script[..fault] + script[fault..];
      DisciplinedAppend(d, counts, s, script[..fault], script[fault..]);
      DisciplinedKeeps(d, counts, s, script[..fault]);
    } else {
      DisciplinedKeeps(d, counts, s, script);
    }
  }

  /** Under the invariant no session with an owned map ever reaches the implicit deny. */
  lemma NeverDenied(config: Config, counts: SlotCounts, nb: string, prefix: string, pref: int)
    requires Inv(config, counts) && nb in config.inbound && OwnedMap(config.inbound[nb])
    ensures Receive(config, nb, prefix, pref).Accepted?
  {
    PermitAllNeverDenies(config.lists, config.maps[config.inbound[nb]], 1, prefix, pref);
  }
}
