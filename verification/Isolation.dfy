/** A script for one neighbour, finished or not, changes nothing that another neighbour's routes see. */
module Isolation {
  import opened Addresses
  import opened Names
  import opened Router
  import opened Actuate
  import opened Invariant
  import opened TierScripts
  import opened Compilation

  /** The commands of a neighbour's own scripts. */
  predicate Local(neighbor: string, c: Command) {
    match c
    case EnterMap(name, _) => name == MapName(neighbor)
    case DeleteMap(name) => name == MapName(neighbor)
    case Bind(nb, _) => nb == neighbor
    case Unbind(nb, _) => nb == neighbor
    case DeleteList(_) => false
    case _ => true
  }

  /** Only the neighbour's own map and binding differ; lists were only added, and only owned ones. */
  ghost predicate Touches(a: Config, b: Config, neighbor: string) {
    && b.maps - {MapName(neighbor)} == a.maps - {MapName(neighbor)}
    && b.inbound - {neighbor} == a.inbound - {neighbor}
    && b.outbound == a.outbound
    && (forall list | list in a.lists :: list in b.lists && b.lists[list] == a.lists[list])
    && (forall list | list in b.lists && list !in a.lists :: OwnedList(list))
  }

  predicate InOwnMap(s: Session, neighbor: string) {
    s.mode.InMap? ==> s.mode.name == MapName(neighbor)
  }

  lemma DeclareTouches(config: Config, counts: SlotCounts, list: string, prefix: string, neighbor: string)
    requires Inv(config, counts)
    requires (IsCidr(prefix) && list == ScopeList(prefix)) || (list == NEVER_LIST && prefix == NEVER_CIDR)
    ensures Touches(config, config.(lists := config.lists[list := config.EntriesOf(list)[LIST_SEQ := prefix]]), neighbor)
  {
    var entries := config.EntriesOf(list)[LIST_SEQ := prefix];
    DeclareKeeps(config, counts, list, prefix);
    Ownership("", prefix);
    ListTouches(config, list, entries, neighbor);
  }

  lemma ListTouches(config: Config, list: string, entries: map<nat, string>, neighbor: string)
    requires OwnedList(list) && (list in config.lists ==> config.lists[list] == entries)
    ensures Touches(config, config.(lists := config.lists[list := entries]), neighbor)
  {
  }

  lemma StepTouches(d: Dialect, counts: SlotCounts, s: Session, c: Command, neighbor: string)
    requires Inv(s.config, counts) && Obeys(counts, s, c) && Local(neighbor, c) && InOwnMap(s, neighbor)
    requires Step(d, s, c).Some?
    ensures var t := Step(d, s, c).value; Touches(s.config, t.config, neighbor) && InOwnMap(t, neighbor)
  {
    var t := Step(d, s, c).value;
    if c.DeclareList? {
      DeclareTouches(s.config, counts, c.list, c.prefix, neighbor);
    } else {
      assert t.config.maps - {MapName(neighbor)} == s.config.maps - {MapName(neighbor)};
      assert t.config.inbound - {neighbor} == s.config.inbound - {neighbor};
    }
  }

  lemma {:induction false} RunTouches(d: Dialect, counts: SlotCounts, s: Session, script: seq<Command>, neighbor: string)
    requires Inv(s.config, counts) && Disciplined(d, counts, s, script)
    requires (forall c | c in script :: Local(neighbor, c)) && InOwnMap(s, neighbor)
    ensures Touches(s.config, Run(d, s, script).session.config, neighbor)
    decreases |script|
  {
    if script == [] {
    } else {
      assert script[0] in script;
      StepKeeps(d, counts, s, script[0]);
      match Step(d, s, script[0])
      case None =>
      case Some(t) =>
        StepTouches(d, counts, s, script[0], neighbor);
        RunTouches(d, counts, t, script[1..], neighbor);
    }
  }

  lemma VtyshTouches(d: Dialect, counts: SlotCounts, config: Config, script: seq<Command>, fault: nat, neighbor: string)
    requires Inv(config, counts) && Disciplined(d, counts, Session(config, Enable), script)
    requires forall c | c in script :: Local(neighbor, c)
    ensures Touches(config, Vtysh(d, config, script, fault).0, neighbor)
  {
    var s := Session(config, Enable);
    if fault < |script| {
      assert script == script[..fault] + script[fault..];
      DisciplinedAppend(d, counts, s, script[..fault], script[fault..]);
      RunTouches(d, counts, s, script[..fault], neighbor);
    } else {
      RunTouches(d, counts, s, script, neighbor);
    }
  }

  lemma {:induction false} TierScriptLocal(u: NeighborTierUpdate, n: nat, k: nat)
    requires n <= |u.prefs|
    ensures forall c | c in ListDecls(u.prefs, n) :: Local(u.neighbor, c)
    ensures forall c | c in SlotBlocks(MapName(u.neighbor), u.prefs, k) :: Local(u.neighbor, c)
    decreases n + k
  {
    if n > 0 {
      TierScriptLocal(u, n - 1, k);
    } else if k > 0 {
      TierScriptLocal(u, n, k - 1);
    }
  }

  // ---------- what the other neighbours see

  /** From q on, the two maps hold clauses with the same effect on the prefix. */
  lemma {:induction false} EvaluateCongruent(
      lists: map<string, map<nat, string>>, lists': map<string, map<nat, string>>,
      clauses: Clauses, clauses': Clauses, q: nat, prefix: string, pref: int)
    requires forall i | q <= i :: (i in clauses <==> i in clauses')
    requires forall i | q <= i && i in clauses :: clauses[i] == clauses'[i]
    requires forall i | q <= i && i in clauses :: Guards(lists, clauses[i], prefix) == Guards(lists', clauses[i], prefix)
    ensures Evaluate(lists, clauses, q, prefix, pref) == Evaluate(lists', clauses', q, prefix, pref)
    decreases MAX_SEQ + 1 - q
  {
    if q > MAX_SEQ {
    } else {
      EvaluateCongruent(lists, lists', clauses, clauses', q + 1, prefix, pref);
    }
  }

  lemma TouchesIsolated(a: Config, b: Config, counts: SlotCounts, neighbor: string, other: string, prefix: string, pref: int)
    requires Inv(a, counts) && Touches(a, b, neighbor) && IsIPv4(neighbor) && other != neighbor
    ensures Receive(b, other, prefix, pref) == Receive(a, other, prefix, pref)
  {
    Ownership(neighbor, "");
    assert other in a.inbound <==> other in (a.inbound - {neighbor});
    assert other in b.inbound <==> other in (b.inbound - {neighbor});
    if other in a.inbound {
      var name := a.inbound[other];
      assert (a.inbound - {neighbor})[other] == (b.inbound - {neighbor})[other];
      assert name != MapName(neighbor) by {
        if OwnedMap(name) && name == MapName(neighbor) {
          MapNameInjective(other, neighbor);
        }
      }
      assert name in a.maps <==> name in (a.maps - {MapName(neighbor)});
      assert name in b.maps <==> name in (b.maps - {MapName(neighbor)});
      if name in a.maps {
        assert (a.maps - {MapName(neighbor)})[name] == (b.maps - {MapName(neighbor)})[name];
        GuardsKept(a, b, counts, neighbor, name, prefix);
        EvaluateCongruent(a.lists, b.lists, a.maps[name], b.maps[name], 1, prefix, pref);
      }
    }
  }

  lemma GuardsKept(a: Config, b: Config, counts: SlotCounts, neighbor: string, name: string, prefix: string)
    requires Inv(a, counts) && Touches(a, b, neighbor) && name in a.maps
    ensures forall i | i in a.maps[name] :: Guards(a.lists, a.maps[name][i], prefix) == Guards(b.lists, a.maps[name][i], prefix)
  {
    forall i | i in a.maps[name] && a.maps[name][i].guard.Some?
      ensures Guards(a.lists, a.maps[name][i], prefix) == Guards(b.lists, a.maps[name][i], prefix)
    {
      var list := a.maps[name][i].guard.value;
      assert list in b.lists ==> list in a.lists;
    }
  }

  lemma SetTouches(d: Dialect, w: World, u: NeighborTierUpdate, fault: nat)
    requires Sound(w) && LegalUpdate(u)
    ensures Touches(w.config, SetTiers(d, w, u, fault).0.config, u.neighbor)
  {
    if u.prefs == [] {
    } else {
      var counts :| Covers(counts, w);
      SetTiersCovers(d, counts, w, u, fault);
      ScriptTouches(d, Raised(counts, w, u), w.config, u, SlotsOf(w, u), fault);
    }
  }

  lemma ScriptTouches(d: Dialect, counts: SlotCounts, config: Config, u: NeighborTierUpdate, slots: nat, fault: nat)
    requires Inv(config, counts) && Disciplined(d, counts, Session(config, Enable), TierScript(u, slots))
    ensures Touches(config, Vtysh(d, config, TierScript(u, slots), fault).0, u.neighbor)
  {
    TierScriptLocal(u, |u.prefs|, slots);
    VtyshTouches(d, counts, config, TierScript(u, slots), fault, u.neighbor);
  }

  lemma RemoveTouches(d: Dialect, w: World, nb: string, fault: nat)
    requires Sound(w) && IsIPv4(nb)
    ensures Touches(w.config, RemoveTiers(d, w, nb, fault).0.config, nb)
  {
    var counts :| Covers(counts, w);
    RemoveScriptRun(d, counts, w.config, nb);
    VtyshTouches(d, counts, w.config, RemoveScript(nb), fault, nb);
  }

  /** No update or removal for one neighbour, however it ends, changes another neighbour's verdicts. */
  lemma OthersUnaffected(d: Dialect, w: World, u: NeighborTierUpdate, fault: nat, other: string, prefix: string, pref: int)
    requires Sound(w) && LegalUpdate(u) && other != u.neighbor
    ensures Receive(SetTiers(d, w, u, fault).0.config, other, prefix, pref) == Receive(w.config, other, prefix, pref)
    ensures Receive(RemoveTiers(d, w, u.neighbor, fault).0.config, other, prefix, pref) == Receive(w.config, other, prefix, pref)
  {
    var counts :| Covers(counts, w);
    SetTouches(d, w, u, fault);
    TouchesIsolated(w.config, SetTiers(d, w, u, fault).0.config, counts, u.neighbor, other, prefix, pref);
    RemoveTouches(d, w, u.neighbor, fault);
    TouchesIsolated(w.config, RemoveTiers(d, w, u.neighbor, fault).0.config, counts, u.neighbor, other, prefix, pref);
  }
}
