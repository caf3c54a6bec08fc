/** NormalizeApplied: read the running-config, then detach, delete maps, delete lists, in that order. */
module Normalization {
  import opened Options
  import opened Text
  import opened Addresses
  import opened Names
  import opened Router
  import opened Actuate
  import opened Sorting
  import opened RunningConfig
  import opened Invariant

  // ---------- what the parsers recover

  /** What NormalizeApplied extracts from a faithful running-config. */
  ghost predicate Extracted(config: Config, isIP: string -> bool,
                            bindings: seq<AppliedBinding>, names: seq<string>, lists: seq<string>) {
    && Distinct(bindings)
    && (forall b :: b in bindings <==>
          && b.neighbor in config.inbound && config.inbound[b.neighbor] == b.routeMap
          && OwnedMap(b.routeMap) && isIP(b.neighbor))
    && (forall n :: n in names <==> OwnedMap(n) && (n in config.maps || exists b :: b in bindings && b.routeMap == n))
    && (forall l :: l in lists <==> OwnedList(l) && l in config.lists)
  }

  lemma ParsedBindings(lines: seq<Line>, config: Config, isIP: string -> bool)
    requires Shows(lines, config)
    ensures var parsed := Collect(PrintLines(lines), BindingParser(isIP));
            && Distinct(parsed)
            && forall b: AppliedBinding :: b in parsed <==>
                 && b.neighbor in config.inbound && config.inbound[b.neighbor] == b.routeMap
                 && OwnedMap(b.routeMap) && isIP(b.neighbor)
  {
    var texts, parse := PrintLines(lines), BindingParser(isIP);
    forall i | 0 <= i < |lines| ensures parse(texts[i]) ==
        if BindingShape(lines[i].words) && OwnedMap(lines[i].words[3]) && isIP(lines[i].words[1])
        then Some(AppliedBinding(lines[i].words[1], lines[i].words[3])) else None {
      PrintedLine(lines[i], isIP);
    }
    CollectDistinct(texts, parse);
    forall b: AppliedBinding ensures b in Collect(texts, parse) <==>
        && b.neighbor in config.inbound && config.inbound[b.neighbor] == b.routeMap
        && OwnedMap(b.routeMap) && isIP(b.neighbor) {
      CollectMembers(texts, parse, b);
      if b.neighbor in config.inbound && config.inbound[b.neighbor] == b.routeMap && OwnedMap(b.routeMap) && isIP(b.neighbor) {
        var i :| 0 <= i < |lines| && BindingShape(lines[i].words) && lines[i].words[1] == b.neighbor;
        assert parse(texts[i]) == Some(b);
      }
    }
  }

  lemma ParsedMaps(lines: seq<Line>, config: Config)
    requires Shows(lines, config)
    ensures forall n :: n in Collect(PrintLines(lines), MapOf) <==> OwnedMap(n) && n in config.maps
  {
    var texts := PrintLines(lines);
    forall i | 0 <= i < |lines| ensures MapOf(texts[i]) ==
        if MapShape(lines[i].words) && OwnedMap(lines[i].words[1]) then Some(lines[i].words[1]) else None {
      PrintedLine(lines[i], _ => true);
    }
    forall n ensures n in Collect(texts, MapOf) <==> OwnedMap(n) && n in config.maps {
      CollectMembers(texts, MapOf, n);
      if OwnedMap(n) && n in config.maps {
        var i :| 0 <= i < |lines| && MapShape(lines[i].words) && lines[i].words[1] == n;
        assert MapOf(texts[i]) == Some(n);
      }
    }
  }

  lemma ParsedLists(lines: seq<Line>, config: Config)
    requires Shows(lines, config)
    ensures forall l :: l in Collect(PrintLines(lines), ListOf) <==> OwnedList(l) && l in config.lists
  {
    var texts := PrintLines(lines);
    forall i | 0 <= i < |lines| ensures ListOf(texts[i]) ==
        if ListShape(lines[i].words) && OwnedList(lines[i].words[2]) then Some(lines[i].words[2]) else None {
      PrintedLine(lines[i], _ => true);
    }
    forall l ensures l in Collect(texts, ListOf) <==> OwnedList(l) && l in config.lists {
      CollectMembers(texts, ListOf, l);
      if OwnedList(l) && l in config.lists {
        var i :| 0 <= i < |lines| && ListShape(lines[i].words) && lines[i].words[2] == l;
        assert ListOf(texts[i]) == Some(l);
      }
    }
  }

  // ---------- the script

  function Unbinds(bindings: seq<AppliedBinding>, n: nat): seq<Command>
    requires n <= |bindings|
  {
    if n == 0 then [] else
      Unbinds(bindings, n - 1) + [Unbind(bindings[n - 1].neighbor, bindings[n - 1].routeMap)]
  }

  function MapDeletions(names: seq<string>, n: nat): seq<Command>
    requires n <= |names|
  {
    if n == 0 then [] else MapDeletions(names, n - 1) + [DeleteMap(names[n - 1])]
  }

  function ListDeletions(lists: seq<string>, n: nat): seq<Command>
    requires n <= |lists|
  {
    if n == 0 then [] else ListDeletions(lists, n - 1) + [DeleteList(lists[n - 1])]
  }

  function NormalizeScript(bindings: seq<AppliedBinding>, names: seq<string>, lists: seq<string>): seq<Command> {
    [Configure, RouterBgp] + Unbinds(bindings, |bindings|) + [Exit]
    + MapDeletions(names, |names|) + ListDeletions(lists, |lists|) + [Exit]
  }

  /** The effect of the call once the running-config was read. The counts restart only on success. */
  function Normalize(d: Dialect, w: World, bindings: seq<AppliedBinding>, names: seq<string>, lists: seq<string>, fault: nat)
    : (World, bool)
  {
    if names == [] && lists == [] then (w, true) else
      var r := Vtysh(d, w.config, NormalizeScript(bindings, names, lists), fault);
      (World(r.0, if r.1 then map[] else w.counts), r.1)
  }

  /** None stands for a failed `show running-config`. */
  method NormalizeApplied(a: Actuator, shown: Option<string>, isIP: string -> bool, fault: nat)
    returns (n: nat, ok: bool, ghost bindings: seq<AppliedBinding>, ghost names: seq<string>, ghost lists: seq<string>)
    modifies a
    ensures shown.None? ==> !ok && a.Contents() == old(a.Contents())
    ensures shown.Some? ==> (a.Contents(), ok) == Normalize(a.dialect, old(a.Contents()), bindings, names, lists, fault)
    ensures n == if ok && (names != [] || lists != []) then |bindings| else 0
    ensures a.slotCounts == if ok && (names != [] || lists != []) then map[] else old(a.slotCounts)
    ensures forall config, printed :: shown.Some? && Shows(printed, config) && shown.value == Print(printed) ==>
              Extracted(config, isIP, bindings, names, lists)
  {
    bindings, names, lists := [], [], [];
    match shown
    case None => n, ok := 0, false;
    case Some(config) =>
      var found := ParseAppliedBindings(config, isIP);
      var owned := ParseAppliedPrefixLists(config);
      var maps := ParseAppliedRouteMaps(config);
      var bound: seq<string> := [];
      for i := 0 to |found|
        invariant forall x :: x in bound <==> exists k :: 0 <= k < i && found[k].routeMap == x
      {
        bound := bound + [found[i].routeMap];
      }
      var ordered := SortedSet(maps + bound);
      bindings, names, lists := found, ordered, owned;
      forall cfg, printed | Shows(printed, cfg) && config == Print(printed)
        ensures Extracted(cfg, isIP, bindings, names, lists) {
        ExtractedFromText(printed, cfg, isIP, found, maps, bound, ordered, owned);
      }
      if ordered == [] && owned == [] {
        return 0, true, bindings, names, lists;
      }
      var script := WriteNormalizeScript(found, ordered, owned);
      ok := a.RunVtysh(script, fault);
      n := 0;
      if ok {
        a.slotCounts := map[];
        n := |found|;
      }
  }

  method WriteNormalizeScript(bindings: seq<AppliedBinding>, names: seq<string>, lists: seq<string>) returns (b: seq<Command>)
    ensures b == NormalizeScript(bindings, names, lists)
  {
    b := [Configure] + [RouterBgp];
    for i := 0 to |bindings|
      invariant b == [Configure, RouterBgp] + Unbinds(bindings, i)
    {
      b := b + [Unbind(bindings[i].neighbor, bindings[i].routeMap)];
    }
    b := b + [Exit];
    ghost var detach := b;
    for i := 0 to |names|
      invariant b == detach + MapDeletions(names, i)
    {
      b := b + [DeleteMap(names[i])];
    }
    ghost var unmapped := b;
    for i := 0 to |lists|
      invariant b == unmapped + ListDeletions(lists, i)
    {
      b := b + [DeleteList(lists[i])];
    }
    b := b + [Exit];
  }

  lemma ExtractedFromText(
      printed: seq<Line>, config: Config, isIP: string -> bool, found: seq<AppliedBinding>,
      maps: seq<string>, bound: seq<string>, names: seq<string>, lists: seq<string>)
    requires Shows(printed, config)
    requires var lines := Split(Print(printed), '\n');
             && SortOf(found, Collect(lines, BindingParser(isIP)), BindingLe)
             && SortedNames(maps, Collect(lines, MapOf))
             && SortedNames(lists, Collect(lines, ListOf))
    requires forall x :: x in bound <==> exists k :: 0 <= k < |found| && found[k].routeMap == x
    requires SortedNames(names, maps + bound)
    ensures Extracted(config, isIP, found, names, lists)
  {
    PrintSplit(printed);
    ParsedBindings(printed, config, isIP);
    ParsedMaps(printed, config);
    ParsedLists(printed, config);
    PermutationDistinct(Collect(PrintLines(printed), BindingParser(isIP)), found);
    forall n ensures n in bound <==> exists b :: b in found && b.routeMap == n {
      if b :| b in found && b.routeMap == n {
        var k :| 0 <= k < |found| && found[k] == b;
      }
    }
  }

  // ---------- the effect of the script

  function BoundNeighbors(bindings: seq<AppliedBinding>, n: nat): set<string>
    requires n <= |bindings|
  {
    set i | 0 <= i < n :: bindings[i].neighbor
  }

  function First(names: seq<string>, n: nat): set<string>
    requires n <= |names|
  {
    set i | 0 <= i < n :: names[i]
  }

  lemma {:induction false} UnbindsRun(d: Dialect, config: Config, bindings: seq<AppliedBinding>, n: nat)
    requires n <= |bindings| && Distinct(bindings)
    requires forall b | b in bindings :: b.neighbor in config.inbound && config.inbound[b.neighbor] == b.routeMap
    ensures var s := Session(config, InBgp);
            && HazardFree(d, s, Unbinds(bindings, n))
            && Run(d, s, Unbinds(bindings, n)) ==
                 Outcome(Session(config.(inbound := config.inbound - BoundNeighbors(bindings, n)), InBgp), true)
  {
    var s := Session(config, InBgp);
    if n == 0 {
      assert config.inbound - {} == config.inbound;
    } else {
      UnbindsRun(d, config, bindings, n - 1);
      var b := bindings[n - 1];
      var front, last := Unbinds(bindings, n - 1), [Unbind(b.neighbor, b.routeMap)];
      HazardFreeAppend(d, s, front, last);
      RunAppend(d, s, front, last);
      var before := config.inbound - BoundNeighbors(bindings, n - 1);
      assert b in bindings && b.neighbor !in BoundNeighbors(bindings, n - 1);
      assert before - {b.neighbor} == config.inbound - BoundNeighbors(bindings, n);
      var t := Session(config.(inbound := before), InBgp);
      assert Run(d, t, last) == Run(d, Step(d, t, last[0]).value, []);
    }
  }

  lemma {:induction false} MapDeletionsRun(d: Dialect, config: Config, names: seq<string>, n: nat)
    requires n <= |names|
    ensures var s := Session(config, Top);
            && (HazardFree(d, s, MapDeletions(names, n)) <==> forall i | 0 <= i < n :: !config.Bound(names[i]))
            && Run(d, s, MapDeletions(names, n)) ==
                 Outcome(Session(config.(maps := config.maps - First(names, n)), Top), true)
  {
    var s := Session(config, Top);
    if n == 0 {
      assert config.maps - {} == config.maps;
    } else {
      MapDeletionsRun(d, config, names, n - 1);
      var front, last := MapDeletions(names, n - 1), [DeleteMap(names[n - 1])];
      HazardFreeAppend(d, s, front, last);
      RunAppend(d, s, front, last);
      var before := config.maps - First(names, n - 1);
      assert before - {names[n - 1]} == config.maps - First(names, n);
      var t := Session(config.(maps := before), Top);
      assert t.config.Bound(names[n - 1]) == config.Bound(names[n - 1]);
      assert Run(d, t, last) == Run(d, Step(d, t, last[0]).value, []);
      assert HazardFree(d, t, last) == !Hazard(t, last[0]);
    }
  }

  lemma {:induction false} ListDeletionsRun(d: Dialect, config: Config, lists: seq<string>, n: nat)
    requires n <= |lists|
    ensures var s := Session(config, Top);
            && (HazardFree(d, s, ListDeletions(lists, n)) <==> forall i | 0 <= i < n :: !config.Referenced(lists[i]))
            && Run(d, s, ListDeletions(lists, n)) ==
                 Outcome(Session(config.(lists := config.lists - First(lists, n)), Top), true)
  {
    var s := Session(config, Top);
    if n == 0 {
      assert config.lists - {} == config.lists;
    } else {
      ListDeletionsRun(d, config, lists, n - 1);
      var front, last := ListDeletions(lists, n - 1), [DeleteList(lists[n - 1])];
      HazardFreeAppend(d, s, front, last);
      RunAppend(d, s, front, last);
      var before := config.lists - First(lists, n - 1);
      assert before - {lists[n - 1]} == config.lists - First(lists, n);
      var t := Session(config.(lists := before), Top);
      assert t.config.Referenced(lists[n - 1]) == config.Referenced(lists[n - 1]);
      assert Run(d, t, last) == Run(d, Step(d, t, last[0]).value, []);
      assert HazardFree(d, t, last) == !Hazard(t, last[0]);
    }
  }

  function Unbound(config: Config, bindings: seq<AppliedBinding>): Config {
    config.(inbound := config.inbound - BoundNeighbors(bindings, |bindings|))
  }

  function Unmapped(config: Config, bindings: seq<AppliedBinding>, names: seq<string>): Config {
    Unbound(config, bindings).(maps := config.maps - First(names, |names|))
  }

  function Deleted(config: Config, bindings: seq<AppliedBinding>, names: seq<string>, lists: seq<string>): Config {
    Unmapped(config, bindings, names).(lists := config.lists - First(lists, |lists|))
  }

  /** The complete script never fails, and is safe exactly when nothing it deletes is still in use. */
  lemma NormalizeScriptRun(
      d: Dialect, config: Config, bindings: seq<AppliedBinding>, names: seq<string>, lists: seq<string>)
    requires Distinct(bindings)
    requires forall b | b in bindings :: b.neighbor in config.inbound && config.inbound[b.neighbor] == b.routeMap
    ensures var s := Session(config, Enable);
            && Run(d, s, NormalizeScript(bindings, names, lists)) ==
                 Outcome(Session(Deleted(config, bindings, names, lists), Enable), true)
            && (HazardFree(d, s, NormalizeScript(bindings, names, lists)) <==>
                  && (forall n | n in names :: !Unbound(config, bindings).Bound(n))
                  && (forall l | l in lists :: !Unmapped(config, bindings, names).Referenced(l)))
  {
    var c1, c2 := Unbound(config, bindings), Unmapped(config, bindings, names);
    var unbinds, maps, drops := Unbinds(bindings, |bindings|), MapDeletions(names, |names|), ListDeletions(lists, |lists|);
    var rest3 := drops + [Exit];
    var rest2 := maps + rest3;
    var rest1 := [Exit] + rest2;
    assert NormalizeScript(bindings, names, lists) == [Configure] + ([RouterBgp] + (unbinds + rest1));
    Prefix(d, Session(config, Enable), Configure, [RouterBgp] + (unbinds + rest1));
    Prefix(d, Session(config, Top), RouterBgp, unbinds + rest1);
    UnbindsRun(d, config, bindings, |bindings|);
    RunAppend(d, Session(config, InBgp), unbinds, rest1);
    HazardFreeAppend(d, Session(config, InBgp), unbinds, rest1);
    Prefix(d, Session(c1, InBgp), Exit, rest2);
    MapDeletionsRun(d, c1, names, |names|);
    RunAppend(d, Session(c1, Top), maps, rest3);
    HazardFreeAppend(d, Session(c1, Top), maps, rest3);
    ListDeletionsRun(d, c2, lists, |lists|);
    RunAppend(d, Session(c2, Top), drops, [Exit]);
    HazardFreeAppend(d, Session(c2, Top), drops, [Exit]);
    Prefix(d, Session(Deleted(config, bindings, names, lists), Top), Exit, []);
  }

  /** A mode change that succeeds and is no hazard. */
  lemma Prefix(d: Dialect, s: Session, c: Command, rest: seq<Command>)
    requires (c.Configure? && s.mode.Enable?) || (c.RouterBgp? && s.mode.Top?) || (c.Exit? && !s.mode.Enable?)
    ensures Step(d, s, c).Some?
    ensures Run(d, s, [c] + rest) == Run(d, Step(d, s, c).value, rest)
    ensures HazardFree(d, s, [c] + rest) <==> HazardFree(d, Step(d, s, c).value, rest)
  {
    assert ([c] + rest)[1..] == rest;
  }

  // ---------- the theorems

  predicate Claimed(config: Config, isIP: string -> bool, nb: string) {
    nb in config.inbound && OwnedMap(config.inbound[nb]) && isIP(nb)
  }

  /** The configuration without anything the daemon owns; the rest is untouched. */
  function Cleaned(config: Config, isIP: string -> bool): Config {
    Config(
      map list | list in config.lists && !OwnedList(list) :: config.lists[list],
      map name | name in config.maps && !OwnedMap(name) :: config.maps[name],
      map nb | nb in config.inbound && !Claimed(config, isIP, nb) :: config.inbound[nb],
      config.outbound)
  }

  /** Where an owned map is bound at all, it is bound inbound and by an IP neighbour. */
  ghost predicate BoundByAddresses(config: Config, isIP: string -> bool) {
    && (forall nb | nb in config.inbound && OwnedMap(config.inbound[nb]) :: isIP(nb))
    && (forall nb | nb in config.outbound :: !OwnedMap(config.outbound[nb]))
  }

  /** The map deletions free no live map exactly when every binding of a deleted map was recognised. */
  ghost predicate DeletedMapsUnbound(config: Config, isIP: string -> bool, names: seq<string>) {
    && (forall nb | nb in config.inbound && config.inbound[nb] in names :: isIP(nb))
    && (forall nb | nb in config.outbound :: config.outbound[nb] !in names)
  }

  /** No map that stays matches on a list that goes. */
  ghost predicate DeletedListsUnused(config: Config, lists: seq<string>) {
    forall name, q | name in config.maps && !OwnedMap(name) && q in config.maps[name] ::
      config.maps[name][q].guard.Some? ==> config.maps[name][q].guard.value !in lists
  }

  lemma DeletedIsCleaned(
      config: Config, isIP: string -> bool, bindings: seq<AppliedBinding>, names: seq<string>, lists: seq<string>)
    requires Extracted(config, isIP, bindings, names, lists)
    ensures Deleted(config, bindings, names, lists) == Cleaned(config, isIP)
    ensures forall nb :: nb in BoundNeighbors(bindings, |bindings|) <==> Claimed(config, isIP, nb)
  {
    forall nb ensures nb in BoundNeighbors(bindings, |bindings|) <==> Claimed(config, isIP, nb) {
      if Claimed(config, isIP, nb) {
        var b := AppliedBinding(nb, config.inbound[nb]);
        assert b in bindings;
      }
    }
    forall n ensures n in First(names, |names|) <==> n in names {
    }
    forall l ensures l in First(lists, |lists|) <==> l in lists {
    }
    var deleted, cleaned := Deleted(config, bindings, names, lists), Cleaned(config, isIP);
    assert deleted.inbound == cleaned.inbound;
    assert deleted.maps == cleaned.maps;
    assert deleted.lists == cleaned.lists;
  }

  lemma NormalizeHazards(
      d: Dialect, config: Config, isIP: string -> bool, bindings: seq<AppliedBinding>, names: seq<string>, lists: seq<string>)
    requires Extracted(config, isIP, bindings, names, lists)
    ensures HazardFree(d, Session(config, Enable), NormalizeScript(bindings, names, lists))
       <==> DeletedMapsUnbound(config, isIP, names) && DeletedListsUnused(config, lists)
  {
    NormalizeScriptRun(d, config, bindings, names, lists);
    DeletedIsCleaned(config, isIP, bindings, names, lists);
    var c1, c2 := Unbound(config, bindings), Unmapped(config, bindings, names);
    assert c1.inbound == Cleaned(config, isIP).inbound && c2.maps == Cleaned(config, isIP).maps;
    MapHazards(config, c1, isIP, names);
    ListHazards(config, c2, isIP, lists);
  }

  lemma MapHazards(config: Config, c1: Config, isIP: string -> bool, names: seq<string>)
    requires forall n | n in names :: OwnedMap(n)
    requires c1.outbound == config.outbound && c1.inbound == Cleaned(config, isIP).inbound
    ensures (forall n | n in names :: !c1.Bound(n)) <==> DeletedMapsUnbound(config, isIP, names)
  {
    if forall n | n in names :: !c1.Bound(n) {
      forall nb | nb in config.inbound && config.inbound[nb] in names ensures isIP(nb) {
        assert !c1.Bound(config.inbound[nb]);
        assert nb in c1.inbound || Claimed(config, isIP, nb);
      }
      forall nb | nb in config.outbound ensures config.outbound[nb] !in names {
        assert c1.Bound(config.outbound[nb]);
      }
    }
  }

  lemma ListHazards(config: Config, c2: Config, isIP: string -> bool, lists: seq<string>)
    requires c2.maps == Cleaned(config, isIP).maps
    ensures (forall l | l in lists :: !c2.Referenced(l)) <==> DeletedListsUnused(config, lists)
  {
    if forall l | l in lists :: !c2.Referenced(l) {
      forall name, q | name in config.maps && !OwnedMap(name) && q in config.maps[name] && config.maps[name][q].guard.Some?
        ensures config.maps[name][q].guard.value !in lists {
        var l := config.maps[name][q].guard.value;
        assert name in c2.maps && c2.maps[name][q].guard == Some(l);
        assert c2.Referenced(l);
      }
    }
  }

  /**
   * Print, parse and clean. From any configuration whose owned maps are bound only inbound and only to
   * IP neighbours, a complete normalization frees nothing that is in use, leaves nothing the daemon
   * owns, leaves everything else as it was, and detaches one binding per claimed neighbour.
   */
  lemma NormalizeCleans(
      d: Dialect, w: World, isIP: string -> bool, bindings: seq<AppliedBinding>, names: seq<string>, lists: seq<string>, fault: nat)
    requires Extracted(w.config, isIP, bindings, names, lists)
    requires fault >= |NormalizeScript(bindings, names, lists)|
    requires BoundByAddresses(w.config, isIP) && ForeignOk(w.config)
    ensures var r := Normalize(d, w, bindings, names, lists, fault);
            && r.1 && r.0.config == Cleaned(w.config, isIP)
            && Inv(r.0.config, map[])
    ensures HazardFree(d, Session(w.config, Enable), NormalizeScript(bindings, names, lists))
    ensures |bindings| == |set nb | nb in w.config.inbound && OwnedMap(w.config.inbound[nb])|
  {
    NormalizeScriptRun(d, w.config, bindings, names, lists);
    NormalizeHazards(d, w.config, isIP, bindings, names, lists);
    DeletedIsCleaned(w.config, isIP, bindings, names, lists);
    NeighborsCount(bindings, |bindings|, w.config.inbound);
    assert BoundNeighbors(bindings, |bindings|) == set nb | nb in w.config.inbound && OwnedMap(w.config.inbound[nb]);
    CleanedInvariant(w.config, isIP);
    if names == [] && lists == [] {
      NothingOwned(w.config, isIP, bindings, names, lists);
    }
  }

  lemma NothingOwned(
      config: Config, isIP: string -> bool, bindings: seq<AppliedBinding>, names: seq<string>, lists: seq<string>)
    requires Extracted(config, isIP, bindings, names, lists) && names == [] && lists == []
    ensures Cleaned(config, isIP) == config
  {
    forall nb | nb in config.inbound ensures !Claimed(config, isIP, nb) {
      var b := AppliedBinding(nb, config.inbound[nb]);
      assert b in bindings ==> b.routeMap in names;
    }
    assert Cleaned(config, isIP).inbound == config.inbound;
    assert Cleaned(config, isIP).maps == config.maps;
    assert Cleaned(config, isIP).lists == config.lists;
  }

  lemma CleanedInvariant(config: Config, isIP: string -> bool)
    requires BoundByAddresses(config, isIP) && ForeignOk(config)
    ensures Inv(Cleaned(config, isIP), map[])
  {
    forall p ensures OwnedList(ScopeList(p)) && OwnedList(NEVER_LIST) {
      Ownership("", p);
    }
  }

  lemma {:induction false} NeighborsCount(bindings: seq<AppliedBinding>, n: nat, inbound: map<string, string>)
    requires n <= |bindings| && Distinct(bindings)
    requires forall b | b in bindings :: b.neighbor in inbound && inbound[b.neighbor] == b.routeMap
    ensures |BoundNeighbors(bindings, n)| == n
  {
    if n == 0 {
    } else {
      NeighborsCount(bindings, n - 1, inbound);
      assert bindings[n - 1] in bindings && bindings[n - 1].neighbor !in BoundNeighbors(bindings, n - 1);
      assert BoundNeighbors(bindings, n) == BoundNeighbors(bindings, n - 1) + {bindings[n - 1].neighbor};
    }
  }

  // ---------- normalization in the middle of a run

  predicate Deletes(c: Command) {
    match c
    case DeleteMap(name) => OwnedMap(name)
    case DeleteList(list) => OwnedList(list)
    case Unbind(_, _) => true
    case _ => c.Configure? || c.RouterBgp? || c.Exit?
  }

  /** A script of detachments and deletions of owned things is disciplined as soon as it is free of hazards. */
  lemma {:induction false} DeletesDisciplined(d: Dialect, counts: SlotCounts, s: Session, script: seq<Command>)
    requires (forall c | c in script :: Deletes(c)) && HazardFree(d, s, script)
    ensures Disciplined(d, counts, s, script)
    decreases |script|
  {
    if script == [] {
    } else {
      assert Deletes(script[0]);
      match Step(d, s, script[0])
      case None =>
      case Some(t) => DeletesDisciplined(d, counts, t, script[1..]);
    }
  }

  lemma {:induction false} ScriptDeletes(bindings: seq<AppliedBinding>, names: seq<string>, lists: seq<string>, i: nat, j: nat, k: nat)
    requires i <= |bindings| && j <= |names| && k <= |lists|
    requires (forall n | n in names :: OwnedMap(n)) && (forall l | l in lists :: OwnedList(l))
    ensures forall c | c in Unbinds(bindings, i) :: Deletes(c)
    ensures forall c | c in MapDeletions(names, j) :: Deletes(c)
    ensures forall c | c in ListDeletions(lists, k) :: Deletes(c)
    decreases i + j + k
  {
    if i > 0 {
      ScriptDeletes(bindings, names, lists, i - 1, j, k);
    } else if j > 0 {
      ScriptDeletes(bindings, names, lists, i, j - 1, k);
      assert names[j - 1] in names;
    } else if k > 0 {
      ScriptDeletes(bindings, names, lists, i, j, k - 1);
      assert lists[k - 1] in lists;
    }
  }

  /** Wherever a normalization of a running daemon's router dies, the invariant survives. */
  lemma NormalizeSafe(
      d: Dialect, w: World, isIP: string -> bool, bindings: seq<AppliedBinding>, names: seq<string>, lists: seq<string>, fault: nat)
    requires Inv(w.config, w.counts) && (forall nb | IsIPv4(nb) :: isIP(nb))
    requires Extracted(w.config, isIP, bindings, names, lists)
    ensures var r := Normalize(d, w, bindings, names, lists, fault); Inv(r.0.config, r.0.counts)
    ensures HazardFree(d, Session(w.config, Enable), NormalizeScript(bindings, names, lists))
  {
    var script := NormalizeScript(bindings, names, lists);
    NormalizeHazards(d, w.config, isIP, bindings, names, lists);
    ScriptDeletes(bindings, names, lists, |bindings|, |names|, |lists|);
    DeletesDisciplined(d, w.counts, Session(w.config, Enable), script);
    VtyshKeeps(d, w.counts, w.config, script, fault);
    if fault >= |script| {
      NormalizeCleans(d, w, isIP, bindings, names, lists, fault);
    }
  }
}
