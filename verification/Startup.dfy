/** The start of the daemon (cmd/daemon/main.go): read the router's configuration, clean it, go to work. */
module Startup {
  import opened Options
  import opened Text
  import opened Names
  import opened Router
  import opened Actuate
  import opened RunningConfig
  import opened Invariant
  import opened Compilation
  import opened Normalization
  import opened Runs
  import opened Tick

  /** If the configuration could be read at all, what was read is some printed form of it. */
  ghost predicate Readable(shown: Option<string>, printed: seq<Line>, config: Config) {
    shown.Some? ==> Shows(printed, config) && shown.value == Print(printed)
  }

  /** The neighbours that the normalization detaches. */
  function Claimants(config: Config): set<string> {
    set nb | nb in config.inbound && OwnedMap(config.inbound[nb])
  }

  /** What a normalization that succeeded leaves, whichever program wrote the configuration. */
  ghost predicate Normalized(before: Config, isIP: string -> bool, w: World) {
    && w.config == Cleaned(before, isIP) && OnlyForeign(before, w.config) && Good(w) && Tracked(w.config, {})
  }

  /** Bindings, route-maps and prefix-lists with the daemon's names are gone; all others are as they were. */
  ghost predicate OnlyForeign(before: Config, after: Config) {
    && after.outbound == before.outbound
    && (forall nb :: nb in after.inbound <==> nb in before.inbound && !HasPrefix(before.inbound[nb], "PATHPROFILER-"))
    && (forall nb | nb in after.inbound :: after.inbound[nb] == before.inbound[nb])
    && (forall name :: name in after.maps <==> name in before.maps && !HasPrefix(name, "PATHPROFILER-"))
    && (forall name | name in after.maps :: after.maps[name] == before.maps[name])
    && (forall list :: list in after.lists <==>
          list in before.lists && list != "PATHPROFILER-NEVER" && !HasPrefix(list, "PATHPROFILER-SCOPE-"))
    && (forall list | list in after.lists :: after.lists[list] == before.lists[list])
  }

  lemma NoOwnedMaps(config: Config, counts: SlotCounts)
    requires Inv(config, map[])
    ensures Inv(config, counts)
  {
  }

  lemma SuccessCleans(d: Dialect, w: World, isIP: string -> bool, bindings: seq<AppliedBinding>, names: seq<string>,
                      lists: seq<string>, fault: nat)
    requires Extracted(w.config, isIP, bindings, names, lists)
    requires BoundByAddresses(w.config, isIP) && ForeignOk(w.config)
    requires Normalize(d, w, bindings, names, lists, fault).1
    ensures Normalized(w.config, isIP, Normalize(d, w, bindings, names, lists, fault).0)
    ensures (if names == [] && lists == [] then 0 else |bindings|) == |Claimants(w.config)|
  {
    var script := NormalizeScript(bindings, names, lists);
    NormalizeCleans(d, w, isIP, bindings, names, lists, |script|);
    NoOwnedMaps(Cleaned(w.config, isIP), w.counts);
    CleanedUntracked(w.config, isIP);
    CleanedForeign(w.config, isIP);
    assert forall b | b in bindings :: b.routeMap in names;
  }

  lemma CleanedForeign(config: Config, isIP: string -> bool)
    requires BoundByAddresses(config, isIP)
    ensures OnlyForeign(config, Cleaned(config, isIP))
  {
  }

  /** A cleaned configuration has no binding that the daemon would not know of. */
  lemma CleanedUntracked(config: Config, isIP: string -> bool)
    requires BoundByAddresses(config, isIP)
    ensures Tracked(Cleaned(config, isIP), {})
  {
  }

  /**
   * Print, parse and clean. From any configuration whose owned maps are bound only inbound and only to IP
   * neighbours, a normalization that succeeds leaves exactly what is not the daemon's and detaches each claimed
   * neighbour, once.
   */
  method NormalizeStartup(a: Actuator, shown: Option<string>, isIP: string -> bool, fault: nat, ghost printed: seq<Line>)
      returns (n: nat, ok: bool)
    requires Readable(shown, printed, a.config) && BoundByAddresses(a.config, isIP) && ForeignOk(a.config)
    modifies a
    ensures ok ==> Normalized(old(a.config), isIP, a.Contents()) && n == |Claimants(old(a.config))|
    ensures !ok ==> n == 0
  {
    ghost var w := a.Contents();
    ghost var bindings, names, lists;
    n, ok, bindings, names, lists := NormalizeApplied(a, shown, isIP, fault);
    if ok {
      SuccessCleans(a.dialect, w, isIP, bindings, names, lists, fault);
    }
  }

  lemma SoundClaims(w: World, isIP: string -> bool)
    requires Sound(w) && AllIPv4(isIP)
    ensures BoundByAddresses(w.config, isIP) && ForeignOk(w.config)
  {
    var counts :| Covers(counts, w);
  }

  /**
   * A daemon starts over the router of an earlier process. A failed normalization is not fatal: the daemon is
   * valid in any case, and if the normalization succeeded it knows its slot counts and all bindings.
   */
  method Boot(a: Actuator, dampener: Dampener, topTier: int, shown: Option<string>, isIP: string -> bool, fault: nat,
              ghost printed: seq<Line>) returns (daemon: Daemon, ok: bool)
    requires a.slotCounts == map[] && Sound(a.Contents()) && AllIPv4(isIP) && Readable(shown, printed, a.config)
    requires dampener.minDwell >= 0 && dampener.lastSwitch == map[]
    modifies a
    ensures fresh(daemon) && daemon.actuator == a && daemon.dampener == dampener && daemon.topTier == topTier
    ensures daemon.Valid() && daemon.appliedNeighbors == {} && daemon.history == []
    ensures ok ==> daemon.knows && Normalized(old(a.config), isIP, a.Contents())
  {
    ghost var w := a.Contents();
    SoundClaims(w, isIP);
    var n;
    ghost var bindings, names, lists;
    n, ok, bindings, names, lists := NormalizeApplied(a, shown, isIP, fault);
    if shown.Some? {
      NormalizeKeeps(a.dialect, w, isIP, bindings, names, lists, fault);
    }
    if ok {
      SuccessCleans(a.dialect, w, isIP, bindings, names, lists, fault);
    }
    daemon := new Daemon(a, dampener, topTier);
  }
}
