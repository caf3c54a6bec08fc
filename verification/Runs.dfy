/**
 * Whole runs: any sequence of updates, removals, normalizations and restarts of the daemon; each script may die
 * anywhere, and a restart loses the slot counts.
 */
module Runs {
  import opened Addresses
  import opened Names
  import opened Router
  import opened Actuate
  import opened RunningConfig
  import opened Invariant
  import opened TierScripts
  import opened Compilation
  import opened Normalization
  import opened Isolation
  import opened Restart

  datatype Op =
    | Update(u: NeighborTierUpdate, fault: nat)
    | Removal(neighbor: string, fault: nat)
    | Normalization(bindings: seq<AppliedBinding>, names: seq<string>, lists: seq<string>, fault: nat)
    | Restarted

  function Apply(d: Dialect, w: World, op: Op): World {
    match op
    case Update(u, fault) => SetTiers(d, w, u, fault).0
    case Removal(nb, fault) => RemoveTiers(d, w, nb, fault).0
    case Normalization(bindings, names, lists, fault) => Normalize(d, w, bindings, names, lists, fault).0
    case Restarted => World(w.config, map[])
  }

  function ScriptOf(w: World, op: Op): seq<Command> {
    match op
    case Update(u, _) => if u.prefs == [] then [] else TierScript(u, SlotsOf(w, u))
    case Removal(nb, _) => RemoveScript(nb)
    case Normalization(bindings, names, lists, _) =>
      if names == [] && lists == [] then [] else NormalizeScript(bindings, names, lists)
    case Restarted => []
  }

  /** IPv4 neighbours and prefixes; a normalization acts on what the router shows at that moment. */
  ghost predicate Legal(w: World, isIP: string -> bool, op: Op) {
    match op
    case Update(u, _) => LegalUpdate(u)
    case Removal(nb, _) => IsIPv4(nb)
    case Normalization(bindings, names, lists, _) => Extracted(w.config, isIP, bindings, names, lists)
    case Restarted => true
  }

  function Execute(d: Dialect, w: World, ops: seq<Op>): World
    decreases |ops|
  {
    if ops == [] then w else Execute(d, Apply(d, w, ops[0]), ops[1..])
  }

  ghost predicate LegalRun(d: Dialect, w: World, isIP: string -> bool, ops: seq<Op>)
    decreases |ops|
  {
    ops == [] || (Legal(w, isIP, ops[0]) && LegalRun(d, Apply(d, w, ops[0]), isIP, ops[1..]))
  }

  /** Every script of the run, in the world in which it is sent, frees nothing that is in use. */
  ghost predicate SafeRun(d: Dialect, w: World, ops: seq<Op>)
    decreases |ops|
  {
    ops == [] ||
    (HazardFree(d, Session(w.config, Enable), ScriptOf(w, ops[0])) && SafeRun(d, Apply(d, w, ops[0]), ops[1..]))
  }

  /** No owned map, list or binding; and foreign maps do not match on owned lists. */
  ghost predicate CleanStart(config: Config) {
    && (forall name | name in config.maps :: !OwnedMap(name))
    && (forall list | list in config.lists :: !OwnedList(list))
    && (forall nb | nb in config.inbound :: !OwnedMap(config.inbound[nb]))
    && (forall nb | nb in config.outbound :: !OwnedMap(config.outbound[nb]))
    && ForeignOk(config)
  }

  lemma CleanStartGood(config: Config)
    requires CleanStart(config)
    ensures Good(World(config, map[]))
  {
    forall p ensures OwnedList(ScopeList(p)) && OwnedList(NEVER_LIST) {
      Ownership("", p);
    }
  }

  ghost predicate AllIPv4(isIP: string -> bool) {
    forall nb | IsIPv4(nb) :: isIP(nb)
  }

  /** Whether the daemon's counts are known to bound the slots: not after a restart, until a normalization succeeds. */
  function KnowsAfter(d: Dialect, w: World, knows: bool, op: Op): bool {
    match op
    case Restarted => false
    case Normalization(bindings, names, lists, fault) => knows || Normalize(d, w, bindings, names, lists, fault).1
    case _ => knows
  }

  function Knows(d: Dialect, w: World, knows: bool, ops: seq<Op>): bool
    decreases |ops|
  {
    if ops == [] then knows else Knows(d, Apply(d, w, ops[0]), KnowsAfter(d, w, knows, ops[0]), ops[1..])
  }

  /** Normalization of a router under lost counts is safe, and when it succeeds nothing is lost any more. */
  lemma NormalizeKeeps(d: Dialect, w: World, isIP: string -> bool, bindings: seq<AppliedBinding>, names: seq<string>,
                       lists: seq<string>, fault: nat)
    requires Sound(w) && AllIPv4(isIP) && Extracted(w.config, isIP, bindings, names, lists)
    ensures var r := Normalize(d, w, bindings, names, lists, fault);
            && Sound(r.0) && (r.1 || Good(w) ==> Good(r.0))
    ensures HazardFree(d, Session(w.config, Enable), NormalizeScript(bindings, names, lists))
  {
    var counts :| Covers(counts, w);
    NormalizeCovers(d, counts, w, isIP, bindings, names, lists, fault);
    if Good(w) {
      NormalizeSafe(d, w, isIP, bindings, names, lists, fault);
    }
  }

  lemma NormalizeCovers(d: Dialect, counts: SlotCounts, w: World, isIP: string -> bool, bindings: seq<AppliedBinding>,
                        names: seq<string>, lists: seq<string>, fault: nat)
    requires Covers(counts, w) && AllIPv4(isIP) && Extracted(w.config, isIP, bindings, names, lists)
    ensures var r := Normalize(d, w, bindings, names, lists, fault);
            && Covers(if r.1 && (names != [] || lists != []) then map[] else counts, r.0)
            && (r.1 ==> Good(r.0))
    ensures HazardFree(d, Session(w.config, Enable), NormalizeScript(bindings, names, lists))
  {
    NormalizeSafe(d, World(w.config, counts), isIP, bindings, names, lists, fault);
    if names == [] && lists == [] {
      assert forall name | name in w.config.maps && OwnedMap(name) :: name in names;
    }
  }

  lemma ApplyKeeps(d: Dialect, w: World, knows: bool, isIP: string -> bool, op: Op)
    requires Kept(w, knows) && AllIPv4(isIP) && Legal(w, isIP, op)
    ensures Kept(Apply(d, w, op), KnowsAfter(d, w, knows, op))
    ensures HazardFree(d, Session(w.config, Enable), ScriptOf(w, op))
  {
    match op
    case Update(u, fault) => SetTiersSafe(d, w, u, fault);
    case Removal(nb, fault) => RemoveTiersSafe(d, w, nb, fault);
    case Normalization(bindings, names, lists, fault) => NormalizeKeeps(d, w, isIP, bindings, names, lists, fault);
    case Restarted =>
      var counts :| Covers(counts, w);
      assert Covers(counts, World(w.config, map[]));
  }

  lemma {:induction false} RunKeeps(d: Dialect, w: World, knows: bool, isIP: string -> bool, ops: seq<Op>)
    requires Kept(w, knows) && AllIPv4(isIP) && LegalRun(d, w, isIP, ops)
    ensures Kept(Execute(d, w, ops), Knows(d, w, knows, ops)) && SafeRun(d, w, ops)
    decreases |ops|
  {
    if ops == [] {
    } else {
      ApplyKeeps(d, w, knows, isIP, ops[0]);
      RunKeeps(d, Apply(d, w, ops[0]), KnowsAfter(d, w, knows, ops[0]), isIP, ops[1..]);
    }
  }

  lemma CleanRun(d: Dialect, config: Config, isIP: string -> bool, ops: seq<Op>)
    requires CleanStart(config) && AllIPv4(isIP) && LegalRun(d, World(config, map[]), isIP, ops)
    ensures var w := World(config, map[]);
            Kept(Execute(d, w, ops), Knows(d, w, true, ops)) && SafeRun(d, w, ops)
  {
    CleanStartGood(config);
    GoodIsSound(World(config, map[]));
    RunKeeps(d, World(config, map[]), true, isIP, ops);
  }

  /**
   * The main theorem, part one. From a clean router, over any legal run, restarts and failed normalizations
   * included: no bound route-map and no referenced prefix-list is ever freed, and at the end of the run (hence,
   * because the last call may die after any command, at every command boundary) an owned map denies no route.
   */
  lemma RunSafe(d: Dialect, config: Config, isIP: string -> bool, ops: seq<Op>, nb: string, prefix: string, pref: int)
    requires CleanStart(config) && AllIPv4(isIP) && LegalRun(d, World(config, map[]), isIP, ops)
    ensures SafeRun(d, World(config, map[]), ops)
    ensures var end := Execute(d, World(config, map[]), ops).config;
            nb in end.inbound && OwnedMap(end.inbound[nb]) ==> Receive(end, nb, prefix, pref).Accepted?
  {
    CleanRun(d, config, isIP, ops);
    var end := Execute(d, World(config, map[]), ops);
    if nb in end.config.inbound && OwnedMap(end.config.inbound[nb]) {
      var counts :| Covers(counts, end);
      NeverDenied(end.config, counts, nb, prefix, pref);
    }
  }

  /**
   * Part two. After any such run a successful update gives its neighbour's routes exactly the
   * local-preferences it lists. It passes all others, unless the counts were lost and never regained: then one
   * gets what the first sequence above the rewritten slots still says. Every other neighbour's routes are left
   * alone in any case.
   */
  lemma RunThenUpdate(
      d: Dialect, config: Config, isIP: string -> bool, ops: seq<Op>, u: NeighborTierUpdate, fault: nat,
      other: string, prefix: string, pref: int)
    requires CleanStart(config) && AllIPv4(isIP) && LegalRun(d, World(config, map[]), isIP, ops)
    requires LegalUpdate(u) && u.prefs != [] && prefix != NEVER_CIDR && other != u.neighbor
    ensures var w := Execute(d, World(config, map[]), ops);
            var (end, ok) := SetTiers(d, w, u, fault);
            var stale := StalePref(w.config, MapName(u.neighbor), SlotsOf(w, u), prefix);
            && (ok ==> Receive(end.config, u.neighbor, prefix, pref) ==
                       Accepted(Assigned(u.prefs, prefix).GetOr(stale.GetOr(pref))))
            && (ok && Knows(d, World(config, map[]), true, ops) ==>
                  Receive(end.config, u.neighbor, prefix, pref) == Accepted(Assigned(u.prefs, prefix).GetOr(pref)))
            && Receive(end.config, other, prefix, pref) == Receive(w.config, other, prefix, pref)
  {
    CleanRun(d, config, isIP, ops);
    var w := Execute(d, World(config, map[]), ops);
    OthersUnaffected(d, w, u, fault, other, prefix, pref);
    if SetTiers(d, w, u, fault).1 {
      UpdateVerdict(d, w, u, fault, prefix, pref);
    }
  }

  // ---------- the limits of the design

  /** What an operation within the life of one process is. */
  predicate InProcess(op: Op) {
    op.Update? || op.Removal?
  }

  /**
   * The slot counts only shrink in a completed normalization or a restart. So once one is beyond 6553, every
   * update of that neighbour fails, however small, for as long as the process runs.
   */
  lemma {:induction false} CountForever(d: Dialect, w: World, ops: seq<Op>, u: NeighborTierUpdate, fault: nat,
                                        isIP: string -> bool)
    requires Sound(w) && AllIPv4(isIP) && LegalRun(d, w, isIP, ops) && LegalUpdate(u) && u.prefs != []
    requires MapName(u.neighbor) in w.counts && w.counts[MapName(u.neighbor)] > MAX_SLOTS
    requires forall op | op in ops :: InProcess(op)
    ensures !SetTiers(d, Execute(d, w, ops), u, fault).1
    decreases |ops|
  {
    if ops == [] {
      SetTiersListed(d, w, u, fault, "", 0);
    } else {
      assert ops[0] in ops;
      ApplyKeeps(d, w, false, isIP, ops[0]);
      CountForever(d, Apply(d, w, ops[0]), ops[1..], u, fault, isIP);
    }
  }

  /**
   * One update of more than 6553 prefixes fails, and makes every later update of its neighbour fail, however
   * small, for as long as the process runs: the counts grow before vtysh is even called.
   */
  lemma OversizedForever(d: Dialect, w: World, big: NeighborTierUpdate, bigFault: nat, ops: seq<Op>,
                         u: NeighborTierUpdate, fault: nat, isIP: string -> bool)
    requires Sound(w) && AllIPv4(isIP) && LegalUpdate(big) && |big.prefs| > MAX_SLOTS
    requires LegalRun(d, SetTiers(d, w, big, bigFault).0, isIP, ops) && forall op | op in ops :: InProcess(op)
    requires LegalUpdate(u) && u.prefs != [] && u.neighbor == big.neighbor
    ensures !SetTiers(d, w, big, bigFault).1
    ensures !SetTiers(d, Execute(d, SetTiers(d, w, big, bigFault).0, ops), u, fault).1
  {
    SetTiersListed(d, w, big, bigFault, "", 0);
    SetTiersSafe(d, w, big, bigFault);
    CountForever(d, SetTiers(d, w, big, bigFault).0, ops, u, fault, isIP);
  }
}
