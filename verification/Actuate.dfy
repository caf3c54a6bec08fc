/** The route-map compiler of internal/actuate/actuate.go: tier decisions to vtysh scripts. */
module Actuate {
  import opened Names
  import opened Router

  datatype PrefixPref = PrefixPref(prefix: string, localPref: int)

  datatype NeighborTierUpdate = NeighborTierUpdate(neighbor: string, prefs: seq<PrefixPref>)

  const SLOT_STEP: nat := 10
  const MIN_SLOTS: nat := 32
  const LIST_SEQ: nat := 5

  type SlotCounts = map<string, nat>

  /** The slot count a route-map gets: at least needed, at least the floor, never less than before. */
  function Slots(counts: SlotCounts, name: string, needed: nat): (n: nat)
    ensures n >= needed && n >= MIN_SLOTS && (name in counts ==> n >= counts[name])
    ensures n == needed || n == MIN_SLOTS || (name in counts && n == counts[name])
  {
    var before := if name in counts then counts[name] else 0;
    var grown := if needed > before then needed else before;
    if grown < MIN_SLOTS then MIN_SLOTS else grown
  }

  function SlotSeq(k: nat): nat {
    (k + 1) * SLOT_STEP
  }

  // ---------- the scripts, built up in the order in which they are written

  function ListDecl(pp: PrefixPref): seq<Command> {
    [DeclareList(ScopeList(pp.prefix), LIST_SEQ, pp.prefix)]
  }

  function ListDecls(prefs: seq<PrefixPref>, n: nat): seq<Command>
    requires n <= |prefs|
  {
    if n == 0 then [] else ListDecls(prefs, n - 1) + ListDecl(prefs[n - 1])
  }

  function SlotBlock(name: string, prefs: seq<PrefixPref>, k: nat): seq<Command> {
    [EnterMap(name, SlotSeq(k))] +
    (if k < |prefs| then [MatchList(ScopeList(prefs[k].prefix)), SetPref(prefs[k].localPref)]
     else [MatchList(NEVER_LIST)]) +
    [Exit]
  }

  function SlotBlocks(name: string, prefs: seq<PrefixPref>, n: nat): seq<Command> {
    if n == 0 then [] else SlotBlocks(name, prefs, n - 1) + SlotBlock(name, prefs, n - 1)
  }

  function TierHead(prefs: seq<PrefixPref>): seq<Command> {
    [Configure] + ListDecls(prefs, |prefs|) + [DeclareList(NEVER_LIST, LIST_SEQ, NEVER_CIDR)]
  }

  function TierTail(neighbor: string): seq<Command> {
    var name := MapName(neighbor);
    [EnterMap(name, MAX_SEQ), Exit, RouterBgp, Bind(neighbor, name), Exit, Exit]
  }

  function TierScript(u: NeighborTierUpdate, slots: nat): seq<Command> {
    TierHead(u.prefs) + SlotBlocks(MapName(u.neighbor), u.prefs, slots) + TierTail(u.neighbor)
  }

  function RemoveScript(neighbor: string): seq<Command> {
    var name := MapName(neighbor);
    [Configure, RouterBgp, Unbind(neighbor, name), Exit, DeleteMap(name), Exit]
  }

  // ---------- the effect of a call

  /** The router's configuration and the daemon's slot counts. */
  datatype World = World(config: Config, counts: SlotCounts)

  /** SetNeighborTiers: the counts grow before vtysh runs, and stay grown if it fails. */
  function SetTiers(d: Dialect, w: World, u: NeighborTierUpdate, fault: nat): (World, bool) {
    if u.prefs == [] then (w, true) else
      var name := MapName(u.neighbor);
      var slots := Slots(w.counts, name, |u.prefs|);
      var r := Vtysh(d, w.config, TierScript(u, slots), fault);
      (World(r.0, w.counts[name := slots]), r.1)
  }

  function RemoveTiers(d: Dialect, w: World, neighbor: string, fault: nat): (World, bool) {
    var r := Vtysh(d, w.config, RemoveScript(neighbor), fault);
    (w.(config := r.0), r.1)
  }

  /** The text SetNeighborTiers writes: one pass over the prefixes, one over the slots. */
  method WriteTierScript(u: NeighborTierUpdate, name: string, slots: nat) returns (b: seq<Command>)
    requires name == MapName(u.neighbor)
    ensures b == TierScript(u, slots)
  {
    b := WriteLists(u.prefs);
    var blocks := WriteSlots(u.prefs, name, slots);
    b := b + blocks;
    b := b + [EnterMap(name, MAX_SEQ)] + [Exit];
    b := b + [RouterBgp] + [Bind(u.neighbor, name)] + [Exit] + [Exit];
    assert b == TierScript(u, slots);
  }

  method WriteLists(prefs: seq<PrefixPref>) returns (b: seq<Command>)
    ensures b == TierHead(prefs)
  {
    b := [Configure];
    for i := 0 to |prefs|
      invariant b == [Configure] + ListDecls(prefs, i)
    {
      var prefixSlug := SanitizeRouteMapName(prefs[i].prefix);
      b := b + [DeclareList(SCOPE_PREFIX + prefixSlug, LIST_SEQ, prefs[i].prefix)];
    }
    b := b + [DeclareList(NEVER_LIST, LIST_SEQ, NEVER_CIDR)];
  }

  method WriteSlots(prefs: seq<PrefixPref>, name: string, slots: nat) returns (b: seq<Command>)
    ensures b == SlotBlocks(name, prefs, slots)
  {
    b := [];
    for k := 0 to slots
      invariant b == SlotBlocks(name, prefs, k)
    {
      ghost var before := b;
      b := b + [EnterMap(name, (k + 1) * SLOT_STEP)];
      if k < |prefs| {
        var prefixSlug := SanitizeRouteMapName(prefs[k].prefix);
        b := b + [MatchList(SCOPE_PREFIX + prefixSlug)] + [SetPref(prefs[k].localPref)];
      } else {
        b := b + [MatchList(NEVER_LIST)];
      }
      b := b + [Exit];
      assert b == before + SlotBlock(name, prefs, k);
    }
  }

  /** The package state, with the router that vtysh talks to. */
  class Actuator {
    const dialect: Dialect
    var config: Config
    var slotCounts: SlotCounts

    constructor (dialect: Dialect, config: Config)
      ensures this.dialect == dialect && Contents() == World(config, map[])
    {
      this.dialect, this.config, slotCounts := dialect, config, map[];
    }

    function Contents(): World
      reads this
    {
      World(config, slotCounts)
    }

    method SlotsFor(name: string, needed: nat) returns (n: nat)
      modifies this`slotCounts
      ensures n == Slots(old(slotCounts), name, needed)
      ensures slotCounts == old(slotCounts)[name := n]
    {
      n := if name in slotCounts then slotCounts[name] else 0;
      if needed > n {
        n := needed;
      }
      if n < MIN_SLOTS {
        n := MIN_SLOTS;
      }
      slotCounts := slotCounts[name := n];
    }

    method RunVtysh(script: seq<Command>, fault: nat) returns (ok: bool)
      modifies this`config
      ensures (config, ok) == Vtysh(dialect, old(config), script, fault)
    {
      var r := Vtysh(dialect, config, script, fault);
      config, ok := r.0, r.1;
    }

    method SetNeighborTiers(u: NeighborTierUpdate, fault: nat) returns (ok: bool)
      modifies this
      ensures (Contents(), ok) == SetTiers(dialect, old(Contents()), u, fault)
      ensures u.prefs == [] ==> ok && Contents() == old(Contents())
    {
      if u.prefs == [] {
        return true;
      }
      var slug := SanitizeRouteMapName(u.neighbor);
      var name := MAP_PREFIX + slug;
      var slots := SlotsFor(name, |u.prefs|);

      var b := WriteTierScript(u, name, slots);
      ok := RunVtysh(b, fault);
    }

    method RemoveNeighborTiers(neighbor: string, fault: nat) returns (ok: bool)
      modifies this`config
      ensures (Contents(), ok) == RemoveTiers(dialect, old(Contents()), neighbor, fault)
    {
      var slug := SanitizeRouteMapName(neighbor);
      var b := [Configure];
      b := b + [RouterBgp] + [Unbind(neighbor, MAP_PREFIX + slug)] + [Exit];
      b := b + [DeleteMap(MAP_PREFIX + slug)] + [Exit];
      assert b == RemoveScript(neighbor);
      ok := RunVtysh(b, fault);
    }
  }
}
