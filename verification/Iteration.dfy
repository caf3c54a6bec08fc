/** Steps 6 to 8 of the tick together: from measured legs to the routes that the router accepts. */
module Iteration {
  import opened Addresses
  import opened Names
  import opened Router
  import opened Actuate
  import opened TierScripts
  import opened Score
  import opened Rank
  import opened Decision
  import opened Mirror
  import opened Tick

  /** The updates that ranking hands over are what step 7 expects. */
  lemma GroupedActionable(rs: seq<Ranking>, t: Tiers)
    requires IPv4Rankings(rs)
    ensures Actionable(Grouped(AllUpdates(rs, t)))
  {
    var us := Grouped(AllUpdates(rs, t));
    GroupingConserves(AllUpdates(rs, t));
    forall i | 0 <= i < |us| ensures LegalUpdate(us[i]) && us[i].prefs != [] {
      GroupedLegal(rs, t, us[i]);
    }
  }

  /** Every leg of an in-scope prefix has an IPv4 neighbour, or none. */
  ghost predicate IPv4Legs(inScope: set<string>, cold: map<string, seq<PathCost>>) {
    && (forall prefix | prefix in inScope :: IsCidr(prefix))
    && (forall prefix, p | prefix in inScope && prefix in cold && p in cold[prefix] ::
          p.neighbor == "" || IsIPv4(p.neighbor))
  }

  lemma CollapsedIPv4(paths: seq<PathCost>, sqrt: real -> real)
    requires forall p | p in paths :: p.neighbor == "" || IsIPv4(p.neighbor)
    ensures forall i | 0 <= i < |Collapse(paths, sqrt)| :: IsIPv4(Collapse(paths, sqrt)[i].neighbor)
  {
    CollapsedNames(paths, sqrt);
    forall i | 0 <= i < |Order(paths)| ensures IsIPv4(Order(paths)[i]) {
      OrderNamed(paths, Order(paths)[i]);
    }
  }

  lemma {:induction false} OrderNamed(paths: seq<PathCost>, nb: string)
    requires nb in Order(paths)
    ensures nb != "" && exists p | p in paths :: p.neighbor == nb
  {
    var front, last := paths[..|paths| - 1], paths[|paths| - 1];
    if nb in Order(front) {
      OrderNamed(front, nb);
    } else {
      assert last in paths && last.neighbor == nb;
    }
  }

  lemma VisitedIPv4(rs: seq<Ranking>, inScope: set<string>, cold: map<string, seq<PathCost>>, sqrt: real -> real)
    requires Visited(rs, inScope, cold, sqrt) && IPv4Legs(inScope, cold)
    ensures IPv4Rankings(rs)
  {
    forall i | 0 <= i < |rs|
      ensures forall k | 0 <= k < |rs[i].ranked| :: IsIPv4(rs[i].ranked[k].neighbor) {
      assert RankingOf(rs[i], cold, sqrt);
      RankedIPv4(rs[i], inScope, cold, sqrt);
    }
  }

  lemma RankedIPv4(r: Ranking, inScope: set<string>, cold: map<string, seq<PathCost>>, sqrt: real -> real)
    requires r.prefix in inScope && IPv4Legs(inScope, cold) && RankingOf(r, cold, sqrt)
    ensures forall k | 0 <= k < |r.ranked| :: IsIPv4(r.ranked[k].neighbor)
  {
    var legs := if r.prefix in cold then cold[r.prefix] else [];
    CollapsedIPv4(legs, sqrt);
    CollapsedDistinct(legs, sqrt);
    forall k | 0 <= k < |r.ranked| ensures IsIPv4(r.ranked[k].neighbor) {
      RankedMembers(r.ranked, Collapse(legs, sqrt), k);
    }
  }

  lemma VisitedActionable(rs: seq<Ranking>, inScope: set<string>, cold: map<string, seq<PathCost>>, t: Tiers,
                          sqrt: real -> real)
    requires Visited(rs, inScope, cold, sqrt) && IPv4Legs(inScope, cold)
    ensures Actionable(Grouped(AllUpdates(rs, t)))
  {
    VisitedIPv4(rs, inScope, cold, sqrt);
    GroupedActionable(rs, t);
  }

  // ---------- what one iteration does

  /**
   * What one tick measures and meets: the clock as it is read for each neighbour, before its session and, if
   * that succeeds, after it; and how each session ends.
   */
  datatype Input = Input(inScope: set<string>, cold: map<string, seq<PathCost>>, allowAt: string -> int,
                         recordAt: string -> int, faults: string -> nat, removeFaults: string -> nat)

  ghost predicate Measured(input: Input) {
    IPv4Legs(input.inScope, input.cold) && forall nb :: input.allowAt(nb) <= input.recordAt(nb)
  }

  /** What survives from tick to tick, in the router and in the daemon; of the dampener, what it has seen. */
  datatype Memory = Memory(config: Config, counts: SlotCounts, history: seq<Actuation>, neighbors: set<string>)

  ghost function MemoryOf(daemon: Daemon): Memory
    reads daemon, daemon.actuator, daemon.dampener
  {
    Memory(daemon.actuator.config, daemon.actuator.slotCounts, daemon.history, daemon.appliedNeighbors)
  }

  function ForEach<V>(updates: seq<NeighborTierUpdate>, f: string -> V): (r: seq<V>)
    ensures |r| == |updates| && forall i | 0 <= i < |updates| :: r[i] == f(updates[i].neighbor)
  {
    seq(|updates|, i requires 0 <= i < |updates| => f(updates[i].neighbor))
  }

  /** The updates that the rankings lead to. */
  function UpdatesOf(rs: seq<Ranking>, t: Tiers): seq<NeighborTierUpdate> {
    Grouped(AllUpdates(rs, t))
  }

  /** The neighbours that the daemon touches: all their actuations so far are at least the dwell time old. */
  ghost function Touched(a: Memory, minDwell: int, updates: seq<NeighborTierUpdate>, input: Input): set<string> {
    set u | u in updates && Rested(a.history, u.neighbor, minDwell, input.allowAt(u.neighbor)) :: u.neighbor
  }

  /**
   * Applied are exactly the updates whose neighbour was last actuated at least the dwell time ago, if ever, and
   * whose session outlives a script with numbers that fit. A neighbour without an update is not.
   */
  ghost predicate ExactlyDue(a: Memory, minDwell: int, updates: seq<NeighborTierUpdate>, input: Input,
                             applied: set<string>) {
    && applied <= NamesOf(updates)
    && forall u | u in updates ::
         u.neighbor in applied <==>
           && (forall e | e in a.history && e.u.neighbor == u.neighbor :: input.allowAt(u.neighbor) - e.time >= minDwell)
           && Succeeds(a.counts, u, input.faults(u.neighbor))
  }

  /**
   * Every neighbour whose update was applied gets, for every prefix, the tier that the rankings decide, and the
   * rest of its routes pass unchanged; if the slot counts were lost, at least the ranked ones.
   */
  ghost predicate RoutesFollow(config: Config, rs: seq<Ranking>, t: Tiers, applied: set<string>, knows: bool) {
    forall nb, prefix, pref |
        nb in applied && ((knows && prefix != NEVER_CIDR) || Decided(rs, t, prefix, nb).Some?) ::
      Receive(config, nb, prefix, pref) == Accepted(Decided(rs, t, prefix, nb).GetOr(pref))
  }

  /** The history grows by one actuation of each applied neighbour, with its update and the time after its session. */
  ghost predicate NewActuations(h: seq<Actuation>, h': seq<Actuation>, updates: seq<NeighborTierUpdate>, input: Input,
                                applied: set<string>) {
    && |h| <= |h'| && h'[..|h|] == h
    && (forall i | |h| <= i < |h'| ::
          h'[i].u in updates && h'[i].u.neighbor in applied && h'[i].time == input.recordAt(h'[i].u.neighbor))
    && (forall i, j | |h| <= i < j < |h'| :: h'[i].u.neighbor != h'[j].u.neighbor)
    && (forall nb | nb in applied :: exists i :: |h| <= i < |h'| && h'[i].u.neighbor == nb)
  }

  /** The slot counts of the touched neighbours grow, whether their sessions succeed or not; no other does. */
  ghost predicate CountsGrow(before: SlotCounts, after: SlotCounts, updates: seq<NeighborTierUpdate>, touched: set<string>) {
    && (forall u | u in updates && u.neighbor in touched ::
          var name := MapName(u.neighbor); name in after && after[name] == Slots(before, name, |u.prefs|))
    && (forall name | (forall u | u in updates && u.neighbor in touched :: MapName(u.neighbor) != name) ::
          SameEntry(before, after, name))
  }

  /** What the daemon remembers afterwards. */
  ghost predicate Remembered(a: Memory, c: Memory, minDwell: int, updates: seq<NeighborTierUpdate>, input: Input,
                             applied: set<string>) {
    && c.neighbors == NamesOf(updates) && NewActuations(a.history, c.history, updates, input, applied)
    && CountsGrow(a.counts, c.counts, updates, Touched(a, minDwell, updates, input))
  }

  /**
   * What one iteration makes of memory a. Exactly the updates that go through are applied, and their neighbours'
   * routes follow the ranking. A neighbour that is suppressed, or neither ranked now nor drained, is as before.
   * The neighbours on record are the ranked ones; and if every removal lives through its detach, the daemon
   * keeps track of all its bindings.
   */
  ghost predicate IterationOutcome(a: Memory, c: Memory, minDwell: int, knows: bool, rs: seq<Ranking>, t: Tiers,
                                   input: Input, applied: set<string>) {
    var updates := UpdatesOf(rs, t);
    && ExactlyDue(a, minDwell, updates, input, applied)
    && RoutesFollow(c.config, rs, t, applied, knows)
    && Undisturbed(a.config, c.config, Touched(a, minDwell, updates, input) + (a.neighbors - c.neighbors))
    && Remembered(a, c, minDwell, updates, input, applied)
    && (forall nb :: nb in c.neighbors <==> RankedSomewhere(rs, nb))
    && (Tracked(a.config, a.neighbors) && (forall nb :: input.removeFaults(nb) >= 3) ==> Tracked(c.config, c.neighbors))
  }

  // ---------- from the tick to the iteration

  function AppliedNames(updates: seq<NeighborTierUpdate>, applied: seq<bool>): set<string>
    requires |applied| == |updates|
  {
    set i | 0 <= i < |updates| && applied[i] :: updates[i].neighbor
  }

  lemma DueApplied(a: Memory, minDwell: int, updates: seq<NeighborTierUpdate>, input: Input, ok: seq<bool>)
    requires Actionable(updates) && |ok| == |updates|
    requires AsHistoryAllows(a.history, minDwell, a.counts, updates, ok, ForEach(updates, input.allowAt),
                             ForEach(updates, input.faults))
    ensures ExactlyDue(a, minDwell, updates, input, AppliedNames(updates, ok))
  {
    forall u | u in updates
      ensures u.neighbor in AppliedNames(updates, ok) <==>
                && Rested(a.history, u.neighbor, minDwell, input.allowAt(u.neighbor))
                && Succeeds(a.counts, u, input.faults(u.neighbor)) {
      var i :| 0 <= i < |updates| && updates[i] == u;
      if u.neighbor in AppliedNames(updates, ok) {
        var j :| 0 <= j < |updates| && ok[j] && updates[j].neighbor == u.neighbor;
        assert i == j;
      }
    }
  }

  /** The dampener's last entries tell the daemon just whom to touch. */
  lemma TouchedActed(a: Memory, last: map<string, int>, minDwell: int, updates: seq<NeighborTierUpdate>, input: Input)
    requires Remembers(last, a.history)
    ensures Touched(a, minDwell, updates, input) ==
            Acted(last, minDwell, updates, ForEach(updates, input.allowAt), |updates|)
  {
    forall u | u in updates
      ensures Passing(last, minDwell, u, input.allowAt(u.neighbor)) <==>
              Rested(a.history, u.neighbor, minDwell, input.allowAt(u.neighbor)) {
      RestedPasses(a.history, last, minDwell, u, input.allowAt(u.neighbor));
    }
  }

  lemma AppliedFollow(config: Config, rs: seq<Ranking>, t: Tiers, ok: seq<bool>, knows: bool)
    requires WellRanked(rs) && |ok| == |UpdatesOf(rs, t)| && AllDeliver(config, UpdatesOf(rs, t), ok, knows)
    ensures RoutesFollow(config, rs, t, AppliedNames(UpdatesOf(rs, t), ok), knows)
  {
    var updates := UpdatesOf(rs, t);
    forall nb, prefix, pref |
        nb in AppliedNames(updates, ok) && ((knows && prefix != NEVER_CIDR) || Decided(rs, t, prefix, nb).Some?)
      ensures Receive(config, nb, prefix, pref) == Accepted(Decided(rs, t, prefix, nb).GetOr(pref)) {
      var i :| 0 <= i < |updates| && ok[i] && updates[i].neighbor == nb;
      UpdateDecides(rs, t, updates[i], prefix);
    }
  }

  lemma UpdatedRanked(rs: seq<Ranking>, t: Tiers)
    ensures forall nb :: nb in NamesOf(UpdatesOf(rs, t)) <==> RankedSomewhere(rs, nb)
  {
    var us := AllUpdates(rs, t);
    forall nb ensures nb in NamesOf(Grouped(us)) <==> RankedSomewhere(rs, nb) {
      AllUpdatesNeighbors(rs, t, nb);
      if nb in Rank.Neighbors(us) {
        var n :| 0 <= n < |Rank.Neighbors(us)| && Rank.Neighbors(us)[n] == nb;
        assert Grouped(us)[n].neighbor == nb;
      }
    }
  }

  /** Every recorded actuation is that of an applied update. */
  lemma {:induction false} Origin(updates: seq<NeighborTierUpdate>, ok: seq<bool>, candidates: Candidates, at: seq<int>,
                                  e: Actuation) returns (k: nat)
    requires |ok| <= |updates| == |at| && e in Applications(updates, ok, candidates, at)
    ensures k < |ok| && ok[k] && e == Actuation(at[k], updates[k], candidates)
  {
    var n := |ok| - 1;
    if e in Applications(updates, ok[..n], candidates, at) {
      k := Origin(updates, ok[..n], candidates, at, e);
    } else {
      k := n;
    }
  }

  lemma {:induction false} AppliedRecorded(updates: seq<NeighborTierUpdate>, ok: seq<bool>, candidates: Candidates,
                                           at: seq<int>, k: nat)
    requires |ok| <= |updates| == |at| && k < |ok| && ok[k]
    ensures Actuation(at[k], updates[k], candidates) in Applications(updates, ok, candidates, at)
    decreases |ok|
  {
    if k < |ok| - 1 {
      AppliedRecorded(updates, ok[..|ok| - 1], candidates, at, k);
    }
  }

  lemma {:induction false} RecordedOnce(updates: seq<NeighborTierUpdate>, ok: seq<bool>, candidates: Candidates,
                                        at: seq<int>, i: nat, j: nat)
    requires Actionable(updates) && |ok| <= |updates| == |at|
    requires i < j < |Applications(updates, ok, candidates, at)|
    ensures var added := Applications(updates, ok, candidates, at); added[i].u.neighbor != added[j].u.neighbor
    decreases |ok|
  {
    var n := |ok| - 1;
    var front := Applications(updates, ok[..n], candidates, at);
    if j < |front| {
      RecordedOnce(updates, ok[..n], candidates, at, i, j);
    } else {
      var k := Origin(updates, ok[..n], candidates, at, front[i]);
    }
  }

  lemma LoggedActuations(h: seq<Actuation>, h': seq<Actuation>, updates: seq<NeighborTierUpdate>, ok: seq<bool>,
                         candidates: Candidates, input: Input)
    requires Actionable(updates) && |ok| == |updates|
    requires Logged(h', h, updates, ok, candidates, ForEach(updates, input.recordAt))
    ensures NewActuations(h, h', updates, input, AppliedNames(updates, ok))
    ensures KeepsCandidates(h, h', candidates)
  {
    var at := ForEach(updates, input.recordAt);
    var added := Applications(updates, ok, candidates, at);
    forall i | |h| <= i < |h'|
      ensures h'[i].u in updates && h'[i].u.neighbor in AppliedNames(updates, ok)
      ensures h'[i].time == input.recordAt(h'[i].u.neighbor) && h'[i].candidates == candidates {
      var k := Origin(updates, ok, candidates, at, added[i - |h|]);
    }
    forall i, j | |h| <= i < j < |h'| ensures h'[i].u.neighbor != h'[j].u.neighbor {
      RecordedOnce(updates, ok, candidates, at, i - |h|, j - |h|);
    }
    forall nb | nb in AppliedNames(updates, ok) ensures exists i :: |h| <= i < |h'| && h'[i].u.neighbor == nb {
      var k :| 0 <= k < |ok| && ok[k] && updates[k].neighbor == nb;
      AppliedRecorded(updates, ok, candidates, at, k);
      var j :| 0 <= j < |added| && added[j] == Actuation(at[k], updates[k], candidates);
      assert h'[|h| + j] == added[j];
    }
  }

  predicate SameEntry(a: SlotCounts, b: SlotCounts, name: string) {
    (name in a <==> name in b) && (name in a ==> b[name] == a[name])
  }

  lemma {:induction false} GrownElsewhere(counts: SlotCounts, last: map<string, int>, minDwell: int,
                                          updates: seq<NeighborTierUpdate>, at: seq<int>, n: nat, name: string)
    requires n <= |updates| == |at|
    requires forall k | 0 <= k < n && Passing(last, minDwell, updates[k], at[k]) :: MapName(updates[k].neighbor) != name
    ensures SameEntry(counts, Grown(counts, last, minDwell, updates, at, n), name)
  {
    if n == 0 {
    } else {
      GrownElsewhere(counts, last, minDwell, updates, at, n - 1, name);
      assert Passing(last, minDwell, updates[n - 1], at[n - 1]) ==> MapName(updates[n - 1].neighbor) != name;
    }
  }

  ghost predicate DistinctMaps(updates: seq<NeighborTierUpdate>) {
    forall k, l | 0 <= k < l < |updates| :: MapName(updates[k].neighbor) != MapName(updates[l].neighbor)
  }

  lemma {:induction false} GrownAt(counts: SlotCounts, last: map<string, int>, minDwell: int,
                                   updates: seq<NeighborTierUpdate>, at: seq<int>, n: nat, k: nat)
    requires DistinctMaps(updates) && k < n <= |updates| == |at| && Passing(last, minDwell, updates[k], at[k])
    ensures var after, name := Grown(counts, last, minDwell, updates, at, n), MapName(updates[k].neighbor);
            name in after && after[name] == Slots(counts, name, |updates[k].prefs|)
    decreases n
  {
    if k == n - 1 {
      GrownElsewhere(counts, last, minDwell, updates, at, k, MapName(updates[k].neighbor));
    } else {
      GrownAt(counts, last, minDwell, updates, at, n - 1, k);
      assert MapName(updates[k].neighbor) != MapName(updates[n - 1].neighbor);
    }
  }

  lemma ActionableMaps(updates: seq<NeighborTierUpdate>)
    requires Actionable(updates)
    ensures DistinctMaps(updates)
  {
    forall k, l | 0 <= k < l < |updates| ensures MapName(updates[k].neighbor) != MapName(updates[l].neighbor) {
      if MapName(updates[k].neighbor) == MapName(updates[l].neighbor) {
        MapNameInjective(updates[k].neighbor, updates[l].neighbor);
      }
    }
  }

  lemma CountsRemembered(a: Memory, after: SlotCounts, last: map<string, int>, minDwell: int,
                         updates: seq<NeighborTierUpdate>, input: Input)
    requires Actionable(updates) && Remembers(last, a.history)
    requires after == Grown(a.counts, last, minDwell, updates, ForEach(updates, input.allowAt), |updates|)
    ensures CountsGrow(a.counts, after, updates, Touched(a, minDwell, updates, input))
  {
    var at, touched := ForEach(updates, input.allowAt), Touched(a, minDwell, updates, input);
    TouchedActed(a, last, minDwell, updates, input);
    ActionableMaps(updates);
    forall u | u in updates && u.neighbor in touched
      ensures MapName(u.neighbor) in after && after[MapName(u.neighbor)] == Slots(a.counts, MapName(u.neighbor), |u.prefs|) {
      var k :| 0 <= k < |updates| && updates[k] == u;
      GrownAt(a.counts, last, minDwell, updates, at, |updates|, k);
    }
    forall name | forall u | u in updates && u.neighbor in touched :: MapName(u.neighbor) != name
      ensures SameEntry(a.counts, after, name) {
      assert forall k | 0 <= k < |updates| :: updates[k] in updates;
      GrownElsewhere(a.counts, last, minDwell, updates, at, |updates|, name);
    }
  }

  lemma TickIterates(a: Memory, c: Memory, last: map<string, int>, last': map<string, int>, minDwell: int, knows: bool,
                     rs: seq<Ranking>, t: Tiers, input: Input, ok: seq<bool>, candidates: Candidates)
    requires WellRanked(rs) && Actionable(UpdatesOf(rs, t)) && |ok| == |UpdatesOf(rs, t)| && Remembers(last, a.history)
    requires var updates := UpdatesOf(rs, t);
             var at := ForEach(updates, input.allowAt);
             && c.neighbors == NamesOf(updates)
             && AsHistoryAllows(a.history, minDwell, a.counts, updates, ok, at, ForEach(updates, input.faults))
             && Records(c.history, last', c.counts, a.history, last, a.counts, minDwell, updates, ok, at,
                        ForEach(updates, input.recordAt), candidates)
             && TickOutcome(a.config, c.config, updates, Acted(last, minDwell, updates, at, |updates|), ok, a.neighbors,
                            input.removeFaults, knows)
    ensures IterationOutcome(a, c, minDwell, knows, rs, t, input, AppliedNames(UpdatesOf(rs, t), ok))
    ensures KeepsCandidates(a.history, c.history, candidates)
  {
    var updates := UpdatesOf(rs, t);
    DueApplied(a, minDwell, updates, input, ok);
    AppliedFollow(c.config, rs, t, ok, knows);
    UpdatedRanked(rs, t);
    TouchedActed(a, last, minDwell, updates, input);
    LoggedActuations(a.history, c.history, updates, ok, candidates, input);
    CountsRemembered(a, c.counts, last, minDwell, updates, input);
  }

  /** With every new actuation the history keeps the composites of the candidates of this input. */
  ghost predicate NewRecorded(h: seq<Actuation>, h': seq<Actuation>, input: Input, sqrt: real -> real) {
    forall i | |h| <= i < |h'| :: Recorded(h'[i].candidates, input.inScope, input.cold, sqrt)
  }

  /** An actuation keeps the candidates of its tick. */
  ghost predicate KeepsCandidates(h: seq<Actuation>, h': seq<Actuation>, candidates: Candidates) {
    forall i | |h| <= i < |h'| :: h'[i].candidates == candidates
  }

  lemma KeptRecorded(h: seq<Actuation>, h': seq<Actuation>, candidates: Candidates, input: Input, sqrt: real -> real)
    requires KeepsCandidates(h, h', candidates) && Recorded(candidates, input.inScope, input.cold, sqrt)
    ensures NewRecorded(h, h', input, sqrt)
  {
  }

  /** One iteration, whatever order the maps are walked in, whichever sort ranks, and whichever sessions die. */
  method Iterate(daemon: Daemon, input: Input, t: Tiers, sqrt: real -> real)
      returns (ghost rs: seq<Ranking>, applied: set<string>)
    requires daemon.Valid() && Measured(input) && daemon.topTier == t.top
    modifies daemon, daemon.actuator, daemon.dampener
    ensures daemon.Valid() && Visited(rs, input.inScope, input.cold, sqrt)
    ensures IterationOutcome(old(MemoryOf(daemon)), MemoryOf(daemon), daemon.dampener.minDwell, daemon.knows,
                             rs, t, input, applied)
    ensures NewRecorded(old(daemon.history), daemon.history, input, sqrt)
  {
    var updates, candidates;
    updates, candidates, rs := RankScope(input.inScope, input.cold, t, sqrt);
    VisitedActionable(rs, input.inScope, input.cold, t, sqrt);
    ghost var a, last := MemoryOf(daemon), daemon.dampener.lastSwitch;
    var at := ForEach(updates, input.allowAt);
    var ok := daemon.Tick(updates, candidates, at, ForEach(updates, input.recordAt), ForEach(updates, input.faults),
                          input.removeFaults);
    TickIterates(a, MemoryOf(daemon), last, daemon.dampener.lastSwitch, daemon.dampener.minDwell, daemon.knows, rs, t,
                 input, ok, candidates);
    KeptRecorded(a.history, daemon.history, candidates, input, sqrt);
    applied := AppliedNames(updates, ok);
  }

  // ---------- the daemon's life

  /** One tick of a life: its rankings, and the neighbours whose updates were applied. */
  datatype Turn = Turn(rs: seq<Ranking>, applied: set<string>)

  /** The memories before, between and after the ticks, each the outcome of the one before it. */
  ghost predicate Lives(trace: seq<Memory>, turns: seq<Turn>, inputs: seq<Input>, minDwell: int, knows: bool,
                        t: Tiers, sqrt: real -> real) {
    && |trace| == |turns| + 1 && |turns| <= |inputs| && TrackedIf(trace[0], trace[|turns|], inputs)
    && forall i {:trigger turns[i]} | 0 <= i < |turns| ::
         && Visited(turns[i].rs, inputs[i].inScope, inputs[i].cold, sqrt)
         && IterationOutcome(trace[i], trace[i + 1], minDwell, knows, turns[i].rs, t, inputs[i], turns[i].applied)
  }

  lemma LivesOn(trace: seq<Memory>, turns: seq<Turn>, inputs: seq<Input>, minDwell: int, knows: bool, t: Tiers,
                sqrt: real -> real, m: Memory, turn: Turn)
    requires Lives(trace, turns, inputs, minDwell, knows, t, sqrt) && |turns| < |inputs|
    requires Visited(turn.rs, inputs[|turns|].inScope, inputs[|turns|].cold, sqrt)
    requires IterationOutcome(trace[|turns|], m, minDwell, knows, turn.rs, t, inputs[|turns|], turn.applied)
    ensures Lives(trace + [m], turns + [turn], inputs, minDwell, knows, t, sqrt)
  {
    TrackedOn(trace[0], trace[|turns|], m, inputs, |turns|, minDwell, knows, turn.rs, t, turn.applied);
    var trace', turns' := trace + [m], turns + [turn];
    forall i | 0 <= i < |turns'|
      ensures Visited(turns'[i].rs, inputs[i].inScope, inputs[i].cold, sqrt)
      ensures IterationOutcome(trace'[i], trace'[i + 1], minDwell, knows, turns'[i].rs, t, inputs[i], turns'[i].applied)
    {
      if i < |turns| {
        assert turns'[i] == turns[i] && trace'[i] == trace[i] && trace'[i + 1] == trace[i + 1];
      }
    }
  }

  /**
   * Any number of ticks: every one of them has the outcome above, on what the one before it left. From a start
   * without unknown bindings, and with removals that live through their detach, every neighbour bound to an
   * owned map is in the end among those ranked in the last tick, suppressed and failed ones included.
   */
  method RunTicks(daemon: Daemon, inputs: seq<Input>, t: Tiers, sqrt: real -> real)
      returns (ghost trace: seq<Memory>, ghost turns: seq<Turn>)
    requires daemon.Valid() && daemon.topTier == t.top
    requires forall i | 0 <= i < |inputs| :: Measured(inputs[i])
    modifies daemon, daemon.actuator, daemon.dampener
    ensures daemon.Valid() && |turns| == |inputs|
    ensures Lives(trace, turns, inputs, daemon.dampener.minDwell, daemon.knows, t, sqrt)
    ensures trace[0] == old(MemoryOf(daemon)) && trace[|inputs|] == MemoryOf(daemon)
  {
    trace, turns := [MemoryOf(daemon)], [];
    for i := 0 to |inputs|
      invariant daemon.Valid() && |turns| == i
      invariant Lives(trace, turns, inputs, daemon.dampener.minDwell, daemon.knows, t, sqrt)
      invariant trace[0] == old(MemoryOf(daemon)) && trace[i] == MemoryOf(daemon)
    {
      trace, turns := RunTick(daemon, inputs, i, t, sqrt, trace, turns);
    }
  }

  /** The tick after a life of i ticks. */
  method RunTick(daemon: Daemon, inputs: seq<Input>, i: nat, t: Tiers, sqrt: real -> real, ghost trace: seq<Memory>,
                 ghost turns: seq<Turn>) returns (ghost trace': seq<Memory>, ghost turns': seq<Turn>)
    requires daemon.Valid() && daemon.topTier == t.top && i == |turns| < |inputs| && Measured(inputs[i])
    requires Lives(trace, turns, inputs, daemon.dampener.minDwell, daemon.knows, t, sqrt)
    requires trace[i] == MemoryOf(daemon)
    modifies daemon, daemon.actuator, daemon.dampener
    ensures daemon.Valid() && |turns'| == i + 1
    ensures Lives(trace', turns', inputs, daemon.dampener.minDwell, daemon.knows, t, sqrt)
    ensures trace'[0] == trace[0] && trace'[i + 1] == MemoryOf(daemon)
  {
    var applied;
    ghost var rs;
    rs, applied := Iterate(daemon, inputs[i], t, sqrt);
    LivesOn(trace, turns, inputs, daemon.dampener.minDwell, daemon.knows, t, sqrt, MemoryOf(daemon), Turn(rs, applied));
    trace', turns' := trace + [MemoryOf(daemon)], turns + [Turn(rs, applied)];
  }

  ghost predicate TrackedIf(a: Memory, c: Memory, inputs: seq<Input>) {
    Tracked(a.config, a.neighbors) && (forall i, nb | 0 <= i < |inputs| :: inputs[i].removeFaults(nb) >= 3) ==>
      Tracked(c.config, c.neighbors)
  }

  lemma TrackedOn(a: Memory, b: Memory, c: Memory, inputs: seq<Input>, i: nat, minDwell: int, knows: bool,
                  rs: seq<Ranking>, t: Tiers, applied: set<string>)
    requires i < |inputs| && TrackedIf(a, b, inputs)
    requires IterationOutcome(b, c, minDwell, knows, rs, t, inputs[i], applied)
    ensures TrackedIf(a, c, inputs)
  {
  }
}
