/**
 * Steps 7 and 8 of the daemon's tick (cmd/daemon/main.go): actuate what the dampener allows, keep the
 * active mirror, and remove the neighbours that no longer have candidates.
 */
module Tick {
  import opened Addresses
  import opened Names
  import opened Router
  import opened Actuate
  import opened Invariant
  import opened TierScripts
  import opened Compilation
  import opened Isolation
  import opened Restart
  import opened Mirror

  // ---------- what a tick may disturb

  /** Every neighbour outside S has the binding and the verdicts it had. */
  ghost predicate Undisturbed(a: Config, b: Config, S: set<string>) {
    forall nb | nb !in S ::
      && (nb in a.inbound <==> nb in b.inbound)
      && (nb in a.inbound ==> b.inbound[nb] == a.inbound[nb])
      && forall prefix, pref :: Receive(b, nb, prefix, pref) == Receive(a, nb, prefix, pref)
  }

  ghost predicate OwnedBound(config: Config, nb: string) {
    nb in config.inbound && OwnedMap(config.inbound[nb])
  }

  /** The daemon knows of every binding to an owned map. */
  ghost predicate Tracked(config: Config, S: set<string>) {
    forall nb | OwnedBound(config, nb) :: nb in S
  }

  lemma TouchesUndisturbed(a: Config, b: Config, counts: SlotCounts, nb: string)
    requires Inv(a, counts) && Touches(a, b, nb) && IsIPv4(nb)
    ensures Undisturbed(a, b, {nb})
  {
    forall other | other !in {nb}
      ensures other in a.inbound <==> other in b.inbound
      ensures other in a.inbound ==> b.inbound[other] == a.inbound[other]
      ensures forall prefix, pref :: Receive(b, other, prefix, pref) == Receive(a, other, prefix, pref)
    {
      assert other in a.inbound <==> other in (a.inbound - {nb});
      assert other in b.inbound <==> other in (b.inbound - {nb});
      assert other in a.inbound ==> (a.inbound - {nb})[other] == (b.inbound - {nb})[other];
      forall prefix, pref ensures Receive(b, other, prefix, pref) == Receive(a, other, prefix, pref) {
        TouchesIsolated(a, b, counts, nb, other, prefix, pref);
      }
    }
  }

  lemma UndisturbedTransitive(a: Config, b: Config, c: Config, S: set<string>, T: set<string>)
    requires Undisturbed(a, b, S) && Undisturbed(b, c, T)
    ensures Undisturbed(a, c, S + T)
  {
  }

  /** A removal detaches its neighbour exactly when vtysh lives through the third command. */
  lemma RemovalDetaches(d: Dialect, w: World, nb: string, fault: nat)
    requires Sound(w) && IsIPv4(nb) && OwnedBound(w.config, nb)
    ensures OwnedBound(RemoveTiers(d, w, nb, fault).0.config, nb) <==> fault < 3
  {
    var s := Session(w.config, Enable);
    if fault >= 3 {
      RemovedInbound(d, w, nb, fault);
    } else if fault == 2 {
      assert RemoveScript(nb)[..2] == [Configure] + ([RouterBgp] + []);
      RunCons(d, s, Configure, [RouterBgp] + []);
      RunCons(d, Session(w.config, Top), RouterBgp, []);
    } else if fault == 1 {
      assert RemoveScript(nb)[..1] == [Configure] + [];
      RunCons(d, s, Configure, []);
    }
  }

  lemma RemovedInbound(d: Dialect, w: World, nb: string, fault: nat)
    requires Sound(w) && IsIPv4(nb) && OwnedBound(w.config, nb) && fault >= 3
    ensures nb !in RemoveTiers(d, w, nb, fault).0.config.inbound
  {
    var counts :| Covers(counts, w);
    var script, s := RemoveScript(nb), Session(w.config, Enable);
    var n := if fault < |script| then fault else |script|;
    assert script[..n] == DetachHead(nb) + script[3..n];
    assert script[..|script|] == script;
    DetachRun(d, w.config, nb);
    RunAppend(d, s, DetachHead(nb), script[3..n]);
    StaysUnbound(d, Session(w.config.(inbound := w.config.inbound - {nb}), InBgp), script[3..n], nb);
  }

  function DetachHead(nb: string): seq<Command> {
    [Configure] + ([RouterBgp] + ([Unbind(nb, MapName(nb))] + []))
  }

  lemma DetachRun(d: Dialect, config: Config, nb: string)
    requires nb in config.inbound && config.inbound[nb] == MapName(nb)
    ensures Run(d, Session(config, Enable), DetachHead(nb)) ==
            Outcome(Session(config.(inbound := config.inbound - {nb}), InBgp), true)
  {
    RunCons(d, Session(config, Enable), Configure, [RouterBgp] + ([Unbind(nb, MapName(nb))] + []));
    RunCons(d, Session(config, Top), RouterBgp, [Unbind(nb, MapName(nb))] + []);
    RunCons(d, Session(config, InBgp), Unbind(nb, MapName(nb)), []);
  }

  lemma {:induction false} StaysUnbound(d: Dialect, s: Session, script: seq<Command>, nb: string)
    requires nb !in s.config.inbound && forall c | c in script :: !c.Bind?
    ensures nb !in Run(d, s, script).session.config.inbound
    decreases |script|
  {
    if script == [] {
    } else {
      assert script[0] in script;
      match Step(d, s, script[0])
      case None =>
      case Some(t) => StaysUnbound(d, t, script[1..], nb);
    }
  }

  // ---------- the dampener

  /** A successful actuation: when it was recorded, and what it applied. */
  datatype Actuation = Actuation(time: int, u: NeighborTierUpdate, candidates: Candidates)

  class Dampener {
    const minDwell: int
    var lastSwitch: map<string, int>

    constructor (minDwell: int)
      ensures this.minDwell == minDwell && lastSwitch == map[]
    {
      this.minDwell, lastSwitch := minDwell, map[];
    }

    predicate Allow(routeID: string, now: int)
      reads this
    {
      routeID in lastSwitch ==> now - lastSwitch[routeID] >= minDwell
    }

    method Record(routeID: string, now: int)
      modifies this
      ensures lastSwitch == old(lastSwitch)[routeID := now]
    {
      lastSwitch := lastSwitch[routeID := now];
    }
  }

  /** Actuations of one neighbour are at least minDwell apart. */
  ghost predicate Spaced(h: seq<Actuation>, minDwell: int) {
    forall i, j {:trigger Apart(h[i], h[j], minDwell)} | 0 <= i < j < |h| :: Apart(h[i], h[j], minDwell)
  }

  predicate Apart(earlier: Actuation, later: Actuation, minDwell: int) {
    earlier.u.neighbor == later.u.neighbor ==> later.time - earlier.time >= minDwell
  }

  /** The dampener remembers the last actuation of each neighbour. */
  ghost predicate Remembers(lastSwitch: map<string, int>, h: seq<Actuation>) {
    && (forall i | 0 <= i < |h| :: h[i].u.neighbor in lastSwitch && h[i].time <= lastSwitch[h[i].u.neighbor])
    && (forall nb | nb in lastSwitch :: exists i :: 0 <= i < |h| && h[i].u.neighbor == nb && h[i].time == lastSwitch[nb])
  }

  lemma SpacedNext(h: seq<Actuation>, lastSwitch: map<string, int>, minDwell: nat, e: Actuation)
    requires Spaced(h, minDwell) && Remembers(lastSwitch, h)
    requires e.u.neighbor in lastSwitch ==> e.time - lastSwitch[e.u.neighbor] >= minDwell
    ensures Spaced(h + [e], minDwell) && Remembers(lastSwitch[e.u.neighbor := e.time], h + [e])
  {
    var h', last := h + [e], lastSwitch[e.u.neighbor := e.time];
    assert forall i | 0 <= i < |h| :: h'[i] == h[i];
    assert h'[|h|] == e;
    forall i, j | 0 <= i < j < |h'| ensures Apart(h'[i], h'[j], minDwell) {
      if j < |h| {
        assert Apart(h[i], h[j], minDwell);
      }
    }
    forall nb | nb in last ensures exists i :: 0 <= i < |h'| && h'[i].u.neighbor == nb && h'[i].time == last[nb] {
      if nb != e.u.neighbor {
        var i :| 0 <= i < |h| && h[i].u.neighbor == nb && h[i].time == lastSwitch[nb];
        assert h'[i].u.neighbor == nb;
      }
    }
  }

  /** Every earlier actuation of the neighbour was recorded at least minDwell ago. */
  ghost predicate Rested(h: seq<Actuation>, nb: string, minDwell: int, now: int) {
    forall e | e in h && e.u.neighbor == nb :: now - e.time >= minDwell
  }

  /** So the dampener, which remembers only the last one, answers for the whole history. */
  lemma RestedPasses(h: seq<Actuation>, lastSwitch: map<string, int>, minDwell: int, u: NeighborTierUpdate, now: int)
    requires Remembers(lastSwitch, h)
    ensures Passing(lastSwitch, minDwell, u, now) <==> Rested(h, u.neighbor, minDwell, now)
  {
    if u.neighbor in lastSwitch {
      var i :| 0 <= i < |h| && h[i].u.neighbor == u.neighbor && h[i].time == lastSwitch[u.neighbor];
      assert h[i] in h;
    }
  }

  /** What step 7 records: the applied updates, in order. */
  function Applications(updates: seq<NeighborTierUpdate>, applied: seq<bool>, candidates: Candidates,
                        recordAt: seq<int>): seq<Actuation>
    requires |applied| <= |updates| == |recordAt|
  {
    if applied == [] then [] else
      var n := |applied| - 1;
      Applications(updates, applied[..n], candidates, recordAt) +
      if applied[n] then [Actuation(recordAt[n], updates[n], candidates)] else []
  }

  ghost predicate Logged(h: seq<Actuation>, before: seq<Actuation>, updates: seq<NeighborTierUpdate>,
                         applied: seq<bool>, candidates: Candidates, recordAt: seq<int>)
    requires |applied| <= |updates| == |recordAt|
  {
    h == before + Applications(updates, applied, candidates, recordAt)
  }

  lemma LoggedNext(h: seq<Actuation>, before: seq<Actuation>, updates: seq<NeighborTierUpdate>,
                   applied: seq<bool>, ok: bool, candidates: Candidates, recordAt: seq<int>)
    requires |applied| < |updates| == |recordAt| && Logged(h, before, updates, applied, candidates, recordAt)
    ensures Logged(if ok then h + [Actuation(recordAt[|applied|], updates[|applied|], candidates)] else h,
                   before, updates, applied + [ok], candidates, recordAt)
  {
    assert (applied + [ok])[..|applied|] == applied;
  }

  /** The claims of all actuations, in order. */
  function AllClaims(h: seq<Actuation>, topTier: int): seq<Claim> {
    if h == [] then [] else
      var last := h[|h| - 1];
      AllClaims(h[..|h| - 1], topTier) + ClaimsOf(last.u, |last.u.prefs|, last.candidates, topTier)
  }

  // ---------- which updates go through

  /** The dampener lets the update pass, and vtysh outlives a script whose numbers FRR accepts. */
  ghost predicate Due(lastSwitch: map<string, int>, minDwell: int, counts: SlotCounts,
                      u: NeighborTierUpdate, allowAt: int, fault: nat) {
    Passing(lastSwitch, minDwell, u, allowAt) && Succeeds(counts, u, fault)
  }

  predicate Passing(lastSwitch: map<string, int>, minDwell: int, u: NeighborTierUpdate, allowAt: int) {
    u.neighbor in lastSwitch ==> allowAt - lastSwitch[u.neighbor] >= minDwell
  }

  /** The neighbours, among the first n updates, that the dampener lets the daemon touch. */
  function Acted(lastSwitch: map<string, int>, minDwell: int, updates: seq<NeighborTierUpdate>, allowAt: seq<int>,
                 n: nat): set<string>
    requires n <= |updates| == |allowAt|
  {
    set i | 0 <= i < n && Passing(lastSwitch, minDwell, updates[i], allowAt[i]) :: updates[i].neighbor
  }

  lemma ActedNext(lastSwitch: map<string, int>, minDwell: int, updates: seq<NeighborTierUpdate>, allowAt: seq<int>,
                  n: nat)
    requires n < |updates| == |allowAt|
    ensures Acted(lastSwitch, minDwell, updates, allowAt, n + 1) ==
            Acted(lastSwitch, minDwell, updates, allowAt, n) +
            if Passing(lastSwitch, minDwell, updates[n], allowAt[n]) then {updates[n].neighbor} else {}
  {
  }

  /** The dampener has no later news than `before` about the neighbours from position n on. */
  ghost predicate NoNews(before: map<string, int>, lastSwitch: map<string, int>, updates: seq<NeighborTierUpdate>, n: nat) {
    forall k | n <= k < |updates| ::
      && (updates[k].neighbor in lastSwitch <==> updates[k].neighbor in before)
      && (updates[k].neighbor in before ==> lastSwitch[updates[k].neighbor] == before[updates[k].neighbor])
  }

  ghost predicate Succeeds(counts: SlotCounts, u: NeighborTierUpdate, fault: nat) {
    var slots := Slots(counts, MapName(u.neighbor), |u.prefs|);
    fault >= |TierScript(u, slots)| && Fits(u, slots)
  }

  /** One call of SetNeighborTiers, seen from the tick. */
  lemma SetEffect(d: Dialect, w: World, knows: bool, u: NeighborTierUpdate, fault: nat)
    requires Kept(w, knows) && LegalUpdate(u) && u.prefs != []
    ensures var r := SetTiers(d, w, u, fault);
            && Kept(r.0, knows) && Undisturbed(w.config, r.0.config, {u.neighbor})
            && (r.1 <==> Succeeds(w.counts, u, fault)) && (r.1 ==> Delivers(r.0.config, u, knows))
            && SameElsewhere(w.counts, r.0.counts, MapName(u.neighbor))
  {
    var r := SetTiers(d, w, u, fault);
    var counts :| Covers(counts, w);
    SetTiersSafe(d, w, u, fault);
    SetTouches(d, w, u, fault);
    TouchesUndisturbed(w.config, r.0.config, counts, u.neighbor);
    SetTiersListed(d, w, u, fault, NEVER_CIDR, 0);
    if r.1 {
      SetTiersDelivers(d, w, u, fault);
    }
  }

  /** Only the entry of one key may differ. */
  ghost predicate SameElsewhere<V>(a: map<string, V>, b: map<string, V>, key: string) {
    forall k | k != key :: (k in a <==> k in b) && (k in a ==> b[k] == a[k])
  }

  /** Actuating one neighbour decides nothing about another. */
  lemma DueStays(a: map<string, int>, b: map<string, int>, minDwell: int, c: SlotCounts, d: SlotCounts,
                 nb: string, u: NeighborTierUpdate, allowAt: int, fault: nat)
    requires SameElsewhere(a, b, nb) && SameElsewhere(c, d, MapName(nb))
    requires IsIPv4(nb) && IsIPv4(u.neighbor) && u.neighbor != nb
    ensures Due(a, minDwell, c, u, allowAt, fault) <==> Due(b, minDwell, d, u, allowAt, fault)
  {
    if MapName(u.neighbor) == MapName(nb) {
      MapNameInjective(u.neighbor, nb);
    }
  }

  /** Which updates of a tick are due, judged by the state before the tick. */
  ghost function DueOf(lastSwitch: map<string, int>, minDwell: int, counts: SlotCounts,
                       updates: seq<NeighborTierUpdate>, allowAt: seq<int>, faults: seq<nat>): (due: seq<bool>)
    requires |allowAt| == |faults| == |updates|
    ensures |due| == |updates|
    ensures DueFrom(due, lastSwitch, minDwell, counts, updates, allowAt, faults, 0)
  {
    seq(|updates|, k requires 0 <= k < |updates| =>
      Due(lastSwitch, minDwell, counts, updates[k], allowAt[k], faults[k]))
  }

  /**
   * Applied are exactly the updates whose neighbour's earlier actuations all were recorded at least minDwell before,
   * and whose session outlives a script with numbers that fit.
   */
  ghost predicate AsHistoryAllows(h: seq<Actuation>, minDwell: int, counts: SlotCounts, updates: seq<NeighborTierUpdate>,
                                  applied: seq<bool>, allowAt: seq<int>, faults: seq<nat>)
    requires |applied| == |allowAt| == |faults| == |updates|
  {
    forall k | 0 <= k < |updates| ::
      applied[k] <==> Rested(h, updates[k].neighbor, minDwell, allowAt[k]) && Succeeds(counts, updates[k], faults[k])
  }

  lemma DueByHistory(h: seq<Actuation>, lastSwitch: map<string, int>, minDwell: int, counts: SlotCounts,
                     updates: seq<NeighborTierUpdate>, allowAt: seq<int>, faults: seq<nat>)
    requires Remembers(lastSwitch, h) && |allowAt| == |faults| == |updates|
    ensures AsHistoryAllows(h, minDwell, counts, updates,
                            DueOf(lastSwitch, minDwell, counts, updates, allowAt, faults), allowAt, faults)
  {
    var due := DueOf(lastSwitch, minDwell, counts, updates, allowAt, faults);
    forall k | 0 <= k < |updates|
      ensures due[k] <==> Rested(h, updates[k].neighbor, minDwell, allowAt[k]) && Succeeds(counts, updates[k], faults[k]) {
      RestedPasses(h, lastSwitch, minDwell, updates[k], allowAt[k]);
      assert due[k] <==> Due(lastSwitch, minDwell, counts, updates[k], allowAt[k], faults[k]);
    }
  }

  /** From position n on, the updates are due in this state exactly as listed. */
  ghost predicate DueFrom(due: seq<bool>, lastSwitch: map<string, int>, minDwell: int, counts: SlotCounts,
                          updates: seq<NeighborTierUpdate>, allowAt: seq<int>, faults: seq<nat>, n: nat)
    requires |allowAt| == |faults| == |updates| == |due|
  {
    forall k {:trigger Due(lastSwitch, minDwell, counts, updates[k], allowAt[k], faults[k])} | n <= k < |updates| ::
      due[k] <==> Due(lastSwitch, minDwell, counts, updates[k], allowAt[k], faults[k])
  }

  lemma DueFromNext(due: seq<bool>, a: map<string, int>, b: map<string, int>, minDwell: int, c: SlotCounts,
                    d: SlotCounts, updates: seq<NeighborTierUpdate>, allowAt: seq<int>, faults: seq<nat>, n: nat)
    requires |allowAt| == |faults| == |updates| == |due| && n < |updates| && Actionable(updates)
    requires DueFrom(due, a, minDwell, c, updates, allowAt, faults, n)
    requires SameElsewhere(a, b, updates[n].neighbor) && SameElsewhere(c, d, MapName(updates[n].neighbor))
    ensures DueFrom(due, b, minDwell, d, updates, allowAt, faults, n + 1)
  {
    forall k | n < k < |updates| ensures due[k] <==> Due(b, minDwell, d, updates[k], allowAt[k], faults[k]) {
      DueStays(a, b, minDwell, c, d, updates[n].neighbor, updates[k], allowAt[k], faults[k]);
    }
  }

  /** Step 7 after its first |applied| updates, starting from configuration a and the dampener's `before`. */
  ghost predicate Halfway(a: Config, before: map<string, int>, due: seq<bool>, b: Config, lastSwitch: map<string, int>,
                          minDwell: int, counts: SlotCounts, updates: seq<NeighborTierUpdate>, allowAt: seq<int>,
                          faults: seq<nat>, applied: seq<bool>, knows: bool) {
    && |allowAt| == |faults| == |updates| == |due| && |applied| <= |updates|
    && NoNews(before, lastSwitch, updates, |applied|)
    && Undisturbed(a, b, Acted(before, minDwell, updates, allowAt, |applied|)) && AllDeliver(b, updates, applied, knows)
    && applied == due[..|applied|]
    && DueFrom(due, lastSwitch, minDwell, counts, updates, allowAt, faults, |applied|)
  }

  /** What an actuation writes down is under its own neighbour. */
  lemma ElsewhereSame(last: map<string, int>, counts: SlotCounts, u: NeighborTierUpdate, passing: bool, at: int, ok: bool)
    ensures SameElsewhere(last, if ok then last[u.neighbor := at] else last, u.neighbor)
    ensures SameElsewhere(counts, GrownBy(counts, u, passing), MapName(u.neighbor))
  {
  }

  lemma NoNewsNext(before: map<string, int>, last: map<string, int>, last': map<string, int>,
                   updates: seq<NeighborTierUpdate>, n: nat)
    requires NoNews(before, last, updates, n) && Actionable(updates) && n < |updates|
    requires SameElsewhere(last, last', updates[n].neighbor)
    ensures NoNews(before, last', updates, n + 1)
  {
    forall k | n < k < |updates|
      ensures updates[k].neighbor in last' <==> updates[k].neighbor in before
      ensures updates[k].neighbor in before ==> last'[updates[k].neighbor] == before[updates[k].neighbor] {
      assert updates[n].neighbor != updates[k].neighbor;
    }
  }

  lemma ActedUndisturbed(a: Config, b: Config, c: Config, before: map<string, int>, last: map<string, int>,
                         minDwell: int, updates: seq<NeighborTierUpdate>, allowAt: seq<int>, n: nat)
    requires n < |updates| == |allowAt| && NoNews(before, last, updates, n)
    requires Undisturbed(a, b, Acted(before, minDwell, updates, allowAt, n))
    requires Undisturbed(b, c, if Passing(last, minDwell, updates[n], allowAt[n]) then {updates[n].neighbor} else {})
    ensures Undisturbed(a, c, Acted(before, minDwell, updates, allowAt, n + 1))
  {
    assert updates[n].neighbor in last <==> updates[n].neighbor in before;
    ActedNext(before, minDwell, updates, allowAt, n);
    UndisturbedTransitive(a, b, c, Acted(before, minDwell, updates, allowAt, n),
                          if Passing(last, minDwell, updates[n], allowAt[n]) then {updates[n].neighbor} else {});
  }

  lemma HalfwayNext(a: Config, before: map<string, int>, due: seq<bool>, b: Config, last: map<string, int>,
                    minDwell: int, counts: SlotCounts, c: Config, last': map<string, int>, counts': SlotCounts,
                    updates: seq<NeighborTierUpdate>, allowAt: seq<int>, faults: seq<nat>, applied: seq<bool>, at: int,
                    ok: bool, knows: bool)
    requires Halfway(a, before, due, b, last, minDwell, counts, updates, allowAt, faults, applied, knows)
    requires Actionable(updates) && |applied| < |updates|
    requires var u, n := updates[|applied|], |applied|;
             && Undisturbed(b, c, if Passing(last, minDwell, u, allowAt[n]) then {u.neighbor} else {})
             && (ok ==> Delivers(c, u, knows))
             && (ok <==> Due(last, minDwell, counts, u, allowAt[n], faults[n]))
             && last' == (if ok then last[u.neighbor := at] else last)
             && counts' == GrownBy(counts, u, Passing(last, minDwell, u, allowAt[n]))
    ensures Halfway(a, before, due, c, last', minDwell, counts', updates, allowAt, faults, applied + [ok], knows)
  {
    var n := |applied|;
    ElsewhereSame(last, counts, updates[n], Passing(last, minDwell, updates[n], allowAt[n]), at, ok);
    NoNewsNext(before, last, last', updates, n);
    DeliverNext(b, c, updates, applied, ok, knows);
    ActedUndisturbed(a, b, c, before, last, minDwell, updates, allowAt, n);
    DueFromNext(due, last, last', minDwell, counts, counts', updates, allowAt, faults, |applied|);
  }

  /** The dampener after the applied updates. */
  function Switched(lastSwitch: map<string, int>, updates: seq<NeighborTierUpdate>, applied: seq<bool>,
                    recordAt: seq<int>): map<string, int>
    requires |applied| <= |updates| == |recordAt|
  {
    if applied == [] then lastSwitch else
      var n := |applied| - 1;
      var before := Switched(lastSwitch, updates, applied[..n], recordAt);
      if applied[n] then before[updates[n].neighbor := recordAt[n]] else before
  }

  /** The slot counts after the first n updates: they grow with every one that passes, successful or not. */
  function Grown(counts: SlotCounts, lastSwitch: map<string, int>, minDwell: int, updates: seq<NeighborTierUpdate>,
                 allowAt: seq<int>, n: nat): SlotCounts
    requires n <= |updates| == |allowAt|
  {
    if n == 0 then counts else
      var before := Grown(counts, lastSwitch, minDwell, updates, allowAt, n - 1);
      GrownBy(before, updates[n - 1], Passing(lastSwitch, minDwell, updates[n - 1], allowAt[n - 1]))
  }

  function GrownBy(counts: SlotCounts, u: NeighborTierUpdate, passing: bool): SlotCounts {
    var name := MapName(u.neighbor);
    if passing then counts[name := Slots(counts, name, |u.prefs|)] else counts
  }

  ghost predicate Noted(last: map<string, int>, counts: SlotCounts, before: map<string, int>, counts0: SlotCounts,
                        minDwell: int, updates: seq<NeighborTierUpdate>, applied: seq<bool>, allowAt: seq<int>,
                        recordAt: seq<int>) {
    && |applied| <= |updates| == |allowAt| == |recordAt|
    && last == Switched(before, updates, applied, recordAt)
    && counts == Grown(counts0, before, minDwell, updates, allowAt, |applied|)
  }

  lemma NotedNext(last: map<string, int>, counts: SlotCounts, before: map<string, int>, counts0: SlotCounts,
                  minDwell: int, updates: seq<NeighborTierUpdate>, applied: seq<bool>, allowAt: seq<int>,
                  recordAt: seq<int>, ok: bool)
    requires Noted(last, counts, before, counts0, minDwell, updates, applied, allowAt, recordAt)
    requires |applied| < |updates| && NoNews(before, last, updates, |applied|)
    ensures var n := |applied|;
            Noted(if ok then last[updates[n].neighbor := recordAt[n]] else last,
                  GrownBy(counts, updates[n], Passing(last, minDwell, updates[n], allowAt[n])),
                  before, counts0, minDwell, updates, applied + [ok], allowAt, recordAt)
  {
    var n := |applied|;
    SwitchedNext(before, updates, applied, ok, recordAt);
    assert updates[n].neighbor in last <==> updates[n].neighbor in before;
    assert Passing(last, minDwell, updates[n], allowAt[n]) <==> Passing(before, minDwell, updates[n], allowAt[n]);
    GrownNext(counts0, before, minDwell, updates, allowAt, n);
  }

  lemma SwitchedNext(before: map<string, int>, updates: seq<NeighborTierUpdate>, applied: seq<bool>, ok: bool,
                     recordAt: seq<int>)
    requires |applied| < |updates| == |recordAt|
    ensures var last, n := Switched(before, updates, applied, recordAt), |applied|;
            Switched(before, updates, applied + [ok], recordAt) ==
            if ok then last[updates[n].neighbor := recordAt[n]] else last
  {
    assert (applied + [ok])[..|applied|] == applied;
  }

  lemma GrownNext(counts: SlotCounts, before: map<string, int>, minDwell: int, updates: seq<NeighborTierUpdate>,
                  allowAt: seq<int>, n: nat)
    requires n < |updates| == |allowAt|
    ensures Grown(counts, before, minDwell, updates, allowAt, n + 1) ==
            GrownBy(Grown(counts, before, minDwell, updates, allowAt, n), updates[n],
                    Passing(before, minDwell, updates[n], allowAt[n]))
  {
  }

  /** All that step 7 writes down: the history, the dampener, and the slot counts. */
  ghost predicate Records(h: seq<Actuation>, last: map<string, int>, counts: SlotCounts, h0: seq<Actuation>,
                          before: map<string, int>, counts0: SlotCounts, minDwell: int,
                          updates: seq<NeighborTierUpdate>, applied: seq<bool>, allowAt: seq<int>, recordAt: seq<int>,
                          candidates: Candidates) {
    && Noted(last, counts, before, counts0, minDwell, updates, applied, allowAt, recordAt)
    && Logged(h, h0, updates, applied, candidates, recordAt)
  }

  lemma RecordsNext(h: seq<Actuation>, last: map<string, int>, counts: SlotCounts, h0: seq<Actuation>,
                    before: map<string, int>, counts0: SlotCounts, minDwell: int, updates: seq<NeighborTierUpdate>,
                    applied: seq<bool>, allowAt: seq<int>, recordAt: seq<int>, candidates: Candidates, ok: bool)
    requires Records(h, last, counts, h0, before, counts0, minDwell, updates, applied, allowAt, recordAt, candidates)
    requires |applied| < |updates| && NoNews(before, last, updates, |applied|)
    ensures var n := |applied|;
            Records(if ok then h + [Actuation(recordAt[n], updates[n], candidates)] else h,
                    if ok then last[updates[n].neighbor := recordAt[n]] else last,
                    GrownBy(counts, updates[n], Passing(last, minDwell, updates[n], allowAt[n])),
                    h0, before, counts0, minDwell, updates, applied + [ok], allowAt, recordAt, candidates)
  {
    NotedNext(last, counts, before, counts0, minDwell, updates, applied, allowAt, recordAt, ok);
    LoggedNext(h, h0, updates, applied, ok, candidates, recordAt);
  }

  /** Both at once, as one iteration of step 7 needs them. */
  lemma StepDone(a: Config, before: map<string, int>, due: seq<bool>, b: Config, last: map<string, int>, minDwell: int,
                 counts: SlotCounts, c: Config, updates: seq<NeighborTierUpdate>, allowAt: seq<int>, faults: seq<nat>,
                 applied: seq<bool>, ok: bool, knows: bool, h: seq<Actuation>, h0: seq<Actuation>, counts0: SlotCounts,
                 recordAt: seq<int>, candidates: Candidates)
    requires Halfway(a, before, due, b, last, minDwell, counts, updates, allowAt, faults, applied, knows)
    requires Records(h, last, counts, h0, before, counts0, minDwell, updates, applied, allowAt, recordAt, candidates)
    requires Actionable(updates) && |applied| < |updates|
    requires var u, n := updates[|applied|], |applied|;
             && Undisturbed(b, c, if Passing(last, minDwell, u, allowAt[n]) then {u.neighbor} else {})
             && (ok ==> Delivers(c, u, knows))
             && (ok <==> Due(last, minDwell, counts, u, allowAt[n], faults[n]))
    ensures var u, n := updates[|applied|], |applied|;
            var last' := if ok then last[u.neighbor := recordAt[n]] else last;
            var counts' := GrownBy(counts, u, Passing(last, minDwell, u, allowAt[n]));
            && Halfway(a, before, due, c, last', minDwell, counts', updates, allowAt, faults, applied + [ok], knows)
            && Records(if ok then h + [Actuation(recordAt[n], u, candidates)] else h, last', counts',
                       h0, before, counts0, minDwell, updates, applied + [ok], allowAt, recordAt, candidates)
  {
    var u, n := updates[|applied|], |applied|;
    HalfwayNext(a, before, due, b, last, minDwell, counts, c, if ok then last[u.neighbor := recordAt[n]] else last,
                GrownBy(counts, u, Passing(last, minDwell, u, allowAt[n])), updates, allowAt, faults, applied,
                recordAt[n], ok, knows);
    RecordsNext(h, last, counts, h0, before, counts0, minDwell, updates, applied, allowAt, recordAt, candidates, ok);
  }

  // ---------- the daemon

  function NamesOf(updates: seq<NeighborTierUpdate>): set<string> {
    set i | 0 <= i < |updates| :: updates[i].neighbor
  }

  /** What GroupByNeighbor hands over: legal, non-empty, one update per neighbour. */
  ghost predicate Actionable(updates: seq<NeighborTierUpdate>) {
    && (forall i | 0 <= i < |updates| :: LegalUpdate(updates[i]) && updates[i].prefs != [])
    && (forall i, j | 0 <= i < j < |updates| :: updates[i].neighbor != updates[j].neighbor)
  }

  class Daemon {
    const actuator: Actuator
    const dampener: Dampener
    const topTier: int
    ghost const knows: bool
    var appliedNeighbors: set<string>
    var activeNeighbor: map<string, string>
    var activeComposite: map<string, real>
    ghost var history: seq<Actuation>

    ghost predicate Valid()
      reads this, actuator, dampener
    {
      && Kept(actuator.Contents(), knows) && dampener.minDwell >= 0
      && (forall nb | nb in appliedNeighbors :: IsIPv4(nb))
      && Spaced(history, dampener.minDwell) && Remembers(dampener.lastSwitch, history)
      && ActiveMirror(activeNeighbor, activeComposite) == MirrorOf(AllClaims(history, topTier))
    }

    constructor (actuator: Actuator, dampener: Dampener, topTier: int)
      requires Sound(actuator.Contents()) && dampener.minDwell >= 0 && dampener.lastSwitch == map[]
      ensures this.knows == Good(actuator.Contents())
      ensures Valid() && this.actuator == actuator && this.dampener == dampener && this.topTier == topTier
      ensures appliedNeighbors == {} && history == []
    {
      this.actuator, this.dampener, this.topTier := actuator, dampener, topTier;
      this.knows := Good(actuator.Contents());
      appliedNeighbors, activeNeighbor, activeComposite, history := {}, map[], map[], [];
    }

    method SyncAppliedActiveMirror(u: NeighborTierUpdate, candidates: Candidates, ghost before: seq<Claim>)
      requires ActiveMirror(activeNeighbor, activeComposite) == MirrorOf(before)
      modifies this`activeNeighbor, this`activeComposite
      ensures ActiveMirror(activeNeighbor, activeComposite) ==
                MirrorOf(before + ClaimsOf(u, |u.prefs|, candidates, topTier))
    {
      assert before + [] == before;
      for i := 0 to |u.prefs|
        invariant ActiveMirror(activeNeighbor, activeComposite) == MirrorOf(before + ClaimsOf(u, i, candidates, topTier))
      {
        var pp := u.prefs[i];
        ClaimNext(before, u, i, candidates, topTier);
        var soleCandidate := pp.prefix in candidates && |candidates[pp.prefix]| == 1;
        if pp.localPref == topTier || soleCandidate {
          activeNeighbor := activeNeighbor[pp.prefix := u.neighbor];
          activeComposite := activeComposite[pp.prefix := CompositeOf(candidates, pp.prefix, u.neighbor)];
        } else if pp.prefix in activeNeighbor && activeNeighbor[pp.prefix] == u.neighbor {
          activeNeighbor := activeNeighbor - {pp.prefix};
          activeComposite := activeComposite - {pp.prefix};
        }
      }
    }

    /** One iteration of step 7. The clock is read for Allow, and again for Record after vtysh returned. */
    method ActuateOne(u: NeighborTierUpdate, candidates: Candidates, allowAt: int, recordAt: int, fault: nat)
      returns (applied: bool)
      requires Valid() && LegalUpdate(u) && u.prefs != [] && allowAt <= recordAt
      modifies this`activeNeighbor, this`activeComposite, this`history, actuator, dampener
      ensures Valid()
      ensures history == if applied then old(history) + [Actuation(recordAt, u, candidates)] else old(history)
      ensures actuator.Contents() ==
                if Passing(old(dampener.lastSwitch), dampener.minDwell, u, allowAt)
                then SetTiers(actuator.dialect, old(actuator.Contents()), u, fault).0 else old(actuator.Contents())
      ensures Undisturbed(old(actuator.config), actuator.config,
                          if Passing(old(dampener.lastSwitch), dampener.minDwell, u, allowAt) then {u.neighbor} else {})
      ensures applied ==> Delivers(actuator.config, u, knows)
      ensures applied ==> (Delivers(actuator.config, u, true) <==> NothingStale(old(actuator.Contents()), u))
      ensures applied <==> Due(old(dampener.lastSwitch), dampener.minDwell, old(actuator.slotCounts), u, allowAt, fault)
      ensures applied <==>
                && (forall e | e in old(history) && e.u.neighbor == u.neighbor :: allowAt - e.time >= dampener.minDwell)
                && Succeeds(old(actuator.slotCounts), u, fault)
      ensures dampener.lastSwitch ==
                if applied then old(dampener.lastSwitch)[u.neighbor := recordAt] else old(dampener.lastSwitch)
      ensures actuator.slotCounts ==
                GrownBy(old(actuator.slotCounts), u, Passing(old(dampener.lastSwitch), dampener.minDwell, u, allowAt))
    {
      RestedPasses(history, dampener.lastSwitch, dampener.minDwell, u, allowAt);
      if !dampener.Allow(u.neighbor, allowAt) {
        return false;
      }
      applied := ActuateAllowed(u, candidates, recordAt, fault);
    }

    /** The rest of it for a neighbour that the dampener allows. */
    method ActuateAllowed(u: NeighborTierUpdate, candidates: Candidates, recordAt: int, fault: nat)
      returns (applied: bool)
      requires Valid() && LegalUpdate(u) && u.prefs != []
      requires u.neighbor in dampener.lastSwitch ==> recordAt - dampener.lastSwitch[u.neighbor] >= dampener.minDwell
      modifies this`activeNeighbor, this`activeComposite, this`history, actuator, dampener
      ensures Valid()
      ensures history == if applied then old(history) + [Actuation(recordAt, u, candidates)] else old(history)
      ensures actuator.Contents() == SetTiers(actuator.dialect, old(actuator.Contents()), u, fault).0
      ensures Undisturbed(old(actuator.config), actuator.config, {u.neighbor})
      ensures applied ==> Delivers(actuator.config, u, knows)
      ensures applied ==> (Delivers(actuator.config, u, true) <==> NothingStale(old(actuator.Contents()), u))
      ensures applied <==> Succeeds(old(actuator.slotCounts), u, fault)
      ensures dampener.lastSwitch ==
                if applied then old(dampener.lastSwitch)[u.neighbor := recordAt] else old(dampener.lastSwitch)
      ensures actuator.slotCounts == GrownBy(old(actuator.slotCounts), u, true)
    {
      ghost var w := actuator.Contents();
      SetEffect(actuator.dialect, w, knows, u, fault);
      var ok := actuator.SetNeighborTiers(u, fault);
      if !ok {
        return false;
      }
      DeliversIff(actuator.dialect, w, u, fault);
      NoteApplied(u, candidates, recordAt);
      applied := true;
    }

    method NoteApplied(u: NeighborTierUpdate, candidates: Candidates, recordAt: int)
      requires Valid()
      requires u.neighbor in dampener.lastSwitch ==> recordAt - dampener.lastSwitch[u.neighbor] >= dampener.minDwell
      modifies this`activeNeighbor, this`activeComposite, this`history, dampener
      ensures Valid() && history == old(history) + [Actuation(recordAt, u, candidates)]
      ensures dampener.lastSwitch == old(dampener.lastSwitch)[u.neighbor := recordAt]
    {
      ghost var e := Actuation(recordAt, u, candidates);
      SpacedNext(history, dampener.lastSwitch, dampener.minDwell, e);
      dampener.Record(u.neighbor, recordAt);
      SyncAppliedActiveMirror(u, candidates, AllClaims(history, topTier));
      assert (history + [e])[..|history|] == history;
      history := history + [e];
    }

    /** Step 7. */
    method ActuateAll(updates: seq<NeighborTierUpdate>, candidates: Candidates, allowAt: seq<int>, recordAt: seq<int>,
                      faults: seq<nat>)
      returns (applied: seq<bool>)
      requires Valid() && Actionable(updates) && |allowAt| == |recordAt| == |faults| == |updates|
      requires forall i | 0 <= i < |updates| :: allowAt[i] <= recordAt[i]
      modifies this`activeNeighbor, this`activeComposite, this`history, actuator, dampener
      ensures Valid() && |applied| == |updates|
      ensures Undisturbed(old(actuator.config), actuator.config,
                          Acted(old(dampener.lastSwitch), dampener.minDwell, updates, allowAt, |updates|))
      ensures AllDeliver(actuator.config, updates, applied, knows)
      ensures applied == DueOf(old(dampener.lastSwitch), dampener.minDwell, old(actuator.slotCounts),
                               updates, allowAt, faults)
      ensures AsHistoryAllows(old(history), dampener.minDwell, old(actuator.slotCounts), updates, applied, allowAt, faults)
      ensures Records(history, dampener.lastSwitch, actuator.slotCounts, old(history), old(dampener.lastSwitch),
                      old(actuator.slotCounts), dampener.minDwell, updates, applied, allowAt, recordAt, candidates)
    {
      applied := [];
      DueByHistory(history, dampener.lastSwitch, dampener.minDwell, actuator.slotCounts, updates, allowAt, faults);
      ghost var a, before, counts0, h0 := actuator.config, dampener.lastSwitch, actuator.slotCounts, history;
      ghost var due := DueOf(dampener.lastSwitch, dampener.minDwell, actuator.slotCounts, updates, allowAt, faults);
      for i := 0 to |updates|
        invariant Valid() && |applied| == i
        invariant Halfway(a, before, due, actuator.config, dampener.lastSwitch, dampener.minDwell, actuator.slotCounts,
                          updates, allowAt, faults, applied, knows)
        invariant Records(history, dampener.lastSwitch, actuator.slotCounts, h0, before, counts0,
                          dampener.minDwell, updates, applied, allowAt, recordAt, candidates)
      {
        applied := ActuateNext(updates, candidates, allowAt, recordAt, faults, applied, a, before, due, h0, counts0);
      }
    }

    /** The next update of step 7, after those in `applied`. */
    method ActuateNext(updates: seq<NeighborTierUpdate>, candidates: Candidates, allowAt: seq<int>, recordAt: seq<int>,
                       faults: seq<nat>, applied: seq<bool>, ghost a: Config, ghost before: map<string, int>,
                       ghost due: seq<bool>, ghost h0: seq<Actuation>, ghost counts0: SlotCounts)
      returns (applied': seq<bool>)
      requires Valid() && Actionable(updates) && |allowAt| == |recordAt| == |faults| == |updates|
      requires |applied| < |updates| && allowAt[|applied|] <= recordAt[|applied|]
      requires Halfway(a, before, due, actuator.config, dampener.lastSwitch, dampener.minDwell, actuator.slotCounts,
                       updates, allowAt, faults, applied, knows)
      requires Records(history, dampener.lastSwitch, actuator.slotCounts, h0, before, counts0, dampener.minDwell,
                       updates, applied, allowAt, recordAt, candidates)
      modifies this`activeNeighbor, this`activeComposite, this`history, actuator, dampener
      ensures Valid() && |applied'| == |applied| + 1
      ensures Halfway(a, before, due, actuator.config, dampener.lastSwitch, dampener.minDwell, actuator.slotCounts,
                      updates, allowAt, faults, applied', knows)
      ensures Records(history, dampener.lastSwitch, actuator.slotCounts, h0, before, counts0, dampener.minDwell,
                      updates, applied', allowAt, recordAt, candidates)
    {
      var n := |applied|;
      ghost var b, last, counts, h := actuator.config, dampener.lastSwitch, actuator.slotCounts, history;
      var ok := ActuateOne(updates[n], candidates, allowAt[n], recordAt[n], faults[n]);
      StepDone(a, before, due, b, last, dampener.minDwell, counts, actuator.config, updates, allowAt, faults, applied,
               ok, knows, h, h0, counts0, recordAt, candidates);
      applied' := applied + [ok];
    }

    /** Step 8: remove the neighbours of the previous tick that this tick has no update for. */
    method Cleanup(thisTick: set<string>, fault: string -> nat)
      requires Valid()
      modifies actuator
      ensures Valid() && actuator.slotCounts == old(actuator.slotCounts)
      ensures Drained(old(actuator.config), actuator.config, appliedNeighbors - thisTick, fault)
    {
      var pending := appliedNeighbors;
      ghost var a, done := actuator.config, {};
      while pending != {}
        invariant Valid() && pending <= appliedNeighbors && actuator.slotCounts == old(actuator.slotCounts)
        invariant forall nb :: nb in done <==> nb in appliedNeighbors && nb !in thisTick && nb !in pending
        invariant Drained(a, actuator.config, done, fault)
        decreases |pending|
      {
        var nb :| nb in pending;
        pending := pending - {nb};
        if nb !in thisTick {
          ghost var w := actuator.Contents();
          RemovalEffect(actuator.dialect, w, knows, nb, fault(nb));
          var ok := actuator.RemoveNeighborTiers(nb, fault(nb));
          DrainNext(a, w.config, actuator.config, done, fault, nb);
          done := done + {nb};
        }
      }
      assert done == appliedNeighbors - thisTick;
    }

    /** Steps 7 and 8: exactly the updates that are due are applied and recorded, with the outcome below. */
    method Tick(updates: seq<NeighborTierUpdate>, candidates: Candidates, allowAt: seq<int>, recordAt: seq<int>,
                faults: seq<nat>, removeFault: string -> nat)
      returns (applied: seq<bool>)
      requires Valid() && Actionable(updates) && |allowAt| == |recordAt| == |faults| == |updates|
      requires forall i | 0 <= i < |updates| :: allowAt[i] <= recordAt[i]
      modifies this, actuator, dampener
      ensures Valid() && |applied| == |updates| && appliedNeighbors == NamesOf(updates)
      ensures applied == DueOf(old(dampener.lastSwitch), dampener.minDwell, old(actuator.slotCounts),
                               updates, allowAt, faults)
      ensures AsHistoryAllows(old(history), dampener.minDwell, old(actuator.slotCounts), updates, applied, allowAt, faults)
      ensures Records(history, dampener.lastSwitch, actuator.slotCounts, old(history), old(dampener.lastSwitch),
                      old(actuator.slotCounts), dampener.minDwell, updates, applied, allowAt, recordAt, candidates)
      ensures TickOutcome(old(actuator.config), actuator.config, updates,
                          Acted(old(dampener.lastSwitch), dampener.minDwell, updates, allowAt, |updates|),
                          applied, old(appliedNeighbors), removeFault, knows)
    {
      var thisTickNeighbors := CollectNames(updates);
      ghost var a := actuator.config;
      ghost var acted := Acted(dampener.lastSwitch, dampener.minDwell, updates, allowAt, |updates|);
      applied := ActuateAll(updates, candidates, allowAt, recordAt, faults);
      ghost var b := actuator.config;
      Cleanup(thisTickNeighbors, removeFault);
      TickEffects(a, b, actuator.config, updates, acted, applied, appliedNeighbors, removeFault, knows);
      appliedNeighbors := thisTickNeighbors;
    }
  }

  /**
   * What a tick makes of configuration a. Every applied update is in force, whatever else the tick did;
   * neighbours that are neither drained nor acted on are as before, so a suppressed update holds what it had;
   * and, if the daemon knew of all its bindings before, it still does exactly when every removal of a bound
   * neighbour lived through its detach.
   */
  ghost predicate TickOutcome(a: Config, c: Config, updates: seq<NeighborTierUpdate>, acted: set<string>,
                              applied: seq<bool>, before: set<string>, removeFault: string -> nat, knows: bool)
    requires |applied| == |updates|
  {
    && AllDeliver(c, updates, applied, knows) && Undisturbed(a, c, acted + (before - NamesOf(updates)))
    && (Tracked(a, before) ==>
          (Tracked(c, NamesOf(updates)) <==>
             forall nb | nb in before - NamesOf(updates) && OwnedBound(a, nb) :: removeFault(nb) >= 3))
  }

  /** Step 7 leads from a to b, step 8 from b to c. */
  lemma TickEffects(a: Config, b: Config, c: Config, updates: seq<NeighborTierUpdate>, acted: set<string>,
                    applied: seq<bool>, before: set<string>, removeFault: string -> nat, knows: bool)
    requires Actionable(updates) && |applied| == |updates| && acted <= NamesOf(updates)
    requires Undisturbed(a, b, acted) && AllDeliver(b, updates, applied, knows)
    requires Drained(b, c, before - NamesOf(updates), removeFault)
    ensures TickOutcome(a, c, updates, acted, applied, before, removeFault, knows)
    ensures forall nb | nb in NamesOf(updates) :: IsIPv4(nb)
  {
    var names, drained := NamesOf(updates), before - NamesOf(updates);
    forall i | 0 <= i < |updates| && applied[i] ensures Delivers(c, updates[i], knows) {
      DeliversStays(b, c, updates[i], knows, drained);
    }
    UndisturbedTransitive(a, b, c, acted, drained);
    TrackedAfter(a, b, c, names, before, removeFault);
  }

  method CollectNames(updates: seq<NeighborTierUpdate>) returns (names: set<string>)
    ensures names == NamesOf(updates)
  {
    names := {};
    for i := 0 to |updates|
      invariant names == NamesOf(updates[..i])
    {
      names := names + {updates[i].neighbor};
      assert NamesOf(updates[..i + 1]) == NamesOf(updates[..i]) + {updates[i].neighbor};
    }
    assert updates[..|updates|] == updates;
  }

  ghost predicate AllDeliver(config: Config, updates: seq<NeighborTierUpdate>, applied: seq<bool>, knows: bool)
    requires |applied| <= |updates|
  {
    forall i | 0 <= i < |applied| && applied[i] :: Delivers(config, updates[i], knows)
  }

  lemma DeliverNext(b: Config, c: Config, updates: seq<NeighborTierUpdate>, applied: seq<bool>, ok: bool, knows: bool)
    requires Actionable(updates) && |applied| < |updates| && AllDeliver(b, updates, applied, knows)
    requires Undisturbed(b, c, {updates[|applied|].neighbor}) && (ok ==> Delivers(c, updates[|applied|], knows))
    ensures AllDeliver(c, updates, applied + [ok], knows)
  {
    var i := |applied|;
    forall k | 0 <= k < i && applied[k] ensures Delivers(c, updates[k], knows) {
      DeliversStays(b, c, updates[k], knows, {updates[i].neighbor});
    }
  }

  /** The removals done so far had exactly their effect, and none on anyone else. */
  ghost predicate Drained(a: Config, b: Config, done: set<string>, fault: string -> nat) {
    && Undisturbed(a, b, done)
    && forall nb | nb in done :: OwnedBound(b, nb) <==> OwnedBound(a, nb) && fault(nb) < 3
  }

  lemma DrainNext(a: Config, b: Config, c: Config, done: set<string>, fault: string -> nat, nb: string)
    requires Drained(a, b, done, fault) && nb !in done && Undisturbed(b, c, {nb})
    requires OwnedBound(c, nb) <==> OwnedBound(b, nb) && fault(nb) < 3
    ensures Drained(a, c, done + {nb}, fault)
  {
    UndisturbedTransitive(a, b, c, done, {nb});
    assert OwnedBound(b, nb) <==> OwnedBound(a, nb);
    forall other | other in done ensures OwnedBound(c, other) <==> OwnedBound(b, other) {
      assert other !in {nb};
    }
  }

  lemma DeliversStays(a: Config, b: Config, u: NeighborTierUpdate, knows: bool, S: set<string>)
    requires Delivers(a, u, knows) && Undisturbed(a, b, S) && u.neighbor !in S
    ensures Delivers(b, u, knows)
  {
  }

  lemma RemovalEffect(d: Dialect, w: World, knows: bool, nb: string, fault: nat)
    requires Kept(w, knows) && IsIPv4(nb)
    ensures var after := RemoveTiers(d, w, nb, fault).0;
            && Kept(after, knows) && Undisturbed(w.config, after.config, {nb})
            && (OwnedBound(after.config, nb) <==> OwnedBound(w.config, nb) && fault < 3)
  {
    RemovalUndisturbed(d, w, nb, fault);
    RemoveTiersSafe(d, w, nb, fault);
    if OwnedBound(w.config, nb) {
      RemovalDetaches(d, w, nb, fault);
    } else {
      RemovalBindsNone(d, w.config, nb, fault);
    }
  }

  lemma RemovalUndisturbed(d: Dialect, w: World, nb: string, fault: nat)
    requires Sound(w) && IsIPv4(nb)
    ensures Undisturbed(w.config, RemoveTiers(d, w, nb, fault).0.config, {nb})
  {
    var counts :| Covers(counts, w);
    RemoveTouches(d, w, nb, fault);
    TouchesUndisturbed(w.config, RemoveTiers(d, w, nb, fault).0.config, counts, nb);
  }

  lemma RemovalBindsNone(d: Dialect, config: Config, nb: string, fault: nat)
    requires !OwnedBound(config, nb)
    ensures !OwnedBound(Vtysh(d, config, RemoveScript(nb), fault).0, nb)
  {
    var script := RemoveScript(nb);
    RemovalAddsNone(d, Session(config, Enable), if fault < |script| then script[..fault] else script, nb);
  }

  lemma {:induction false} RemovalAddsNone(d: Dialect, s: Session, script: seq<Command>, nb: string)
    requires !OwnedBound(s.config, nb) && forall c | c in script :: !c.Bind?
    ensures !OwnedBound(Run(d, s, script).session.config, nb)
    decreases |script|
  {
    if script == [] {
    } else {
      assert script[0] in script;
      match Step(d, s, script[0])
      case None =>
      case Some(t) => RemovalAddsNone(d, t, script[1..], nb);
    }
  }

  lemma TrackedAfter(a: Config, b: Config, c: Config, names: set<string>, applied: set<string>, fault: string -> nat)
    requires Undisturbed(a, b, names) && Drained(b, c, applied - names, fault)
    ensures Tracked(a, applied) ==>
              (Tracked(c, names) <==> forall nb | nb in applied - names && OwnedBound(a, nb) :: fault(nb) >= 3)
  {
    if Tracked(a, applied) {
      forall nb | nb !in names ensures OwnedBound(c, nb) <==> OwnedBound(a, nb) && fault(nb) < 3 {
        assert OwnedBound(b, nb) <==> OwnedBound(a, nb);
      }
    }
  }
}
