/** What the active mirror holds, in terms of updates and candidates (cmd/daemon/main.go). */
module Active {
  import opened Actuate
  import opened Mirror
  import opened Tick
  import opened History
  import opened Score
  import opened Rank
  import opened Decision

  // ---------- the recorded composites

  lemma {:induction false} CompositesOf(candidates: seq<PathCost>, nb: string)
    ensures nb in Composites(candidates) <==> exists p :: p in candidates && p.neighbor == nb
    ensures DistinctNeighbors(candidates) ==>
              forall p | p in candidates && p.neighbor == nb :: Composites(candidates)[nb] == p.composite
  {
    if candidates == [] {
    } else {
      var front, last := candidates[..|candidates| - 1], candidates[|candidates| - 1];
      CompositesOf(front, nb);
      assert forall p :: p in candidates <==> p in front || p == last;
      if DistinctNeighbors(candidates) {
        LastIsNew(candidates);
      }
    }
  }

  lemma LastIsNew(candidates: seq<PathCost>)
    requires candidates != [] && DistinctNeighbors(candidates)
    ensures forall p | p in candidates[..|candidates| - 1] :: p.neighbor != candidates[|candidates| - 1].neighbor
  {
    var front := candidates[..|candidates| - 1];
    forall p | p in front ensures p.neighbor != candidates[|front|].neighbor {
      var i :| 0 <= i < |front| && front[i] == p;
      assert candidates[i].neighbor != candidates[|front|].neighbor;
    }
  }

  lemma {:induction false} CompositesSize(candidates: seq<PathCost>)
    requires DistinctNeighbors(candidates)
    ensures |Composites(candidates)| == |candidates|
  {
    if candidates == [] {
    } else {
      var front, last := candidates[..|candidates| - 1], candidates[|candidates| - 1];
      CompositesSize(front);
      CompositesOf(front, last.neighbor);
      LastIsNew(candidates);
      assert Composites(candidates).Keys == Composites(front).Keys + {last.neighbor};
      KeysSize(Composites(front));
      KeysSize(Composites(candidates));
    }
  }

  lemma KeysSize(m: map<string, real>)
    ensures |m| == |m.Keys|
  {
  }

  /** The record of a tick holds, for every candidate of every in-scope prefix and no one else, its composite. */
  lemma CandidateOnRecord(candidates: Candidates, inScope: set<string>, cold: map<string, seq<PathCost>>,
                          sqrt: real -> real, prefix: string)
    requires Recorded(candidates, inScope, cold, sqrt) && prefix in inScope
    ensures prefix in candidates && |candidates[prefix]| == |CandidatesOf(cold, prefix, sqrt)|
    ensures forall p | p in CandidatesOf(cold, prefix, sqrt) ::
              p.neighbor in candidates[prefix] && candidates[prefix][p.neighbor] == p.composite
    ensures forall nb | nb in candidates[prefix] :: exists p :: p in CandidatesOf(cold, prefix, sqrt) && p.neighbor == nb
  {
    var paths := CandidatesOf(cold, prefix, sqrt);
    CollapsedDistinct(if prefix in cold then cold[prefix] else [], sqrt);
    CompositesSize(paths);
    forall p | p in paths ensures p.neighbor in Composites(paths) && Composites(paths)[p.neighbor] == p.composite {
      CompositesOf(paths, p.neighbor);
    }
    forall nb | nb in Composites(paths) ensures exists p :: p in paths && p.neighbor == nb {
      CompositesOf(paths, nb);
    }
  }

  /** Down to the mirror: the active composite is the composite of the candidate that was made active. */
  lemma ConfirmedComposite(daemon: Daemon, i: nat, k: nat, x: PathCost, inScope: set<string>,
                           cold: map<string, seq<PathCost>>, sqrt: real -> real)
    requires daemon.Valid() && i < |daemon.history| && k < |daemon.history[i].u.prefs|
    requires var p := daemon.history[i].u.prefs[k].prefix;
             && Confirms(daemon.history, i, k, p, daemon.topTier) && p in inScope
             && x in CandidatesOf(cold, p, sqrt) && x.neighbor == daemon.history[i].u.neighbor
    requires Recorded(daemon.history[i].candidates, inScope, cold, sqrt)
    ensures var p := daemon.history[i].u.prefs[k].prefix;
            && p in daemon.activeNeighbor && daemon.activeNeighbor[p] == x.neighbor
            && p in daemon.activeComposite && daemon.activeComposite[p] == x.composite
  {
    var e := daemon.history[i];
    var p := e.u.prefs[k].prefix;
    MirrorOfHistory(daemon.history, daemon.topTier, p, x.neighbor);
    CandidateOnRecord(e.candidates, inScope, cold, sqrt, p);
    assert Confirms(daemon.history, i, k, p, daemon.topTier) && daemon.history[i].u.neighbor == x.neighbor;
  }

  // ---------- the newest update

  /**
   * After an update of a neighbour has been applied, the mirror names the neighbour for a prefix of that update (its
   * last mention there) if and only if it got the top tier or is the only candidate; and then with its composite on
   * record.
   */
  lemma NewestUpdate(daemon: Daemon, k: nat)
    requires daemon.Valid() && daemon.history != []
    requires var e := daemon.history[|daemon.history| - 1];
             && k < |e.u.prefs| && forall l | k < l < |e.u.prefs| :: e.u.prefs[l].prefix != e.u.prefs[k].prefix
    ensures var e := daemon.history[|daemon.history| - 1];
            var p := e.u.prefs[k].prefix;
            && (p in daemon.activeNeighbor && daemon.activeNeighbor[p] == e.u.neighbor <==>
                  e.u.prefs[k].localPref == daemon.topTier || (p in e.candidates && |e.candidates[p]| == 1))
            && (p in daemon.activeNeighbor && daemon.activeNeighbor[p] == e.u.neighbor
                && p in e.candidates && e.u.neighbor in e.candidates[p] ==>
                  p in daemon.activeComposite && daemon.activeComposite[p] == e.candidates[p][e.u.neighbor])
  {
    var h, n := daemon.history, |daemon.history| - 1;
    var p, nb := h[n].u.prefs[k].prefix, h[n].u.neighbor;
    MirrorOfHistory(h, daemon.topTier, p, nb);
    assert Mentions(h, n, k, p);
    if MakesActive(h, n, k, daemon.topTier) {
      assert Confirms(h, n, k, p, daemon.topTier);
    } else {
      forall i: nat, k': nat | Confirms(h, i, k', p, daemon.topTier) ensures h[i].u.neighbor != nb {
        assert i != n || k' != k;
        assert Later(i, k', n, k);
      }
    }
  }
}
