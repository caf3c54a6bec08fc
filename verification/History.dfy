/** The active mirror in terms of the updates that were applied (cmd/daemon/main.go). */
module History {
  import opened Actuate
  import opened Mirror
  import opened Tick

  /** Preference k of actuation i is about prefix p. */
  predicate Mentions(h: seq<Actuation>, i: nat, k: nat, p: string) {
    i < |h| && k < |h[i].u.prefs| && h[i].u.prefs[k].prefix == p
  }

  /** It makes the neighbour active for its prefix: the top tier, or no other candidate in that tick. */
  predicate MakesActive(h: seq<Actuation>, i: nat, k: nat, topTier: int)
    requires i < |h| && k < |h[i].u.prefs|
  {
    var pp, candidates := h[i].u.prefs[k], h[i].candidates;
    pp.localPref == topTier || (pp.prefix in candidates && |candidates[pp.prefix]| == 1)
  }

  predicate Later(i: nat, k: nat, i': nat, k': nat) {
    i < i' || (i == i' && k < k')
  }

  /** No later mention of the prefix makes anyone active or comes from the same neighbour. */
  ghost predicate Unchallenged(h: seq<Actuation>, i: nat, k: nat, p: string, topTier: int)
    requires Mentions(h, i, k, p)
  {
    forall i': nat, k': nat | Mentions(h, i', k', p) && Later(i, k, i', k') ::
      !MakesActive(h, i', k', topTier) && h[i'].u.neighbor != h[i].u.neighbor
  }

  ghost predicate Confirms(h: seq<Actuation>, i: nat, k: nat, p: string, topTier: int) {
    Mentions(h, i, k, p) && MakesActive(h, i, k, topTier) && Unchallenged(h, i, k, p, topTier)
  }

  // ---------- where a preference stands among the claims

  function Index(h: seq<Actuation>, i: nat, k: nat, topTier: int): nat
    requires i <= |h|
  {
    |AllClaims(h[..i], topTier)| + k
  }

  lemma {:induction false} ClaimsAt(u: NeighborTierUpdate, n: nat, candidates: Candidates, topTier: int)
    requires n <= |u.prefs|
    ensures |ClaimsOf(u, n, candidates, topTier)| == n
    ensures forall k | 0 <= k < n ::
              ClaimsOf(u, n, candidates, topTier)[k] == ClaimOf(u.prefs[k], u.neighbor, candidates, topTier)
  {
    if n == 0 {
    } else {
      ClaimsAt(u, n - 1, candidates, topTier);
    }
  }

  lemma {:induction false} ClaimAt(h: seq<Actuation>, i: nat, k: nat, topTier: int)
    requires i < |h| && k < |h[i].u.prefs|
    ensures var j := Index(h, i, k, topTier);
            && j < Index(h, i + 1, 0, topTier) <= |AllClaims(h, topTier)|
            && AllClaims(h, topTier)[j] == ClaimOf(h[i].u.prefs[k], h[i].u.neighbor, h[i].candidates, topTier)
    decreases |h|
  {
    var front, last := h[..|h| - 1], h[|h| - 1];
    ClaimsAt(last.u, |last.u.prefs|, last.candidates, topTier);
    if i == |h| - 1 {
      assert h[..i] == front && h[..i + 1] == h;
    } else {
      assert front[..i] == h[..i] && front[..i + 1] == h[..i + 1];
      ClaimAt(front, i, k, topTier);
    }
  }

  lemma {:induction false} Located(h: seq<Actuation>, j: nat, topTier: int) returns (i: nat, k: nat)
    requires j < |AllClaims(h, topTier)|
    ensures i < |h| && k < |h[i].u.prefs| && Index(h, i, k, topTier) == j
    decreases |h|
  {
    var front, last := h[..|h| - 1], h[|h| - 1];
    ClaimsAt(last.u, |last.u.prefs|, last.candidates, topTier);
    if j < |AllClaims(front, topTier)| {
      i, k := Located(front, j, topTier);
      assert front[..i] == h[..i];
    } else {
      i, k := |h| - 1, j - |AllClaims(front, topTier)|;
    }
  }

  lemma {:induction false} StartsGrow(h: seq<Actuation>, i: nat, i': nat, topTier: int)
    requires i <= i' <= |h|
    ensures Index(h, i, 0, topTier) <= Index(h, i', 0, topTier)
    decreases i' - i
  {
    if i == i' {
    } else {
      assert h[..i'][..|h[..i']| - 1] == h[..i' - 1];
      StartsGrow(h, i, i' - 1, topTier);
    }
  }

  lemma IndexOrder(h: seq<Actuation>, i: nat, k: nat, i': nat, k': nat, topTier: int)
    requires i < |h| && k < |h[i].u.prefs| && i' < |h| && k' < |h[i'].u.prefs|
    ensures Index(h, i, k, topTier) < Index(h, i', k', topTier) <==> Later(i, k, i', k')
  {
    ClaimAt(h, i, k, topTier);
    ClaimAt(h, i', k', topTier);
    if i < i' {
      StartsGrow(h, i + 1, i', topTier);
    } else if i' < i {
      StartsGrow(h, i' + 1, i, topTier);
    }
  }

  lemma StandingConfirms(h: seq<Actuation>, i: nat, k: nat, p: string, topTier: int)
    requires Mentions(h, i, k, p)
    ensures Index(h, i, k, topTier) < |AllClaims(h, topTier)|
    ensures Standing(AllClaims(h, topTier), Index(h, i, k, topTier)) <==> Confirms(h, i, k, p, topTier)
  {
    var claims, j := AllClaims(h, topTier), Index(h, i, k, topTier);
    ClaimAt(h, i, k, topTier);
    if Standing(claims, j) {
      forall i': nat, k': nat | Mentions(h, i', k', p) && Later(i, k, i', k')
        ensures !MakesActive(h, i', k', topTier) && h[i'].u.neighbor != h[i].u.neighbor {
        ClaimAt(h, i', k', topTier);
        IndexOrder(h, i, k, i', k', topTier);
      }
    }
    if Confirms(h, i, k, p, topTier) {
      forall j' | j < j' < |claims| && claims[j'].prefix == p
        ensures !claims[j'].active && claims[j'].neighbor != claims[j].neighbor {
        var i', k' := Located(h, j', topTier);
        ClaimAt(h, i', k', topTier);
        IndexOrder(h, i, k, i', k', topTier);
      }
    }
  }

  /**
   * The mirror of a run of applied updates names n for p exactly when some update of n made n active for p and
   * is unchallenged since; the composite is n's among the candidates of the tick of that update.
   */
  lemma MirrorOfHistory(h: seq<Actuation>, topTier: int, p: string, n: string)
    ensures var m := MirrorOf(AllClaims(h, topTier));
            && m.neighbor.Keys == m.composite.Keys
            && (p in m.neighbor && m.neighbor[p] == n <==>
                  exists i: nat, k: nat :: Confirms(h, i, k, p, topTier) && h[i].u.neighbor == n)
            && (forall i: nat, k: nat | Confirms(h, i, k, p, topTier) ::
                  && p in m.neighbor && m.neighbor[p] == h[i].u.neighbor
                  && m.composite[p] == CompositeOf(h[i].candidates, p, h[i].u.neighbor))
  {
    var claims := AllClaims(h, topTier);
    MirrorMeaning(claims, p, n);
    forall i: nat, k: nat | Confirms(h, i, k, p, topTier)
      ensures var j := Index(h, i, k, topTier);
              && j < |claims| && Standing(claims, j) && claims[j].prefix == p
              && claims[j].neighbor == h[i].u.neighbor
              && claims[j].composite == CompositeOf(h[i].candidates, p, h[i].u.neighbor)
    {
      StandingConfirms(h, i, k, p, topTier);
      ClaimAt(h, i, k, topTier);
    }
    if j :| 0 <= j < |claims| && claims[j].prefix == p && claims[j].neighbor == n && Standing(claims, j) {
      var i, k := Located(h, j, topTier);
      ClaimAt(h, i, k, topTier);
      StandingConfirms(h, i, k, p, topTier);
    }
  }

  /** So it is, at any time, in the daemon. */
  lemma DaemonMirror(daemon: Daemon, p: string, n: string)
    requires daemon.Valid()
    ensures daemon.activeNeighbor.Keys == daemon.activeComposite.Keys
    ensures p in daemon.activeNeighbor && daemon.activeNeighbor[p] == n <==>
              exists i: nat, k: nat :: Confirms(daemon.history, i, k, p, daemon.topTier) && daemon.history[i].u.neighbor == n
    ensures forall i: nat, k: nat | Confirms(daemon.history, i, k, p, daemon.topTier) ::
              p in daemon.activeComposite &&
              daemon.activeComposite[p] == CompositeOf(daemon.history[i].candidates, p, daemon.history[i].u.neighbor)
  {
    MirrorOfHistory(daemon.history, daemon.topTier, p, n);
  }
}
