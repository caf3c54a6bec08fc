/** The active mirror: which neighbour, with which composite, was last confirmed to hold a prefix. */
module Mirror {
  import opened Actuate

  /** One preference of an applied update, as syncAppliedActiveMirror reads it. */
  datatype Claim = Claim(prefix: string, neighbor: string, active: bool, composite: real)

  /** appliedActiveNeighbor and appliedActiveComposite. */
  datatype ActiveMirror = ActiveMirror(neighbor: map<string, string>, composite: map<string, real>)

  type Candidates = map<string, map<string, real>>

  /** Go's zero value for a missing map or a missing key. */
  function CompositeOf(candidates: Candidates, prefix: string, nb: string): real {
    if prefix in candidates && nb in candidates[prefix] then candidates[prefix][nb] else 0.0
  }

  function ClaimOf(pp: PrefixPref, nb: string, candidates: Candidates, topTier: int): Claim {
    var sole := pp.prefix in candidates && |candidates[pp.prefix]| == 1;
    Claim(pp.prefix, nb, pp.localPref == topTier || sole, CompositeOf(candidates, pp.prefix, nb))
  }

  function ClaimsOf(u: NeighborTierUpdate, n: nat, candidates: Candidates, topTier: int): seq<Claim>
    requires n <= |u.prefs|
  {
    if n == 0 then [] else ClaimsOf(u, n - 1, candidates, topTier) + [ClaimOf(u.prefs[n - 1], u.neighbor, candidates, topTier)]
  }

  /** Gain, clear, or leave alone. */
  function Sync(m: ActiveMirror, c: Claim): ActiveMirror {
    if c.active then ActiveMirror(m.neighbor[c.prefix := c.neighbor], m.composite[c.prefix := c.composite])
    else if c.prefix in m.neighbor && m.neighbor[c.prefix] == c.neighbor then
      ActiveMirror(m.neighbor - {c.prefix}, m.composite - {c.prefix})
    else m
  }

  function MirrorOf(claims: seq<Claim>): ActiveMirror {
    if claims == [] then ActiveMirror(map[], map[])
    else Sync(MirrorOf(claims[..|claims| - 1]), claims[|claims| - 1])
  }

  lemma {:induction false} MirrorAppend(a: seq<Claim>, c: Claim)
    ensures MirrorOf(a + [c]) == Sync(MirrorOf(a), c)
  {
    assert (a + [c])[..|a|] == a;
  }

  lemma ClaimNext(before: seq<Claim>, u: NeighborTierUpdate, n: nat, candidates: Candidates, topTier: int)
    requires n < |u.prefs|
    ensures MirrorOf(before + ClaimsOf(u, n + 1, candidates, topTier))
         == Sync(MirrorOf(before + ClaimsOf(u, n, candidates, topTier)), ClaimOf(u.prefs[n], u.neighbor, candidates, topTier))
  {
    var claim := ClaimOf(u.prefs[n], u.neighbor, candidates, topTier);
    MirrorAppend(before + ClaimsOf(u, n, candidates, topTier), claim);
    assert before + ClaimsOf(u, n + 1, candidates, topTier) == before + ClaimsOf(u, n, candidates, topTier) + [claim];
  }

  /** Claim i made its neighbour active for its prefix, and no later claim undid or replaced that. */
  ghost predicate Standing(claims: seq<Claim>, i: nat)
    requires i < |claims|
  {
    && claims[i].active
    && forall j | i < j < |claims| && claims[j].prefix == claims[i].prefix ::
         !claims[j].active && claims[j].neighbor != claims[i].neighbor
  }

  /**
   * The mirror names n for p exactly when some applied update of n made n active for p, no later
   * applied update of n mentions p, and no later applied update of anyone claims p. Its composite is
   * then n's at that update, and both maps always have the same keys.
   */
  lemma {:induction false} MirrorMeaning(claims: seq<Claim>, p: string, n: string)
    ensures var m := MirrorOf(claims);
            && m.neighbor.Keys == m.composite.Keys
            && (p in m.neighbor && m.neighbor[p] == n <==>
                  exists i :: 0 <= i < |claims| && claims[i].prefix == p && claims[i].neighbor == n && Standing(claims, i))
            && (forall i | 0 <= i < |claims| && claims[i].prefix == p && Standing(claims, i) ::
                  p in m.neighbor && m.neighbor[p] == claims[i].neighbor && m.composite[p] == claims[i].composite)
  {
    if claims == [] {
    } else {
      var front, last := claims[..|claims| - 1], claims[|claims| - 1];
      MirrorMeaning(front, p, n);
      forall i | 0 <= i < |front| && claims[i].prefix == p
        ensures Standing(claims, i) <==>
                  Standing(front, i) && (last.prefix == p ==> !last.active && last.neighbor != claims[i].neighbor) {
        StandingExtend(claims, i);
      }
      if p in MirrorOf(claims).neighbor && MirrorOf(claims).neighbor[p] == n {
        if last.prefix == p && last.active {
          assert Standing(claims, |claims| - 1);
        } else {
          assert p in MirrorOf(front).neighbor && MirrorOf(front).neighbor[p] == n;
          var i :| 0 <= i < |front| && front[i].prefix == p && front[i].neighbor == n && Standing(front, i);
          assert claims[i] == front[i];
        }
      }
    }
  }

  lemma StandingExtend(claims: seq<Claim>, i: nat)
    requires i < |claims| - 1
    ensures var front, last := claims[..|claims| - 1], claims[|claims| - 1];
            Standing(claims, i) <==>
              Standing(front, i) && (last.prefix == claims[i].prefix ==> !last.active && last.neighbor != claims[i].neighbor)
  {
    var front := claims[..|claims| - 1];
    assert forall j | 0 <= j < |front| :: front[j] == claims[j];
  }
}
