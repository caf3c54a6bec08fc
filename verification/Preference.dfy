/**
 * What the router chooses from: the local-preferences of one prefix across its candidate neighbours, after a
 * tick that applied some updates and suppressed others. BGP prefers the greatest.
 */
module Preference {
  import opened Options
  import opened Router
  import opened Score
  import opened Rank
  import opened Decision
  import opened Cheapest
  import opened Tick
  import opened Iteration

  /** The local-preference with which a neighbour's route is accepted, if it is. */
  function PrefOf(config: Config, nb: string, prefix: string, pref: int): Option<int> {
    match Receive(config, nb, prefix, pref)
    case Denied => None
    case Accepted(v) => Some(v)
  }

  /** No route is below every route. */
  predicate NotAbove(a: Option<int>, b: Option<int>) {
    a.Some? ==> b.Some? && a.value <= b.value
  }

  /** What candidate k carries after the tick: the tier of its rank if it was applied, what it had otherwise. */
  function Planned(a: Memory, r: Ranking, t: Tiers, applied: set<string>, k: nat, prefs: string -> int): Option<int>
    requires k < |r.ranked|
  {
    var nb := r.ranked[k].neighbor;
    if nb in applied then Some(TierOf(r.ranked, k, t)) else PrefOf(a.config, nb, r.prefix, prefs(nb))
  }

  /** No session of the tick failed: whoever was touched was applied. */
  ghost predicate NoneFailed(a: Memory, minDwell: int, rs: seq<Ranking>, t: Tiers, input: Input, applied: set<string>) {
    Touched(a, minDwell, UpdatesOf(rs, t), input) <= applied
  }

  /** Whatever each route came in with. */
  lemma CarriesPlanned(a: Memory, c: Memory, minDwell: int, knows: bool, rs: seq<Ranking>, t: Tiers, input: Input,
                       applied: set<string>, i: nat, k: nat, prefs: string -> int)
    requires WellRanked(rs) && i < |rs| && k < |rs[i].ranked|
    requires IterationOutcome(a, c, minDwell, knows, rs, t, input, applied)
    requires NoneFailed(a, minDwell, rs, t, input, applied)
    ensures var nb := rs[i].ranked[k].neighbor;
            PrefOf(c.config, nb, rs[i].prefix, prefs(nb)) == Planned(a, rs[i], t, applied, k, prefs)
  {
    var nb, prefix := rs[i].ranked[k].neighbor, rs[i].prefix;
    if nb in applied {
      DecidedAt(rs, t, i, k);
      assert Receive(c.config, nb, prefix, prefs(nb)) == Accepted(Decided(rs, t, prefix, nb).GetOr(prefs(nb)));
    } else {
      assert RankedIn(rs[i].ranked, nb);
      assert nb in c.neighbors;
      StillAsBefore(a, c, Touched(a, minDwell, UpdatesOf(rs, t), input) + (a.neighbors - c.neighbors), nb, prefix, prefs(nb));
    }
  }

  lemma StillAsBefore(a: Memory, c: Memory, S: set<string>, nb: string, prefix: string, pref: int)
    requires Undisturbed(a.config, c.config, S) && nb !in S
    ensures PrefOf(c.config, nb, prefix, pref) == PrefOf(a.config, nb, prefix, pref)
  {
    assert Receive(c.config, nb, prefix, pref) == Receive(a.config, nb, prefix, pref);
  }

  // ---------- who is preferred

  /** No candidate's route is preferred to the best-ranked candidate's. */
  ghost predicate BestPreferred(config: Config, r: Ranking, prefs: string -> int)
    requires r.ranked != []
  {
    forall k | 0 <= k < |r.ranked| ::
      NotAbove(PrefOf(config, r.ranked[k].neighbor, r.prefix, prefs(r.ranked[k].neighbor)),
             PrefOf(config, r.ranked[0].neighbor, r.prefix, prefs(r.ranked[0].neighbor)))
  }

  /** The same of what the candidates are planned to carry. */
  ghost predicate PlannedInOrder(a: Memory, r: Ranking, t: Tiers, applied: set<string>, prefs: string -> int)
    requires r.ranked != []
  {
    forall k | 0 <= k < |r.ranked| ::
      NotAbove(Planned(a, r, t, applied, k, prefs), Planned(a, r, t, applied, 0, prefs))
  }

  /** No suppressed candidate held more than the best rank's tier. */
  ghost predicate SuppressedBelow(a: Memory, r: Ranking, t: Tiers, applied: set<string>, prefs: string -> int)
    requires r.ranked != []
  {
    forall k | 0 <= k < |r.ranked| && r.ranked[k].neighbor !in applied ::
      NotAbove(PrefOf(a.config, r.ranked[k].neighbor, r.prefix, prefs(r.ranked[k].neighbor)), Some(TierOf(r.ranked, 0, t)))
  }

  /** The general case, the best-ranked candidate suppressed or not, by what each carries or held. */
  lemma BestPreferredByPlan(a: Memory, c: Memory, minDwell: int, knows: bool, rs: seq<Ranking>, t: Tiers, input: Input,
                            applied: set<string>, i: nat, prefs: string -> int)
    requires WellRanked(rs) && i < |rs| && rs[i].ranked != []
    requires IterationOutcome(a, c, minDwell, knows, rs, t, input, applied)
    requires NoneFailed(a, minDwell, rs, t, input, applied)
    ensures BestPreferred(c.config, rs[i], prefs) <==> PlannedInOrder(a, rs[i], t, applied, prefs)
  {
    forall k | 0 <= k < |rs[i].ranked|
      ensures var nb := rs[i].ranked[k].neighbor;
              PrefOf(c.config, nb, rs[i].prefix, prefs(nb)) == Planned(a, rs[i], t, applied, k, prefs) {
      CarriesPlanned(a, c, minDwell, knows, rs, t, input, applied, i, k, prefs);
    }
  }

  /**
   * When the best-ranked candidate was applied, its route is the preferred one if and only if no suppressed
   * candidate held more, before the tick, than the best rank's tier. In particular it is when all were applied.
   */
  lemma BestPreferredIff(a: Memory, c: Memory, minDwell: int, knows: bool, rs: seq<Ranking>, t: Tiers, input: Input,
                         applied: set<string>, i: nat, prefs: string -> int)
    requires WellRanked(rs) && i < |rs| && rs[i].ranked != [] && rs[i].ranked[0].neighbor in applied
    requires IterationOutcome(a, c, minDwell, knows, rs, t, input, applied)
    requires NoneFailed(a, minDwell, rs, t, input, applied)
    ensures BestPreferred(c.config, rs[i], prefs) <==> SuppressedBelow(a, rs[i], t, applied, prefs)
  {
    BestPreferredByPlan(a, c, minDwell, knows, rs, t, input, applied, i, prefs);
    PlannedIff(a, rs[i], t, applied, prefs);
  }

  lemma PlannedIff(a: Memory, r: Ranking, t: Tiers, applied: set<string>, prefs: string -> int)
    requires r.ranked != [] && r.ranked[0].neighbor in applied
    ensures PlannedInOrder(a, r, t, applied, prefs) <==> SuppressedBelow(a, r, t, applied, prefs)
  {
    assert Planned(a, r, t, applied, 0, prefs) == Some(TierOf(r.ranked, 0, t));
    if SuppressedBelow(a, r, t, applied, prefs) {
      forall k | 0 <= k < |r.ranked|
        ensures NotAbove(Planned(a, r, t, applied, k, prefs), Planned(a, r, t, applied, 0, prefs)) {
        TierMonotone(r.ranked, 0, k, t);
      }
    }
    if PlannedInOrder(a, r, t, applied, prefs) {
      forall k | 0 <= k < |r.ranked| && r.ranked[k].neighbor !in applied
        ensures NotAbove(PrefOf(a.config, r.ranked[k].neighbor, r.prefix, prefs(r.ranked[k].neighbor)),
                       Some(TierOf(r.ranked, 0, t))) {
        assert NotAbove(Planned(a, r, t, applied, k, prefs), Planned(a, r, t, applied, 0, prefs));
      }
    }
  }

  /**
   * When all candidates were applied and the tiers are in the intended order, the best-ranked route is strictly
   * preferred to all others if and only if its path is confident.
   */
  lemma StrictlyPreferredIff(a: Memory, c: Memory, minDwell: int, knows: bool, rs: seq<Ranking>, t: Tiers, input: Input,
                             applied: set<string>, i: nat, prefs: string -> int)
    requires WellRanked(rs) && i < |rs| && |rs[i].ranked| >= 2 && !AllLost(rs[i].ranked) && t.top > t.mid > t.default'
    requires forall k | 0 <= k < |rs[i].ranked| :: rs[i].ranked[k].neighbor in applied
    requires IterationOutcome(a, c, minDwell, knows, rs, t, input, applied)
    requires NoneFailed(a, minDwell, rs, t, input, applied)
    ensures (forall k | 0 < k < |rs[i].ranked| ::
               !NotAbove(PrefOf(c.config, rs[i].ranked[0].neighbor, rs[i].prefix, prefs(rs[i].ranked[0].neighbor)),
                       PrefOf(c.config, rs[i].ranked[k].neighbor, rs[i].prefix, prefs(rs[i].ranked[k].neighbor))))
            <==> rs[i].ranked[0].confidence >= 0.5
  {
    forall k | 0 <= k < |rs[i].ranked|
      ensures var nb := rs[i].ranked[k].neighbor;
              PrefOf(c.config, nb, rs[i].prefix, prefs(nb)) == Some(TierOf(rs[i].ranked, k, t)) {
      CarriesPlanned(a, c, minDwell, knows, rs, t, input, applied, i, k, prefs);
    }
    StrictByTiers(c.config, rs[i], t, prefs);
  }

  lemma StrictByTiers(config: Config, r: Ranking, t: Tiers, prefs: string -> int)
    requires |r.ranked| >= 2 && !AllLost(r.ranked) && t.top > t.mid > t.default'
    requires forall k | 0 <= k < |r.ranked| ::
               var nb := r.ranked[k].neighbor;
               PrefOf(config, nb, r.prefix, prefs(nb)) == Some(TierOf(r.ranked, k, t))
    ensures (forall k | 0 < k < |r.ranked| ::
               !NotAbove(PrefOf(config, r.ranked[0].neighbor, r.prefix, prefs(r.ranked[0].neighbor)),
                         PrefOf(config, r.ranked[k].neighbor, r.prefix, prefs(r.ranked[k].neighbor))))
            <==> r.ranked[0].confidence >= 0.5
  {
    TierProperties(r.ranked, t, 0, 1);
    forall k | 0 < k < |r.ranked| ensures TierOf(r.ranked, k, t) < t.top {
      TierProperties(r.ranked, t, 0, k);
    }
  }

  /**
   * Two neighbours can hold the top tier: the one that earned it in one tick and is suppressed in the next, and
   * the one that is ranked best in the next.
   */
  lemma TwoHoldTop(a: Memory, b: Memory, c: Memory, minDwell: int, knows: bool, rs: seq<Ranking>, rs': seq<Ranking>,
                   t: Tiers, input: Input, input': Input, applied: set<string>, applied': set<string>,
                   i: nat, j: nat, k: nat, prefs: string -> int)
    requires t.top > t.mid > t.default' && WellRanked(rs) && WellRanked(rs') && i < |rs| && j < |rs'|
    requires IterationOutcome(a, b, minDwell, knows, rs, t, input, applied)
    requires IterationOutcome(b, c, minDwell, knows, rs', t, input', applied')
    requires NoneFailed(b, minDwell, rs', t, input', applied') && rs'[j].prefix == rs[i].prefix
    requires |rs[i].ranked| >= 2 && !AllLost(rs[i].ranked) && rs[i].ranked[0].confidence >= 0.5
    requires |rs'[j].ranked| >= 2 && !AllLost(rs'[j].ranked) && rs'[j].ranked[0].confidence >= 0.5
    requires rs[i].ranked[0].neighbor in applied && rs'[j].ranked[0].neighbor in applied'
    requires 0 < k < |rs'[j].ranked| && rs'[j].ranked[k].neighbor == rs[i].ranked[0].neighbor
    requires rs'[j].ranked[k].neighbor !in applied'
    ensures PrefOf(c.config, rs'[j].ranked[0].neighbor, rs'[j].prefix, prefs(rs'[j].ranked[0].neighbor)) == Some(t.top)
    ensures PrefOf(c.config, rs'[j].ranked[k].neighbor, rs'[j].prefix, prefs(rs'[j].ranked[k].neighbor)) == Some(t.top)
  {
    var nb, prefix := rs[i].ranked[0].neighbor, rs[i].prefix;
    TierProperties(rs[i].ranked, t, 0, 1);
    TierProperties(rs'[j].ranked, t, 0, 1);
    DecidedAt(rs, t, i, 0);
    assert Receive(b.config, nb, prefix, prefs(nb)) == Accepted(Decided(rs, t, prefix, nb).GetOr(prefs(nb)));
    CarriesPlanned(b, c, minDwell, knows, rs', t, input', applied', j, 0, prefs);
    CarriesPlanned(b, c, minDwell, knows, rs', t, input', applied', j, k, prefs);
  }

  // ---------- in the numbers of the candidates

  /** All candidates of an in-scope prefix have distinct names, and their ranking is among those of the tick. */
  lemma RankingFor(rs: seq<Ranking>, inScope: set<string>, cold: map<string, seq<PathCost>>, sqrt: real -> real,
                   prefix: string) returns (i: nat)
    requires Visited(rs, inScope, cold, sqrt) && prefix in inScope
    ensures i < |rs| && rs[i].prefix == prefix && DistinctNeighbors(rs[i].ranked)
    ensures RankedFrom(rs[i].ranked, CandidatesOf(cold, prefix, sqrt))
    ensures forall p | p in CandidatesOf(cold, prefix, sqrt) :: p.neighbor != ""
    ensures forall k | 0 <= k < |rs[i].ranked| :: rs[i].ranked[k] in CandidatesOf(cold, prefix, sqrt)
  {
    i :| 0 <= i < |rs| && rs[i].prefix == prefix;
    assert RankingOf(rs[i], cold, sqrt) && DistinctNeighbors(rs[i].ranked);
    CollapsedDistinct(if prefix in cold then cold[prefix] else [], sqrt);
    var candidates := CandidatesOf(cold, prefix, sqrt);
    forall k | 0 <= k < |rs[i].ranked| ensures rs[i].ranked[k] in candidates {
      RankedPath(rs[i].ranked, candidates, k);
    }
  }

  /**
   * Of two candidates of a prefix that were both applied, the route of the cheaper one (of equals, of the lower
   * next hop) is preferred, or they are equal.
   */
  lemma CheaperRoutePreferred(a: Memory, c: Memory, minDwell: int, knows: bool, rs: seq<Ranking>, t: Tiers,
                              input: Input, applied: set<string>, sqrt: real -> real, prefix: string, x: PathCost,
                              y: PathCost, prefs: string -> int)
    requires Visited(rs, input.inScope, input.cold, sqrt) && prefix in input.inScope
    requires IterationOutcome(a, c, minDwell, knows, rs, t, input, applied)
    requires NoneFailed(a, minDwell, rs, t, input, applied)
    requires x in CandidatesOf(input.cold, prefix, sqrt) && y in CandidatesOf(input.cold, prefix, sqrt)
    requires x.neighbor in applied && y.neighbor in applied
    requires x.composite < y.composite || (x.composite == y.composite && x.nextHopIP < y.nextHopIP)
    ensures NotAbove(PrefOf(c.config, y.neighbor, prefix, prefs(y.neighbor)),
                     PrefOf(c.config, x.neighbor, prefix, prefs(x.neighbor)))
  {
    var candidates := CandidatesOf(input.cold, prefix, sqrt);
    var i := RankingFor(rs, input.inScope, input.cold, sqrt, prefix);
    var j := Place(rs[i].ranked, candidates, x);
    var k := Place(rs[i].ranked, candidates, y);
    CarriesPlanned(a, c, minDwell, knows, rs, t, input, applied, i, j, prefs);
    CarriesPlanned(a, c, minDwell, knows, rs, t, input, applied, i, k, prefs);
    CheaperNeverLower(rs[i].ranked, candidates, t, j, k);
  }

  /**
   * When all candidates of a prefix were applied, there are two or more, some are not lost, and the tiers are in
   * order: the route of the cheapest carries the top tier and is strictly preferred to every other if its path is
   * confident, and it carries the default and is not if its path is not.
   */
  lemma CheapestRoutePreferred(a: Memory, c: Memory, minDwell: int, knows: bool, rs: seq<Ranking>, t: Tiers,
                               input: Input, applied: set<string>, sqrt: real -> real, prefix: string, x: PathCost,
                               prefs: string -> int)
    requires Visited(rs, input.inScope, input.cold, sqrt) && prefix in input.inScope && t.top > t.mid > t.default'
    requires IterationOutcome(a, c, minDwell, knows, rs, t, input, applied)
    requires NoneFailed(a, minDwell, rs, t, input, applied)
    requires forall p | p in CandidatesOf(input.cold, prefix, sqrt) :: p.neighbor in applied
    requires exists p :: p in CandidatesOf(input.cold, prefix, sqrt) &&
               (p.egressLossRate < 1.0 || p.egressRTTUs > 0.0 || p.ingressJitterUs > 0.0 || p.ingressGapRate > 0.0)
    requires x in CandidatesOf(input.cold, prefix, sqrt) && |CandidatesOf(input.cold, prefix, sqrt)| >= 2
    requires forall q | q in CandidatesOf(input.cold, prefix, sqrt) && q != x ::
               x.composite < q.composite || (x.composite == q.composite && x.nextHopIP < q.nextHopIP)
    ensures (forall q | q in CandidatesOf(input.cold, prefix, sqrt) && q != x ::
               !NotAbove(PrefOf(c.config, x.neighbor, prefix, prefs(x.neighbor)),
                         PrefOf(c.config, q.neighbor, prefix, prefs(q.neighbor))))
            <==> x.confidence >= 0.5
    ensures PrefOf(c.config, x.neighbor, prefix, prefs(x.neighbor)) ==
            Some(if x.confidence >= 0.5 then t.top else t.default')
  {
    var candidates := CandidatesOf(input.cold, prefix, sqrt);
    var i := RankingFor(rs, input.inScope, input.cold, sqrt, prefix);
    var r := rs[i];
    var k := Place(r.ranked, candidates, x);
    LostTogether(r.ranked, candidates);
    FirstPlace(r.ranked, candidates, k);
    SameSize(r.ranked, candidates, input.cold, prefix, sqrt);
    StrictlyPreferredIff(a, c, minDwell, knows, rs, t, input, applied, i, prefs);
    EachOther(r.ranked, candidates);
    CarriesPlanned(a, c, minDwell, knows, rs, t, input, applied, i, 0, prefs);
    TiersByRank(r.ranked, t, 0);
  }

  lemma SameSize(ranked: seq<PathCost>, candidates: seq<PathCost>, cold: map<string, seq<PathCost>>, prefix: string,
                 sqrt: real -> real)
    requires candidates == CandidatesOf(cold, prefix, sqrt) && RankedFrom(ranked, candidates)
    ensures |ranked| == |candidates|
  {
    CollapsedDistinct(if prefix in cold then cold[prefix] else [], sqrt);
    assert |multiset(ranked)| == |multiset(candidates)|;
  }

  /** The candidates other than the first are those at the later ranks. */
  lemma EachOther(ranked: seq<PathCost>, candidates: seq<PathCost>)
    requires RankedFrom(ranked, candidates) && DistinctNeighbors(ranked) && ranked != []
    requires forall p | p in candidates :: p.neighbor != ""
    ensures forall q | q in candidates && q != ranked[0] :: exists k :: 0 < k < |ranked| && ranked[k] == q
    ensures forall k | 0 < k < |ranked| :: ranked[k] in candidates && ranked[k] != ranked[0]
  {
    forall q | q in candidates && q != ranked[0] ensures exists k :: 0 < k < |ranked| && ranked[k] == q {
      var k := Place(ranked, candidates, q);
    }
    forall k | 0 < k < |ranked| ensures ranked[k] in candidates && ranked[k] != ranked[0] {
      RankedPath(ranked, candidates, k);
    }
  }
}
