/** RankByTier and GroupByNeighbor of internal/score/rank.go. */
module Rank {
  import opened Sorting
  import opened Score
  import opened Actuate

  datatype Tiers = Tiers(top: int, mid: int, default': int)

  // ---------- candidates

  function Named(paths: seq<PathCost>): seq<PathCost> {
    if paths == [] then [] else
      var front, last := Named(paths[..|paths| - 1]), paths[|paths| - 1];
      if last.neighbor != "" then front + [last] else front
  }

  predicate IsLost(p: PathCost) {
    p.egressLossRate >= 1.0 && p.egressRTTUs <= 0.0 && p.ingressJitterUs <= 0.0 && p.ingressGapRate <= 0.0
  }

  predicate AllLost(paths: seq<PathCost>) {
    forall i | 0 <= i < |paths| :: IsLost(paths[i])
  }

  /** The order of the sort: lower composite first, ties by next hop. */
  predicate PathLe(a: PathCost, b: PathCost) {
    a.composite < b.composite || (a.composite == b.composite && a.nextHopIP <= b.nextHopIP)
  }

  predicate IntervalsOverlap(a: PathCost, b: PathCost) {
    && a.compositeErr > 0.0 && b.compositeErr > 0.0
    && a.composite - a.compositeErr <= b.composite + b.compositeErr
    && b.composite - b.compositeErr <= a.composite + a.compositeErr
  }

  // ---------- tiers

  /** What a rank gets before clamping. */
  function RawTier(i: nat, confidence: real, t: Tiers): int {
    if confidence < 0.5 then t.default'
    else if i == 0 then t.top
    else if i == 1 then t.mid
    else t.default'
  }

  function Min(a: int, b: int): int {
    if a <= b then a else b
  }

  /** What a rank gets: never more than the rank above it. */
  function TierAt(ranked: seq<PathCost>, i: nat, t: Tiers): int
    requires i < |ranked|
  {
    Min(RawTier(i, ranked[i].confidence, t), if i == 0 then t.top else TierAt(ranked, i - 1, t))
  }

  /** The tier of each ranked candidate, with the two special cases: all lost, and a single one. */
  function TierOf(ranked: seq<PathCost>, i: nat, t: Tiers): int
    requires i < |ranked|
  {
    if AllLost(ranked) || |ranked| == 1 then t.default' else TierAt(ranked, i, t)
  }

  function Single(ranked: seq<PathCost>, i: nat, prefix: string, t: Tiers): NeighborTierUpdate
    requires i < |ranked|
  {
    NeighborTierUpdate(ranked[i].neighbor, [PrefixPref(prefix, TierOf(ranked, i, t))])
  }

  function Singles(ranked: seq<PathCost>, n: nat, prefix: string, t: Tiers): (us: seq<NeighborTierUpdate>)
    requires n <= |ranked|
    ensures |us| == n && forall i | 0 <= i < n :: us[i] == Single(ranked, i, prefix, t)
  {
    if n == 0 then [] else Singles(ranked, n - 1, prefix, t) + [Single(ranked, n - 1, prefix, t)]
  }

  // ---------- grouping

  function Neighbors(us: seq<NeighborTierUpdate>): seq<string> {
    if us == [] then [] else
      var front, nb := Neighbors(us[..|us| - 1]), us[|us| - 1].neighbor;
      if nb in front then front else front + [nb]
  }

  function PrefsOf(us: seq<NeighborTierUpdate>, nb: string): seq<PrefixPref> {
    if us == [] then [] else
      var front, last := PrefsOf(us[..|us| - 1], nb), us[|us| - 1];
      if last.neighbor == nb then front + last.prefs else front
  }

  function GroupedFirst(us: seq<NeighborTierUpdate>, n: nat): (r: seq<NeighborTierUpdate>)
    requires n <= |Neighbors(us)|
    ensures |r| == n && forall i | 0 <= i < n :: r[i] == NeighborTierUpdate(Neighbors(us)[i], PrefsOf(us, Neighbors(us)[i]))
  {
    if n == 0 then [] else
      GroupedFirst(us, n - 1) + [NeighborTierUpdate(Neighbors(us)[n - 1], PrefsOf(us, Neighbors(us)[n - 1]))]
  }

  /** One update per neighbour in first-seen order, with its preferences concatenated. */
  function Grouped(us: seq<NeighborTierUpdate>): seq<NeighborTierUpdate> {
    GroupedFirst(us, |Neighbors(us)|)
  }

  function Flatten(xs: seq<seq<NeighborTierUpdate>>): seq<NeighborTierUpdate> {
    if xs == [] then [] else Flatten(xs[..|xs| - 1]) + xs[|xs| - 1]
  }

  lemma {:induction false} NeighborsMembers(us: seq<NeighborTierUpdate>, nb: string)
    ensures nb in Neighbors(us) <==> exists i :: 0 <= i < |us| && us[i].neighbor == nb
  {
    if us == [] {
    } else {
      var front := us[..|us| - 1];
      NeighborsMembers(front, nb);
      if i :| 0 <= i < |front| && front[i].neighbor == nb {
        assert us[i].neighbor == nb;
      }
      if i :| 0 <= i < |us| && us[i].neighbor == nb && nb != us[|us| - 1].neighbor {
        assert front[i].neighbor == nb;
      }
    }
  }

  lemma {:induction false} NeighborsDistinct(us: seq<NeighborTierUpdate>)
    ensures forall i, j | 0 <= i < j < |Neighbors(us)| :: Neighbors(us)[i] != Neighbors(us)[j]
  {
    if us == [] {
    } else {
      NeighborsDistinct(us[..|us| - 1]);
    }
  }

  /** Neighbours come in the order in which they are first seen. */
  lemma {:induction false} NeighborsFirstSeen(us: seq<NeighborTierUpdate>, i: nat, j: nat, l: nat)
    requires i < j < |Neighbors(us)| && l < |us| && us[l].neighbor == Neighbors(us)[j]
    ensures exists k :: 0 <= k < l && us[k].neighbor == Neighbors(us)[i]
    decreases |us|
  {
    var front := us[..|us| - 1];
    NeighborsDistinct(us);
    if l == |front| {
      assert Neighbors(us)[i] in Neighbors(front);
      NeighborsMembers(front, Neighbors(us)[i]);
      var k :| 0 <= k < |front| && front[k].neighbor == Neighbors(us)[i];
      assert us[k].neighbor == Neighbors(us)[i];
    } else {
      assert front[l].neighbor == Neighbors(us)[j];
      NeighborsMembers(front, Neighbors(us)[j]);
      NeighborsFirstSeen(front, i, j, l);
    }
  }

  lemma PrefsOfNone(us: seq<NeighborTierUpdate>, nb: string)
    requires nb !in Neighbors(us)
    ensures PrefsOf(us, nb) == []
  {
  }

  /** The two accumulators of a grouping loop after the updates in `added`. */
  ghost predicate Accumulated(byNeighbor: map<string, seq<PrefixPref>>, nbOrder: seq<string>, added: seq<NeighborTierUpdate>) {
    && nbOrder == Neighbors(added)
    && (forall nb :: nb in byNeighbor <==> nb in nbOrder)
    && (forall nb | nb in byNeighbor :: byNeighbor[nb] == PrefsOf(added, nb))
  }

  /** One iteration: append the update to its neighbour's list, which a new neighbour starts empty. */
  method Accumulate(byNeighbor: map<string, seq<PrefixPref>>, nbOrder: seq<string>, u: NeighborTierUpdate,
                    ghost added: seq<NeighborTierUpdate>)
    returns (byNeighbor': map<string, seq<PrefixPref>>, nbOrder': seq<string>)
    requires Accumulated(byNeighbor, nbOrder, added)
    ensures Accumulated(byNeighbor', nbOrder', added + [u])
  {
    byNeighbor', nbOrder' := byNeighbor, nbOrder;
    assert (added + [u])[..|added|] == added;
    if u.neighbor !in byNeighbor {
      PrefsOfNone(added, u.neighbor);
      nbOrder' := nbOrder' + [u.neighbor];
      byNeighbor' := byNeighbor'[u.neighbor := []];
    }
    byNeighbor' := byNeighbor'[u.neighbor := byNeighbor'[u.neighbor] + u.prefs];
  }

  method Collected(byNeighbor: map<string, seq<PrefixPref>>, nbOrder: seq<string>, ghost added: seq<NeighborTierUpdate>)
    returns (result: seq<NeighborTierUpdate>)
    requires Accumulated(byNeighbor, nbOrder, added)
    ensures result == Grouped(added)
  {
    result := [];
    for i := 0 to |nbOrder|
      invariant result == GroupedFirst(added, i)
    {
      result := result + [NeighborTierUpdate(nbOrder[i], byNeighbor[nbOrder[i]])];
    }
  }

  method GroupByNeighbor(perPrefix: seq<seq<NeighborTierUpdate>>) returns (result: seq<NeighborTierUpdate>)
    ensures result == Grouped(Flatten(perPrefix))
  {
    var byNeighbor: map<string, seq<PrefixPref>>, nbOrder: seq<string> := map[], [];
    for i := 0 to |perPrefix|
      invariant Accumulated(byNeighbor, nbOrder, Flatten(perPrefix[..i]))
    {
      ghost var before := Flatten(perPrefix[..i]);
      var updates := perPrefix[i];
      assert before + updates[..0] == before;
      for k := 0 to |updates|
        invariant Accumulated(byNeighbor, nbOrder, before + updates[..k])
      {
        assert before + updates[..k + 1] == before + updates[..k] + [updates[k]];
        byNeighbor, nbOrder := Accumulate(byNeighbor, nbOrder, updates[k], before + updates[..k]);
      }
      assert updates[..|updates|] == updates;
      FlattenNext(perPrefix, i);
    }
    assert perPrefix[..|perPrefix|] == perPrefix;
    result := Collected(byNeighbor, nbOrder, Flatten(perPrefix));
  }

  lemma FlattenNext(xs: seq<seq<NeighborTierUpdate>>, i: nat)
    requires i < |xs|
    ensures Flatten(xs[..i + 1]) == Flatten(xs[..i]) + xs[i]
  {
    assert xs[..i + 1][..i] == xs[..i];
  }

  // ---------- the ranking

  /** The named paths by composite and next hop, in any order of equals; as they came when all are lost. */
  ghost predicate RankedFrom(ranked: seq<PathCost>, paths: seq<PathCost>) {
    if AllLost(Named(paths)) then ranked == Named(paths) else SortOf(ranked, Named(paths), PathLe)
  }

  lemma RankedMembers(ranked: seq<PathCost>, paths: seq<PathCost>, k: nat)
    requires RankedFrom(ranked, paths) && k < |ranked|
    ensures ranked[k] in Named(paths)
  {
    assert ranked[k] in multiset(ranked);
  }

  function RankedUpdates(ranked: seq<PathCost>, prefix: string, t: Tiers): seq<NeighborTierUpdate> {
    var singles := Singles(ranked, |ranked|, prefix, t);
    if AllLost(ranked) then singles else Grouped(singles)
  }

  method RankByTier(paths: seq<PathCost>, prefix: string, t: Tiers) returns (result: seq<NeighborTierUpdate>)
    ensures exists ranked :: RankedFrom(ranked, paths) && result == RankedUpdates(ranked, prefix, t)
  {
    var filtered := FilterNamed(paths);
    if |filtered| == 0 {
      assert RankedFrom(filtered, paths) && RankedUpdates(filtered, prefix, t) == [];
      return [];
    }
    var allLost := true;
    for i := 0 to |filtered|
      invariant allLost == AllLost(filtered[..i])
    {
      var p := filtered[i];
      assert filtered[..i + 1] == filtered[..i] + [p];
      assert AllLost(filtered[..i + 1]) <==> AllLost(filtered[..i]) && IsLost(filtered[..i + 1][i]);
      if p.egressLossRate < 1.0 || p.egressRTTUs > 0.0 || p.ingressJitterUs > 0.0 || p.ingressGapRate > 0.0 {
        allLost := false;
      }
    }
    assert filtered[..|filtered|] == filtered;
    if allLost {
      result := [];
      for i := 0 to |filtered|
        invariant result == Singles(filtered, i, prefix, t)
      {
        result := result + [NeighborTierUpdate(filtered[i].neighbor, [PrefixPref(prefix, t.default')])];
      }
      assert RankedFrom(filtered, paths) && result == RankedUpdates(filtered, prefix, t);
      return;
    }
    var sorted := Sort(filtered, PathLe);
    AllLostPermutation(filtered, sorted);
    var tiered := AssignTiers(sorted, prefix, t);
    var byNeighbor: map<string, seq<PrefixPref>>, nbOrder: seq<string> := map[], [];
    for i := 0 to |tiered|
      invariant Accumulated(byNeighbor, nbOrder, tiered[..i])
    {
      assert tiered[..i + 1] == tiered[..i] + [tiered[i]];
      byNeighbor, nbOrder := Accumulate(byNeighbor, nbOrder, tiered[i], tiered[..i]);
    }
    assert tiered[..|tiered|] == tiered;
    result := Collected(byNeighbor, nbOrder, tiered);
    assert RankedFrom(sorted, paths) && result == RankedUpdates(sorted, prefix, t);
  }

  method FilterNamed(paths: seq<PathCost>) returns (filtered: seq<PathCost>)
    ensures filtered == Named(paths)
  {
    filtered := [];
    for i := 0 to |paths|
      invariant filtered == Named(paths[..i])
    {
      assert paths[..i + 1][..i] == paths[..i];
      if paths[i].neighbor != "" {
        filtered := filtered + [paths[i]];
      }
    }
    assert paths[..|paths|] == paths;
  }

  /** The tier loop, with the error-band gate: the clamp after it makes the gate redundant. */
  method AssignTiers(ranked: seq<PathCost>, prefix: string, t: Tiers) returns (tiered: seq<NeighborTierUpdate>)
    requires ranked != [] && !AllLost(ranked)
    ensures tiered == Singles(ranked, |ranked|, prefix, t)
  {
    tiered := [];
    if |ranked| == 1 {
      tiered := [NeighborTierUpdate(ranked[0].neighbor, [PrefixPref(prefix, t.default')])];
      return;
    }
    var prevTier := t.top;
    for i := 0 to |ranked|
      invariant prevTier == if i == 0 then t.top else TierAt(ranked, i - 1, t)
      invariant tiered == Singles(ranked, i, prefix, t)
    {
      var p := ranked[i];
      var tierByRank := t.default';
      if i == 0 && p.confidence >= 0.5 {
        tierByRank := t.top;
      } else if i == 1 && p.confidence >= 0.5 {
        tierByRank := t.mid;
      }
      if i > 0 && IntervalsOverlap(ranked[i - 1], p) {
        if tierByRank > prevTier {
          tierByRank := prevTier;
        }
      }
      if tierByRank > prevTier {
        tierByRank := prevTier;
      }
      prevTier := tierByRank;
      tiered := tiered + [NeighborTierUpdate(p.neighbor, [PrefixPref(prefix, tierByRank)])];
    }
  }

  lemma AllLostPermutation(a: seq<PathCost>, b: seq<PathCost>)
    requires multiset(a) == multiset(b)
    ensures AllLost(a) <==> AllLost(b)
  {
    assert forall p :: p in a <==> p in multiset(a);
    assert forall p :: p in b <==> p in multiset(b);
    assert AllLost(a) <==> forall p | p in a :: IsLost(p);
    assert AllLost(b) <==> forall p | p in b :: IsLost(p);
  }

  // ---------- what the tiers mean

  /** In closed form: the least of the top tier and the raw tiers of this and all better ranks. */
  lemma {:induction false} TierIsRunningMinimum(ranked: seq<PathCost>, i: nat, t: Tiers)
    requires i < |ranked|
    ensures TierAt(ranked, i, t) <= t.top
    ensures forall k | 0 <= k <= i :: TierAt(ranked, i, t) <= RawTier(k, ranked[k].confidence, t)
    ensures TierAt(ranked, i, t) == t.top || exists k :: 0 <= k <= i && TierAt(ranked, i, t) == RawTier(k, ranked[k].confidence, t)
  {
    if i == 0 {
    } else {
      TierIsRunningMinimum(ranked, i - 1, t);
    }
  }

  /**
   * A worse rank never gets a higher local-preference, and a path without confidence never more than
   * the default: for any three tiers. For tiers in the intended order, the top one goes to the best
   * rank only, only confident paths rise above the default, and a best path without confidence pins
   * everyone to it.
   */
  lemma TierProperties(ranked: seq<PathCost>, t: Tiers, i: nat, j: nat)
    requires i < j < |ranked| && !AllLost(ranked)
    ensures TierOf(ranked, j, t) <= TierOf(ranked, i, t)
    ensures forall k | 0 <= k < |ranked| && ranked[k].confidence < 0.5 :: TierOf(ranked, k, t) <= t.default'
    ensures t.mid < t.top && t.default' < t.top ==> TierOf(ranked, j, t) < t.top
    ensures t.top > t.mid > t.default' && ranked[0].confidence < 0.5 ==>
              TierOf(ranked, i, t) == TierOf(ranked, j, t) == t.default'
    ensures t.top > t.mid > t.default' ==>
              && (TierOf(ranked, 0, t) == t.top <==> ranked[0].confidence >= 0.5)
              && (TierOf(ranked, 1, t) == t.mid <==> ranked[0].confidence >= 0.5 && ranked[1].confidence >= 0.5)
  {
    forall k | 0 <= k < |ranked| && ranked[k].confidence < 0.5 ensures TierOf(ranked, k, t) <= t.default' {
      ConfidenceNeeded(ranked, t, k);
    }
    TierMonotone(ranked, i, j, t);
    TierIsRunningMinimum(ranked, i, t);
    TierIsRunningMinimum(ranked, j, t);
    assert TierAt(ranked, i, t) <= RawTier(i, ranked[i].confidence, t);
    assert TierAt(ranked, j, t) <= RawTier(j, ranked[j].confidence, t);
    assert TierAt(ranked, i, t) <= RawTier(0, ranked[0].confidence, t);
    assert TierAt(ranked, j, t) <= RawTier(0, ranked[0].confidence, t);
    assert TierAt(ranked, 1, t) == Min(RawTier(1, ranked[1].confidence, t), TierAt(ranked, 0, t));
  }

  /** Whatever its rank, a path without confidence never gets more than the default. */
  lemma ConfidenceNeeded(ranked: seq<PathCost>, t: Tiers, i: nat)
    requires i < |ranked| && ranked[i].confidence < 0.5
    ensures TierOf(ranked, i, t) <= t.default'
  {
    TierIsRunningMinimum(ranked, i, t);
    assert TierAt(ranked, i, t) <= RawTier(i, ranked[i].confidence, t);
  }

  lemma {:induction false} TierMonotone(ranked: seq<PathCost>, i: nat, j: nat, t: Tiers)
    requires i <= j < |ranked|
    ensures TierAt(ranked, j, t) <= TierAt(ranked, i, t)
    decreases j
  {
    if i == j {
    } else {
      TierMonotone(ranked, i, j - 1, t);
    }
  }

  /** The configuration only checks that tiers differ. With mid above top, the second rank gets the top tier too. */
  lemma TopTierSharedWhenMisordered(ranked: seq<PathCost>, t: Tiers)
    requires |ranked| >= 2 && !AllLost(ranked) && ranked[0].confidence >= 0.5 && ranked[1].confidence >= 0.5
    ensures TierOf(ranked, 1, t) == t.top <==> t.mid >= t.top
  {
    assert TierAt(ranked, 1, t) == Min(RawTier(1, ranked[1].confidence, t), TierAt(ranked, 0, t));
  }

  lemma PathLePreorder()
    ensures TotalPreorder(PathLe)
  {
  }

  /** Without equal keys the ranking, and with it every tier, does not depend on the order of the input. */
  lemma RankingUnique(paths: seq<PathCost>, paths': seq<PathCost>, ranked: seq<PathCost>, ranked': seq<PathCost>)
    requires multiset(Named(paths)) == multiset(Named(paths'))
    requires NoTies(multiset(Named(paths)), PathLe)
    requires SortOf(ranked, Named(paths), PathLe) && SortOf(ranked', Named(paths'), PathLe)
    ensures ranked == ranked'
  {
    PathLePreorder();
    SortUnique(ranked, ranked', PathLe);
  }
}
