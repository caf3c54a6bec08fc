/**
 * What the ranking means in the numbers of the candidates: the cheaper path never gets the lower
 * local-preference, and which tier each path gets (internal/score/rank.go).
 */
module Cheapest {
  import opened Sorting
  import opened Actuate
  import opened Score
  import opened Rank
  import opened Decision

  /** The update list gives path p's neighbour this local-preference for the prefix, and nothing else. */
  predicate Gets(us: seq<NeighborTierUpdate>, p: PathCost, prefix: string, v: int) {
    NeighborTierUpdate(p.neighbor, [PrefixPref(prefix, v)]) in us
  }

  /** What RankByTier returns for these paths. */
  ghost predicate Returned(us: seq<NeighborTierUpdate>, paths: seq<PathCost>, prefix: string, t: Tiers) {
    exists ranked :: RankedFrom(ranked, paths) && us == RankedUpdates(ranked, prefix, t)
  }

  /** No two named paths have the same neighbour. */
  ghost predicate OnePerNeighbor(paths: seq<PathCost>) {
    forall i, j | 0 <= i < j < |paths| && paths[i].neighbor != "" :: paths[i].neighbor != paths[j].neighbor
  }

  // ---------- the named paths

  lemma {:induction false} NamedMembers(paths: seq<PathCost>, p: PathCost)
    ensures p in Named(paths) <==> p in paths && p.neighbor != ""
  {
    if paths == [] {
    } else {
      NamedMembers(paths[..|paths| - 1], p);
      assert p in paths <==> p in paths[..|paths| - 1] || p == paths[|paths| - 1];
    }
  }

  lemma {:induction false} NamedDistinct(paths: seq<PathCost>)
    requires OnePerNeighbor(paths)
    ensures DistinctNeighbors(Named(paths))
  {
    if paths == [] {
    } else {
      var front := paths[..|paths| - 1];
      NamedDistinct(front);
      forall i | 0 <= i < |Named(front)|
        ensures Named(front)[i].neighbor != paths[|paths| - 1].neighbor && Named(front)[i].neighbor != "" {
        NamedMembers(front, Named(front)[i]);
        var j :| 0 <= j < |front| && front[j] == Named(front)[i];
        assert paths[j] == front[j];
      }
    }
  }

  lemma RankedDistinct(ranked: seq<PathCost>, paths: seq<PathCost>)
    requires RankedFrom(ranked, paths) && OnePerNeighbor(paths)
    ensures DistinctNeighbors(ranked)
  {
    NamedDistinct(paths);
    PermutedDistinct(Named(paths), ranked);
  }

  /** Where a named path stands. */
  lemma Place(ranked: seq<PathCost>, paths: seq<PathCost>, p: PathCost) returns (k: nat)
    requires RankedFrom(ranked, paths) && p in paths && p.neighbor != ""
    ensures k < |ranked| && ranked[k] == p
  {
    NamedMembers(paths, p);
    assert p in multiset(Named(paths));
    assert p in multiset(ranked);
    k :| 0 <= k < |ranked| && ranked[k] == p;
  }

  lemma RankedPath(ranked: seq<PathCost>, paths: seq<PathCost>, k: nat)
    requires RankedFrom(ranked, paths) && k < |ranked|
    ensures ranked[k] in paths && ranked[k].neighbor != ""
  {
    RankedMembers(ranked, paths, k);
    NamedMembers(paths, ranked[k]);
  }

  /** All are lost exactly if no named path shows any sign of life. */
  lemma LostTogether(ranked: seq<PathCost>, paths: seq<PathCost>)
    requires RankedFrom(ranked, paths)
    ensures AllLost(ranked) <==> AllLost(Named(paths))
    ensures AllLost(ranked) <==>
              forall p | p in paths && p.neighbor != "" ::
                p.egressLossRate >= 1.0 && p.egressRTTUs <= 0.0 && p.ingressJitterUs <= 0.0 && p.ingressGapRate <= 0.0
  {
    AllLostPermutation(ranked, Named(paths));
    if AllLost(ranked) {
      forall p | p in paths && p.neighbor != "" ensures IsLost(p) {
        var k := Place(ranked, paths, p);
      }
    } else {
      var k :| 0 <= k < |ranked| && !IsLost(ranked[k]);
      RankedPath(ranked, paths, k);
    }
  }

  // ---------- the order, in numbers

  /** A lower composite, or an equal one and a lower next hop, comes first. */
  lemma CheaperFirst(ranked: seq<PathCost>, paths: seq<PathCost>, i: nat, j: nat)
    requires RankedFrom(ranked, paths) && i < |ranked| && j < |ranked|
    requires exists p :: p in paths && p.neighbor != "" && !IsLost(p)
    requires
      || ranked[i].composite < ranked[j].composite
      || (ranked[i].composite == ranked[j].composite && ranked[i].nextHopIP < ranked[j].nextHopIP)
    ensures i < j
  {
    LostTogether(ranked, paths);
    assert !PathLe(ranked[j], ranked[i]);
  }

  /** Whatever the tiers are. */
  lemma CheaperNeverLower(ranked: seq<PathCost>, paths: seq<PathCost>, t: Tiers, i: nat, j: nat)
    requires RankedFrom(ranked, paths) && i < |ranked| && j < |ranked|
    requires
      || ranked[i].composite < ranked[j].composite
      || (ranked[i].composite == ranked[j].composite && ranked[i].nextHopIP < ranked[j].nextHopIP)
    ensures TierOf(ranked, j, t) <= TierOf(ranked, i, t)
  {
    LostTogether(ranked, paths);
    if !AllLost(ranked) {
      CheaperFirst(ranked, paths, i, j);
      TierMonotone(ranked, i, j, t);
    }
  }

  /** The first path of a ranking is the one that is before all others, and so on down. */
  lemma FirstPlace(ranked: seq<PathCost>, paths: seq<PathCost>, k: nat)
    requires RankedFrom(ranked, paths) && k < |ranked| && DistinctNeighbors(ranked)
    requires exists p :: p in paths && p.neighbor != "" && !IsLost(p)
    requires forall q | q in paths && q.neighbor != "" && q != ranked[k] ::
               || ranked[k].composite < q.composite
               || (ranked[k].composite == q.composite && ranked[k].nextHopIP < q.nextHopIP)
    ensures k == 0
  {
    if k > 0 {
      RankedPath(ranked, paths, 0);
      CheaperFirst(ranked, paths, k, 0);
    }
  }

  lemma SecondPlace(ranked: seq<PathCost>, paths: seq<PathCost>, k: nat)
    requires RankedFrom(ranked, paths) && 0 < k < |ranked| && DistinctNeighbors(ranked)
    requires exists p :: p in paths && p.neighbor != "" && !IsLost(p)
    requires forall q | q in paths && q.neighbor != "" && q != ranked[k] && q != ranked[0] ::
               || ranked[k].composite < q.composite
               || (ranked[k].composite == q.composite && ranked[k].nextHopIP < q.nextHopIP)
    ensures k == 1
  {
    if k > 1 {
      RankedPath(ranked, paths, 1);
      CheaperFirst(ranked, paths, k, 1);
    }
  }

  // ---------- tiers in the intended order

  /** From the third rank on, everyone has the default. */
  lemma {:induction false} DefaultFromThird(ranked: seq<PathCost>, t: Tiers, k: nat)
    requires k < |ranked| && t.top > t.mid > t.default'
    ensures t.default' <= TierAt(ranked, k, t)
    ensures k >= 2 ==> TierAt(ranked, k, t) == t.default'
  {
    if k > 0 {
      DefaultFromThird(ranked, t, k - 1);
    }
  }

  lemma TiersByRank(ranked: seq<PathCost>, t: Tiers, k: nat)
    requires k < |ranked| && |ranked| >= 2 && !AllLost(ranked) && t.top > t.mid > t.default'
    ensures k == 0 ==> TierOf(ranked, k, t) == if ranked[0].confidence >= 0.5 then t.top else t.default'
    ensures k == 1 ==>
              TierOf(ranked, k, t) ==
              if ranked[0].confidence >= 0.5 && ranked[1].confidence >= 0.5 then t.mid else t.default'
    ensures k >= 2 ==> TierOf(ranked, k, t) == t.default'
  {
    DefaultFromThird(ranked, t, k);
    assert k == 1 ==> TierAt(ranked, 1, t) == Min(RawTier(1, ranked[1].confidence, t), TierAt(ranked, 0, t));
  }

  // ---------- the updates

  lemma UpdateOf(us: seq<NeighborTierUpdate>, ranked: seq<PathCost>, prefix: string, t: Tiers)
    requires us == RankedUpdates(ranked, prefix, t) && DistinctNeighbors(ranked)
    ensures us == Singles(ranked, |ranked|, prefix, t)
  {
    GroupingNeedless(Ranking(prefix, ranked), t);
  }

  lemma GetsTier(us: seq<NeighborTierUpdate>, ranked: seq<PathCost>, prefix: string, t: Tiers, k: nat, v: int)
    requires us == RankedUpdates(ranked, prefix, t) && DistinctNeighbors(ranked) && k < |ranked|
    ensures Gets(us, ranked[k], prefix, v) <==> v == TierOf(ranked, k, t)
  {
    UpdateOf(us, ranked, prefix, t);
    assert us[k] == Single(ranked, k, prefix, t);
  }

  /** One update for each named path and no other, each with exactly one local-preference for the prefix. */
  lemma EachGetsOne(us: seq<NeighborTierUpdate>, paths: seq<PathCost>, prefix: string, t: Tiers)
    requires Returned(us, paths, prefix, t) && OnePerNeighbor(paths)
    ensures |us| == |Named(paths)|
    ensures forall p | p in paths && p.neighbor != "" :: exists v :: Gets(us, p, prefix, v)
    ensures forall p, v, w | p in paths && p.neighbor != "" && Gets(us, p, prefix, v) && Gets(us, p, prefix, w) :: v == w
    ensures forall u | u in us :: exists p, v :: p in paths && u == NeighborTierUpdate(p.neighbor, [PrefixPref(prefix, v)])
  {
    var ranked: seq<PathCost> :| RankedFrom(ranked, paths) && us == RankedUpdates(ranked, prefix, t);
    RankedDistinct(ranked, paths);
    UpdateOf(us, ranked, prefix, t);
    assert |multiset(ranked)| == |ranked| && |multiset(Named(paths))| == |Named(paths)|;
    forall p | p in paths && p.neighbor != ""
      ensures exists v :: Gets(us, p, prefix, v)
      ensures forall v, w | Gets(us, p, prefix, v) && Gets(us, p, prefix, w) :: v == w {
      var k := Place(ranked, paths, p);
      GetsTier(us, ranked, prefix, t, k, TierOf(ranked, k, t));
      forall v | Gets(us, p, prefix, v) ensures v == TierOf(ranked, k, t) {
        GetsTier(us, ranked, prefix, t, k, v);
      }
    }
    forall u | u in us ensures exists p, v :: p in paths && u == NeighborTierUpdate(p.neighbor, [PrefixPref(prefix, v)]) {
      var k :| 0 <= k < |us| && us[k] == u;
      RankedPath(ranked, paths, k);
      assert u == NeighborTierUpdate(ranked[k].neighbor, [PrefixPref(prefix, TierOf(ranked, k, t))]);
    }
  }

  /** The cheaper path's local-preference is no lower; of equal costs, that of the lower next hop. For any tiers. */
  lemma CheaperPreferred(us: seq<NeighborTierUpdate>, paths: seq<PathCost>, prefix: string, t: Tiers,
                         a: PathCost, b: PathCost, v: int, w: int)
    requires Returned(us, paths, prefix, t) && OnePerNeighbor(paths)
    requires a in paths && b in paths && a.neighbor != "" && b.neighbor != ""
    requires Gets(us, a, prefix, v) && Gets(us, b, prefix, w)
    requires a.composite < b.composite || (a.composite == b.composite && a.nextHopIP < b.nextHopIP)
    ensures v >= w
  {
    var ranked: seq<PathCost> :| RankedFrom(ranked, paths) && us == RankedUpdates(ranked, prefix, t);
    RankedDistinct(ranked, paths);
    var i := Place(ranked, paths, a);
    var j := Place(ranked, paths, b);
    GetsTier(us, ranked, prefix, t, i, v);
    GetsTier(us, ranked, prefix, t, j, w);
    CheaperNeverLower(ranked, paths, t, i, j);
  }

  /**
   * With two named paths or more, some of them not lost, and tiers in order: the cheapest path (of equals, the
   * lowest next hop) gets the top tier if it is confident, and alone; if it is not, everyone gets the default.
   */
  lemma CheapestGetsTop(us: seq<NeighborTierUpdate>, paths: seq<PathCost>, prefix: string, t: Tiers,
                        a: PathCost, b: PathCost, v: int, w: int)
    requires Returned(us, paths, prefix, t) && OnePerNeighbor(paths) && t.top > t.mid > t.default'
    requires exists p :: p in paths && p.neighbor != "" &&
               (p.egressLossRate < 1.0 || p.egressRTTUs > 0.0 || p.ingressJitterUs > 0.0 || p.ingressGapRate > 0.0)
    requires a in paths && b in paths && a.neighbor != "" && b.neighbor != "" && a != b
    requires Gets(us, a, prefix, v) && Gets(us, b, prefix, w)
    requires forall q | q in paths && q.neighbor != "" && q != a ::
               a.composite < q.composite || (a.composite == q.composite && a.nextHopIP < q.nextHopIP)
    ensures v == if a.confidence >= 0.5 then t.top else t.default'
    ensures if a.confidence >= 0.5 then w < t.top else w == t.default'
  {
    var ranked: seq<PathCost> :| RankedFrom(ranked, paths) && us == RankedUpdates(ranked, prefix, t);
    RankedDistinct(ranked, paths);
    LostTogether(ranked, paths);
    var i := Place(ranked, paths, a);
    var j := Place(ranked, paths, b);
    GetsTier(us, ranked, prefix, t, i, v);
    GetsTier(us, ranked, prefix, t, j, w);
    FirstPlace(ranked, paths, i);
    TiersByRank(ranked, t, i);
    TiersByRank(ranked, t, j);
  }

  /** The second cheapest gets the middle tier if both are confident, and the default otherwise. */
  lemma SecondGetsMid(us: seq<NeighborTierUpdate>, paths: seq<PathCost>, prefix: string, t: Tiers,
                      a: PathCost, b: PathCost, w: int)
    requires Returned(us, paths, prefix, t) && OnePerNeighbor(paths) && t.top > t.mid > t.default'
    requires exists p :: p in paths && p.neighbor != "" &&
               (p.egressLossRate < 1.0 || p.egressRTTUs > 0.0 || p.ingressJitterUs > 0.0 || p.ingressGapRate > 0.0)
    requires a in paths && b in paths && a.neighbor != "" && b.neighbor != "" && a != b && Gets(us, b, prefix, w)
    requires forall q | q in paths && q.neighbor != "" && q != a ::
               a.composite < q.composite || (a.composite == q.composite && a.nextHopIP < q.nextHopIP)
    requires forall q | q in paths && q.neighbor != "" && q != a && q != b ::
               b.composite < q.composite || (b.composite == q.composite && b.nextHopIP < q.nextHopIP)
    ensures w == if a.confidence >= 0.5 && b.confidence >= 0.5 then t.mid else t.default'
  {
    var ranked: seq<PathCost> :| RankedFrom(ranked, paths) && us == RankedUpdates(ranked, prefix, t);
    RankedDistinct(ranked, paths);
    LostTogether(ranked, paths);
    var i := Place(ranked, paths, a);
    var j := Place(ranked, paths, b);
    GetsTier(us, ranked, prefix, t, j, w);
    FirstPlace(ranked, paths, i);
    SecondPlace(ranked, paths, j);
    TiersByRank(ranked, t, j);
  }

  /** A path with two cheaper ones gets the default, however confident it is. */
  lemma ThirdGetsDefault(us: seq<NeighborTierUpdate>, paths: seq<PathCost>, prefix: string, t: Tiers,
                         a: PathCost, b: PathCost, c: PathCost, x: int)
    requires Returned(us, paths, prefix, t) && OnePerNeighbor(paths) && t.top > t.mid > t.default'
    requires a in paths && b in paths && c in paths && a.neighbor != "" && b.neighbor != "" && c.neighbor != ""
    requires a != b && Gets(us, c, prefix, x)
    requires a.composite < c.composite || (a.composite == c.composite && a.nextHopIP < c.nextHopIP)
    requires b.composite < c.composite || (b.composite == c.composite && b.nextHopIP < c.nextHopIP)
    ensures x == t.default'
  {
    var ranked: seq<PathCost> :| RankedFrom(ranked, paths) && us == RankedUpdates(ranked, prefix, t);
    RankedDistinct(ranked, paths);
    LostTogether(ranked, paths);
    var i := Place(ranked, paths, a);
    var j := Place(ranked, paths, b);
    var k := Place(ranked, paths, c);
    GetsTier(us, ranked, prefix, t, k, x);
    if !AllLost(ranked) {
      CheaperFirst(ranked, paths, i, k);
      CheaperFirst(ranked, paths, j, k);
      TiersByRank(ranked, t, k);
    }
  }

  /** A lone path gets the default, and so does everyone when all are lost. */
  lemma NoChoiceGetsDefault(us: seq<NeighborTierUpdate>, paths: seq<PathCost>, prefix: string, t: Tiers, a: PathCost, v: int)
    requires Returned(us, paths, prefix, t) && OnePerNeighbor(paths)
    requires a in paths && a.neighbor != "" && Gets(us, a, prefix, v)
    requires
      || (forall q | q in paths && q.neighbor != "" :: q == a)
      || forall p | p in paths && p.neighbor != "" ::
           p.egressLossRate >= 1.0 && p.egressRTTUs <= 0.0 && p.ingressJitterUs <= 0.0 && p.ingressGapRate <= 0.0
    ensures v == t.default'
  {
    var ranked: seq<PathCost> :| RankedFrom(ranked, paths) && us == RankedUpdates(ranked, prefix, t);
    RankedDistinct(ranked, paths);
    LostTogether(ranked, paths);
    var i := Place(ranked, paths, a);
    GetsTier(us, ranked, prefix, t, i, v);
    if |ranked| >= 2 {
      RankedPath(ranked, paths, 0);
      RankedPath(ranked, paths, 1);
    }
  }
}
