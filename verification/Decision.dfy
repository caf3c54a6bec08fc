/**
 * Step 6 of the tick (cmd/daemon/main.go): rank every in-scope prefix, regroup by neighbour; and what
 * the router does with the result.
 */
module Decision {
  import opened Options
  import opened Names
  import opened Addresses
  import opened Sorting
  import opened Router
  import opened Actuate
  import opened TierScripts
  import opened Compilation
  import opened Restart
  import opened Score
  import opened Rank

  /** One prefix with its candidates, best first. */
  datatype Ranking = Ranking(prefix: string, ranked: seq<PathCost>)

  ghost predicate DistinctNeighbors(ranked: seq<PathCost>) {
    && (forall i, j | 0 <= i < j < |ranked| :: ranked[i].neighbor != ranked[j].neighbor)
    && (forall i | 0 <= i < |ranked| :: ranked[i].neighbor != "")
  }

  /** Each prefix once, each neighbour at most once per prefix. */
  ghost predicate WellRanked(rs: seq<Ranking>) {
    && (forall i, j | 0 <= i < j < |rs| :: rs[i].prefix != rs[j].prefix)
    && (forall i {:trigger DistinctNeighbors(rs[i].ranked)} | 0 <= i < |rs| :: DistinctNeighbors(rs[i].ranked))
  }

  function Updates(r: Ranking, t: Tiers): seq<NeighborTierUpdate> {
    Singles(r.ranked, |r.ranked|, r.prefix, t)
  }

  function AllUpdates(rs: seq<Ranking>, t: Tiers): seq<NeighborTierUpdate> {
    if rs == [] then [] else AllUpdates(rs[..|rs| - 1], t) + Updates(rs[|rs| - 1], t)
  }

  // ---------- grouping loses nothing and duplicates nothing

  function Tagged(nb: string, prefs: seq<PrefixPref>): multiset<(string, PrefixPref)> {
    if prefs == [] then multiset{} else Tagged(nb, prefs[..|prefs| - 1]) + multiset{(nb, prefs[|prefs| - 1])}
  }

  /** All (neighbour, preference) pairs of a list of updates, with multiplicity. */
  function Pairs(us: seq<NeighborTierUpdate>): multiset<(string, PrefixPref)> {
    if us == [] then multiset{} else
      Pairs(us[..|us| - 1]) + Tagged(us[|us| - 1].neighbor, us[|us| - 1].prefs)
  }

  lemma {:induction false} TaggedCount(nb: string, prefs: seq<PrefixPref>, other: string, pp: PrefixPref)
    ensures Tagged(nb, prefs)[(other, pp)] == if other == nb then multiset(prefs)[pp] else 0
  {
    if prefs == [] {
    } else {
      TaggedCount(nb, prefs[..|prefs| - 1], other, pp);
      assert prefs == prefs[..|prefs| - 1] + [prefs[|prefs| - 1]];
    }
  }

  lemma {:induction false} PairsCount(us: seq<NeighborTierUpdate>, nb: string, pp: PrefixPref)
    ensures Pairs(us)[(nb, pp)] == multiset(PrefsOf(us, nb))[pp]
  {
    if us == [] {
    } else {
      PairsCount(us[..|us| - 1], nb, pp);
      TaggedCount(us[|us| - 1].neighbor, us[|us| - 1].prefs, nb, pp);
    }
  }

  lemma PairsSnoc(us: seq<NeighborTierUpdate>, u: NeighborTierUpdate)
    ensures Pairs(us + [u]) == Pairs(us) + Tagged(u.neighbor, u.prefs)
  {
    assert (us + [u])[..|us|] == us;
  }

  lemma {:induction false} GroupedPairsCount(us: seq<NeighborTierUpdate>, n: nat, nb: string, pp: PrefixPref)
    requires n <= |Rank.Neighbors(us)|
    ensures Pairs(GroupedFirst(us, n))[(nb, pp)] ==
              if nb in Rank.Neighbors(us)[..n] then multiset(PrefsOf(us, nb))[pp] else 0
  {
    if n == 0 {
    } else {
      var names := Rank.Neighbors(us);
      var name, prefs := names[n - 1], PrefsOf(us, names[n - 1]);
      GroupedPairsCount(us, n - 1, nb, pp);
      PairsSnoc(GroupedFirst(us, n - 1), NeighborTierUpdate(name, prefs));
      TaggedCount(name, prefs, nb, pp);
      FirstNames(us, n, nb);
    }
  }

  lemma FirstNames(us: seq<NeighborTierUpdate>, n: nat, nb: string)
    requires 0 < n <= |Rank.Neighbors(us)|
    ensures var names := Rank.Neighbors(us);
            && (nb in names[..n] <==> nb in names[..n - 1] || nb == names[n - 1])
            && !(nb in names[..n - 1] && nb == names[n - 1])
  {
    var names := Rank.Neighbors(us);
    NeighborsDistinct(us);
    assert names[..n] == names[..n - 1] + [names[n - 1]];
  }

  /** Regrouping conserves the multiset of (neighbour, prefix, local-preference), with one update per neighbour. */
  lemma GroupingConserves(us: seq<NeighborTierUpdate>)
    ensures Pairs(Grouped(us)) == Pairs(us)
    ensures forall i, j | 0 <= i < j < |Grouped(us)| :: Grouped(us)[i].neighbor != Grouped(us)[j].neighbor
  {
    var names := Rank.Neighbors(us);
    NeighborsDistinct(us);
    forall nb, pp ensures Pairs(Grouped(us))[(nb, pp)] == Pairs(us)[(nb, pp)] {
      PairsCount(us, nb, pp);
      GroupedPairsCount(us, |names|, nb, pp);
      assert names[..|names|] == names;
      if nb !in names {
        PrefsOfNone(us, nb);
      }
    }
    assert forall x :: Pairs(Grouped(us))[x] == Pairs(us)[(x.0, x.1)] && (x.0, x.1) == x;
  }

  // ---------- what a neighbour's update says

  /** The rank of a neighbour in one ranking, or the length of the ranking. */
  function RankIn(ranked: seq<PathCost>, nb: string, n: nat): (k: nat)
    requires n <= |ranked|
    ensures k <= n && (k < n ==> ranked[k].neighbor == nb)
    ensures forall i | 0 <= i < k :: ranked[i].neighbor != nb
  {
    if n == 0 then 0 else
      var k := RankIn(ranked, nb, n - 1);
      if k < n - 1 || ranked[n - 1].neighbor == nb then k else n
  }

  /** The tier that the rankings give to a (prefix, neighbour) pair; the last ranking of a prefix counts. */
  function Decided(rs: seq<Ranking>, t: Tiers, prefix: string, nb: string): Option<int> {
    if rs == [] then None else
      var last := rs[|rs| - 1];
      var k := RankIn(last.ranked, nb, |last.ranked|);
      if last.prefix == prefix && k < |last.ranked| then Some(TierOf(last.ranked, k, t))
      else Decided(rs[..|rs| - 1], t, prefix, nb)
  }

  lemma {:induction false} PrefsOfAppend(a: seq<NeighborTierUpdate>, b: seq<NeighborTierUpdate>, nb: string)
    ensures PrefsOf(a + b, nb) == PrefsOf(a, nb) + PrefsOf(b, nb)
  {
    if b == [] {
      assert a + b == a;
    } else {
      assert (a + b)[..|a + b| - 1] == a + b[..|b| - 1];
      PrefsOfAppend(a, b[..|b| - 1], nb);
    }
  }

  lemma PrefsOfSnoc(us: seq<NeighborTierUpdate>, u: NeighborTierUpdate, nb: string)
    ensures PrefsOf(us + [u], nb) == PrefsOf(us, nb) + if u.neighbor == nb then u.prefs else []
  {
    assert (us + [u])[..|us|] == us;
  }

  /** The preference list that one ranking contributes to a neighbour. */
  function Contribution(r: Ranking, n: nat, t: Tiers, nb: string): seq<PrefixPref>
    requires n <= |r.ranked|
  {
    var k := RankIn(r.ranked, nb, n);
    if k < n then Single(r.ranked, k, r.prefix, t).prefs else []
  }

  lemma {:induction false} PrefsOfSingles(r: Ranking, n: nat, t: Tiers, nb: string)
    requires n <= |r.ranked| && DistinctNeighbors(r.ranked)
    ensures PrefsOf(Singles(r.ranked, n, r.prefix, t), nb) == Contribution(r, n, t, nb)
  {
    if n == 0 {
    } else {
      PrefsOfSingles(r, n - 1, t, nb);
      var u := Single(r.ranked, n - 1, r.prefix, t);
      PrefsOfSnoc(Singles(r.ranked, n - 1, r.prefix, t), u, nb);
      assert u.neighbor == r.ranked[n - 1].neighbor;
    }
  }

  lemma {:induction false} AssignedAppend(a: seq<PrefixPref>, b: seq<PrefixPref>, prefix: string)
    ensures Assigned(a + b, prefix) == if Assigned(a, prefix).Some? then Assigned(a, prefix) else Assigned(b, prefix)
  {
    if a == [] {
      assert a + b == b;
    } else {
      assert (a + b)[1..] == a[1..] + b;
      AssignedAppend(a[1..], b, prefix);
    }
  }

  lemma {:induction false} DecidedNone(rs: seq<Ranking>, t: Tiers, prefix: string, nb: string)
    requires forall i | 0 <= i < |rs| :: rs[i].prefix != prefix
    ensures Decided(rs, t, prefix, nb) == None
  {
    if rs == [] {
    } else {
      DecidedNone(rs[..|rs| - 1], t, prefix, nb);
    }
  }

  lemma {:induction false} PrefsDecide(rs: seq<Ranking>, t: Tiers, prefix: string, nb: string)
    requires WellRanked(rs)
    ensures Assigned(PrefsOf(AllUpdates(rs, t), nb), prefix) == Decided(rs, t, prefix, nb)
  {
    if rs == [] {
    } else {
      var front, last := rs[..|rs| - 1], rs[|rs| - 1];
      PrefsDecide(front, t, prefix, nb);
      PrefsOfAppend(AllUpdates(front, t), Updates(last, t), nb);
      PrefsOfSingles(last, |last.ranked|, t, nb);
      var a, b := PrefsOf(AllUpdates(front, t), nb), Contribution(last, |last.ranked|, t, nb);
      AssignedAppend(a, b, prefix);
      ContributionDecides(last, t, prefix, nb);
      if last.prefix == prefix {
        DecidedNone(front, t, prefix, nb);
      }
    }
  }

  lemma ContributionDecides(r: Ranking, t: Tiers, prefix: string, nb: string)
    ensures Assigned(Contribution(r, |r.ranked|, t, nb), prefix) ==
              var k := RankIn(r.ranked, nb, |r.ranked|);
              if r.prefix == prefix && k < |r.ranked| then Some(TierOf(r.ranked, k, t)) else None
  {
  }

  ghost predicate RankedIn(ranked: seq<PathCost>, nb: string) {
    exists k :: 0 <= k < |ranked| && ranked[k].neighbor == nb
  }

  /** The neighbour is a candidate for some prefix. */
  ghost predicate RankedSomewhere(rs: seq<Ranking>, nb: string) {
    exists i :: 0 <= i < |rs| && RankedIn(rs[i].ranked, nb)
  }

  lemma {:induction false} AllUpdatesNeighbors(rs: seq<Ranking>, t: Tiers, nb: string)
    ensures nb in Rank.Neighbors(AllUpdates(rs, t)) <==> RankedSomewhere(rs, nb)
  {
    if rs == [] {
    } else {
      var front, last := rs[..|rs| - 1], rs[|rs| - 1];
      AllUpdatesNeighbors(front, t, nb);
      NeighborsAppend(AllUpdates(front, t), Updates(last, t), nb);
      UpdatesNeighbors(last, t, nb);
      SomewhereNext(rs, nb);
    }
  }

  lemma UpdatesNeighbors(r: Ranking, t: Tiers, nb: string)
    ensures nb in Rank.Neighbors(Updates(r, t)) <==> RankedIn(r.ranked, nb)
  {
    NeighborsMembers(Updates(r, t), nb);
    if k :| 0 <= k < |r.ranked| && r.ranked[k].neighbor == nb {
      assert Updates(r, t)[k].neighbor == nb;
    }
  }

  lemma SomewhereNext(rs: seq<Ranking>, nb: string)
    requires rs != []
    ensures RankedSomewhere(rs, nb) <==>
              RankedSomewhere(rs[..|rs| - 1], nb) || RankedIn(rs[|rs| - 1].ranked, nb)
  {
    var front := rs[..|rs| - 1];
    if i :| 0 <= i < |front| && RankedIn(front[i].ranked, nb) {
      assert RankedIn(rs[i].ranked, nb);
    }
    if i :| 0 <= i < |rs| && RankedIn(rs[i].ranked, nb) && i < |front| {
      assert RankedIn(front[i].ranked, nb);
    }
  }

  /** A regrouped update is made of everything its neighbour was given. */
  lemma GroupedUpdate(us: seq<NeighborTierUpdate>, u: NeighborTierUpdate)
    requires u in Grouped(us)
    ensures u.prefs == PrefsOf(us, u.neighbor) && u.neighbor in Rank.Neighbors(us)
  {
    var i :| 0 <= i < |Grouped(us)| && Grouped(us)[i] == u;
    assert u == NeighborTierUpdate(Rank.Neighbors(us)[i], PrefsOf(us, Rank.Neighbors(us)[i]));
  }

  /** Regrouped, each ranked neighbour has one update, and it assigns to each prefix the decided tier. */
  lemma UpdateDecides(rs: seq<Ranking>, t: Tiers, u: NeighborTierUpdate, prefix: string)
    requires WellRanked(rs) && u in Grouped(AllUpdates(rs, t))
    ensures Assigned(u.prefs, prefix) == Decided(rs, t, prefix, u.neighbor)
  {
    GroupedUpdate(AllUpdates(rs, t), u);
    PrefsDecide(rs, t, prefix, u.neighbor);
  }

  ghost predicate DistinctPrefixes(prefs: seq<PrefixPref>) {
    forall j, k | 0 <= j < k < |prefs| :: prefs[j].prefix != prefs[k].prefix
  }

  ghost predicate PrefixesWithin(prefs: seq<PrefixPref>, prefixes: set<string>) {
    forall k | 0 <= k < |prefs| :: prefs[k].prefix in prefixes
  }

  function PrefixesOf(rs: seq<Ranking>): set<string> {
    set i | 0 <= i < |rs| :: rs[i].prefix
  }

  lemma {:induction false} MentionsRanked(rs: seq<Ranking>, t: Tiers, nb: string)
    requires WellRanked(rs)
    ensures PrefixesWithin(PrefsOf(AllUpdates(rs, t), nb), PrefixesOf(rs))
    ensures DistinctPrefixes(PrefsOf(AllUpdates(rs, t), nb))
  {
    if rs == [] {
    } else {
      var front, last := rs[..|rs| - 1], rs[|rs| - 1];
      MentionsRanked(front, t, nb);
      assert DistinctNeighbors(last.ranked);
      PrefsOfAppend(AllUpdates(front, t), Updates(last, t), nb);
      PrefsOfSingles(last, |last.ranked|, t, nb);
      PrefixesGrow(rs);
      NewMention(PrefixesOf(front), last.prefix, PrefsOf(AllUpdates(front, t), nb), PrefsOf(Updates(last, t), nb));
    }
  }

  lemma PrefixesGrow(rs: seq<Ranking>)
    requires rs != [] && forall i | 0 <= i < |rs| - 1 :: rs[i].prefix != rs[|rs| - 1].prefix
    ensures PrefixesOf(rs) == PrefixesOf(rs[..|rs| - 1]) + {rs[|rs| - 1].prefix}
    ensures rs[|rs| - 1].prefix !in PrefixesOf(rs[..|rs| - 1])
  {
  }

  lemma NewMention(prefixes: set<string>, prefix: string, a: seq<PrefixPref>, b: seq<PrefixPref>)
    requires PrefixesWithin(a, prefixes) && DistinctPrefixes(a) && prefix !in prefixes
    requires |b| <= 1 && forall k | 0 <= k < |b| :: b[k].prefix == prefix
    ensures PrefixesWithin(a + b, prefixes + {prefix}) && DistinctPrefixes(a + b)
  {
  }

  /** Each (neighbour, prefix) is mentioned once: no update of the regrouped ones lists a prefix twice. */
  lemma MentionedOnce(rs: seq<Ranking>, t: Tiers, u: NeighborTierUpdate)
    requires WellRanked(rs) && u in Grouped(AllUpdates(rs, t))
    ensures DistinctPrefixes(u.prefs)
  {
    GroupedUpdate(AllUpdates(rs, t), u);
    MentionsRanked(rs, t, u.neighbor);
  }

  /** So an update lists exactly the (prefix, tier) pairs that are decided for its neighbour. */
  lemma MentionsExactly(rs: seq<Ranking>, t: Tiers, u: NeighborTierUpdate, pp: PrefixPref)
    requires WellRanked(rs) && u in Grouped(AllUpdates(rs, t))
    ensures multiset(u.prefs)[pp] == if Decided(rs, t, pp.prefix, u.neighbor) == Some(pp.localPref) then 1 else 0
  {
    UpdateDecides(rs, t, u, pp.prefix);
    MentionedOnce(rs, t, u);
    AssignedCount(u.prefs, pp);
  }

  lemma {:induction false} AssignedCount(prefs: seq<PrefixPref>, pp: PrefixPref)
    requires DistinctPrefixes(prefs)
    ensures multiset(prefs)[pp] == if Assigned(prefs, pp.prefix) == Some(pp.localPref) then 1 else 0
  {
    if prefs == [] {
    } else {
      var rest := prefs[1..];
      assert prefs == [prefs[0]] + rest;
      AssignedCount(rest, pp);
      if prefs[0].prefix == pp.prefix {
        forall k | 0 <= k < |rest| ensures rest[k].prefix != pp.prefix {
          assert prefs[0].prefix != prefs[k + 1].prefix;
        }
        NotAssigned(rest, pp.prefix);
      }
    }
  }

  lemma {:induction false} NotAssigned(prefs: seq<PrefixPref>, prefix: string)
    requires forall k | 0 <= k < |prefs| :: prefs[k].prefix != prefix
    ensures Assigned(prefs, prefix).None?
  {
    if prefs == [] {
    } else {
      NotAssigned(prefs[1..], prefix);
    }
  }

  lemma UpdateExists(rs: seq<Ranking>, t: Tiers, i: nat, k: nat) returns (u: NeighborTierUpdate)
    requires WellRanked(rs) && i < |rs| && k < |rs[i].ranked|
    ensures u in Grouped(AllUpdates(rs, t)) && u.neighbor == rs[i].ranked[k].neighbor
    ensures Decided(rs, t, rs[i].prefix, u.neighbor) == Some(TierOf(rs[i].ranked, k, t))
  {
    var us, nb := AllUpdates(rs, t), rs[i].ranked[k].neighbor;
    assert RankedIn(rs[i].ranked, nb);
    AllUpdatesNeighbors(rs, t, nb);
    var n :| 0 <= n < |Rank.Neighbors(us)| && Rank.Neighbors(us)[n] == nb;
    u := Grouped(us)[n];
    DecidedAt(rs, t, i, k);
  }

  lemma {:induction false} DecidedAt(rs: seq<Ranking>, t: Tiers, i: nat, k: nat)
    requires WellRanked(rs) && i < |rs| && k < |rs[i].ranked|
    ensures Decided(rs, t, rs[i].prefix, rs[i].ranked[k].neighbor) == Some(TierOf(rs[i].ranked, k, t))
  {
    if i == |rs| - 1 {
      assert DistinctNeighbors(rs[i].ranked);
      var n := RankIn(rs[i].ranked, rs[i].ranked[k].neighbor, |rs[i].ranked|);
      assert n == k;
    } else {
      var front := rs[..|rs| - 1];
      assert front[i] == rs[i];
      DecidedAt(front, t, i, k);
    }
  }

  lemma {:induction false} GroupedPrefs(rs: seq<Ranking>, t: Tiers, nb: string)
    requires forall i | 0 <= i < |rs| :: IsCidr(rs[i].prefix) && DistinctNeighbors(rs[i].ranked)
    ensures CidrPrefs(PrefsOf(AllUpdates(rs, t), nb))
    ensures nb in Rank.Neighbors(AllUpdates(rs, t)) ==> PrefsOf(AllUpdates(rs, t), nb) != []
  {
    if rs == [] {
    } else {
      var front, last := rs[..|rs| - 1], rs[|rs| - 1];
      GroupedPrefs(front, t, nb);
      PrefsOfAppend(AllUpdates(front, t), Updates(last, t), nb);
      PrefsOfSingles(last, |last.ranked|, t, nb);
      NeighborsAppend(AllUpdates(front, t), Updates(last, t), nb);
      NeighborsMembers(Updates(last, t), nb);
    }
  }

  lemma NeighborsAppend(a: seq<NeighborTierUpdate>, b: seq<NeighborTierUpdate>, nb: string)
    ensures nb in Rank.Neighbors(a + b) <==> nb in Rank.Neighbors(a) || nb in Rank.Neighbors(b)
  {
    NeighborsMembers(a + b, nb);
    NeighborsMembers(a, nb);
    NeighborsMembers(b, nb);
    assert forall i | 0 <= i < |a| :: (a + b)[i] == a[i];
    assert forall i | 0 <= i < |b| :: (a + b)[|a| + i] == b[i];
    if i :| 0 <= i < |a + b| && (a + b)[i].neighbor == nb && i >= |a| {
      assert b[i - |a|].neighbor == nb;
    }
  }

  ghost predicate IPv4Rankings(rs: seq<Ranking>) {
    && WellRanked(rs)
    && (forall i | 0 <= i < |rs| :: IsCidr(rs[i].prefix))
    && (forall i, k | 0 <= i < |rs| && 0 <= k < |rs[i].ranked| :: IsIPv4(rs[i].ranked[k].neighbor))
  }

  /** Rankings of IPv4 neighbours for IPv4 prefixes regroup into updates that SetNeighborTiers can send. */
  lemma GroupedLegal(rs: seq<Ranking>, t: Tiers, u: NeighborTierUpdate)
    requires IPv4Rankings(rs) && u in Grouped(AllUpdates(rs, t))
    ensures LegalUpdate(u) && u.prefs != []
  {
    GroupedUpdate(AllUpdates(rs, t), u);
    GroupedPrefs(rs, t, u.neighbor);
    AllUpdatesNeighbors(rs, t, u.neighbor);
  }

  // ---------- end to end

  /**
   * From candidates to routes: after a successful SetNeighborTiers with its regrouped update, whatever
   * the router held before, a neighbour's route for a ranked prefix carries exactly the tier of its
   * rank, and a route for any other prefix passes unchanged, or, if the slot counts were lost, with what
   * is stale.
   */
  lemma RankedRoutes(
      d: Dialect, w: World, rs: seq<Ranking>, t: Tiers, u: NeighborTierUpdate, fault: nat, prefix: string, pref: int)
    requires Sound(w) && IPv4Rankings(rs) && u in Grouped(AllUpdates(rs, t)) && prefix != NEVER_CIDR
    ensures var r := SetTiers(d, w, u, fault);
            var stale := StalePref(w.config, MapName(u.neighbor), SlotsOf(w, u), prefix);
            r.1 ==> Receive(r.0.config, u.neighbor, prefix, pref) ==
                    Accepted(Decided(rs, t, prefix, u.neighbor).GetOr(if Good(w) then pref else stale.GetOr(pref)))
  {
    GroupedLegal(rs, t, u);
    UpdateDecides(rs, t, u, prefix);
    if SetTiers(d, w, u, fault).1 {
      UpdateVerdict(d, w, u, fault, prefix, pref);
    }
  }

  /** The decision does not depend on the order in which the prefixes were visited. */
  lemma OrderIrrelevant(rs: seq<Ranking>, rs': seq<Ranking>, t: Tiers, prefix: string, nb: string)
    requires WellRanked(rs) && WellRanked(rs') && forall r :: r in rs <==> r in rs'
    ensures Decided(rs, t, prefix, nb) == Decided(rs', t, prefix, nb)
  {
    if i :| 0 <= i < |rs| && rs[i].prefix == prefix && RankIn(rs[i].ranked, nb, |rs[i].ranked|) < |rs[i].ranked| {
      var k := RankIn(rs[i].ranked, nb, |rs[i].ranked|);
      DecidedAt(rs, t, i, k);
      assert rs[i] in rs';
      var j :| 0 <= j < |rs'| && rs'[j] == rs[i];
      DecidedAt(rs', t, j, k);
    } else {
      Undecided(rs, t, prefix, nb);
      forall j | 0 <= j < |rs'| && rs'[j].prefix == prefix
        ensures RankIn(rs'[j].ranked, nb, |rs'[j].ranked|) == |rs'[j].ranked| {
        assert rs'[j] in rs;
      }
      Undecided(rs', t, prefix, nb);
    }
  }

  lemma {:induction false} Undecided(rs: seq<Ranking>, t: Tiers, prefix: string, nb: string)
    requires forall i | 0 <= i < |rs| && rs[i].prefix == prefix :: RankIn(rs[i].ranked, nb, |rs[i].ranked|) == |rs[i].ranked|
    ensures Decided(rs, t, prefix, nb) == None
  {
    if rs == [] {
    } else {
      Undecided(rs[..|rs| - 1], t, prefix, nb);
    }
  }

  /** Without equal keys the visit of the same input decides the same, in any order and with any sort. */
  lemma ScopeDetermined(rs: seq<Ranking>, rs': seq<Ranking>, inScope: set<string>, cold: map<string, seq<PathCost>>,
                        t: Tiers, sqrt: real -> real, prefix: string, nb: string)
    requires Visited(rs, inScope, cold, sqrt) && Visited(rs', inScope, cold, sqrt)
    requires forall p | p in inScope :: NoTies(multiset(Named(CandidatesOf(cold, p, sqrt))), PathLe)
    ensures Decided(rs, t, prefix, nb) == Decided(rs', t, prefix, nb)
  {
    forall r | r in rs ensures r in rs' {
      SameRanking(rs, rs', inScope, cold, sqrt, r);
    }
    forall r | r in rs' ensures r in rs {
      SameRanking(rs', rs, inScope, cold, sqrt, r);
    }
    OrderIrrelevant(rs, rs', t, prefix, nb);
  }

  lemma SameRanking(rs: seq<Ranking>, rs': seq<Ranking>, inScope: set<string>, cold: map<string, seq<PathCost>>,
                    sqrt: real -> real, r: Ranking)
    requires Visited(rs, inScope, cold, sqrt) && Visited(rs', inScope, cold, sqrt) && r in rs
    requires forall p | p in inScope :: NoTies(multiset(Named(CandidatesOf(cold, p, sqrt))), PathLe)
    ensures r in rs'
  {
    var i :| 0 <= i < |rs| && rs[i] == r;
    assert RankingOf(rs[i], cold, sqrt);
    var j :| 0 <= j < |rs'| && rs'[j].prefix == r.prefix;
    assert RankingOf(rs'[j], cold, sqrt);
    var candidates := CandidatesOf(cold, r.prefix, sqrt);
    RankedUnique(r.ranked, rs'[j].ranked, candidates);
  }

  lemma RankedUnique(a: seq<PathCost>, b: seq<PathCost>, candidates: seq<PathCost>)
    requires RankedFrom(a, candidates) && RankedFrom(b, candidates) && NoTies(multiset(Named(candidates)), PathLe)
    ensures a == b
  {
    if AllLost(Named(candidates)) {
    } else {
      RankingUnique(candidates, candidates, a, b);
    }
  }

  // ---------- the loop of step 6

  /** Each candidate's composite, as recorded for the mirror. */
  function Composites(candidates: seq<PathCost>): map<string, real> {
    if candidates == [] then map[] else
      Composites(candidates[..|candidates| - 1])[candidates[|candidates| - 1].neighbor := candidates[|candidates| - 1].composite]
  }

  function CandidatesOf(cold: map<string, seq<PathCost>>, prefix: string, sqrt: real -> real): seq<PathCost> {
    Collapse(if prefix in cold then cold[prefix] else [], sqrt)
  }

  /** A ranking of the collapsed candidates of its prefix, by any sort. */
  ghost predicate RankingOf(r: Ranking, cold: map<string, seq<PathCost>>, sqrt: real -> real) {
    RankedFrom(r.ranked, CandidatesOf(cold, r.prefix, sqrt))
  }

  lemma {:induction false} LegsNamed(paths: seq<PathCost>, nb: string)
    ensures forall p | p in Legs(paths, nb) :: p.neighbor == nb
    ensures forall p | p in Confident(Legs(paths, nb)) :: p.neighbor == nb
  {
    if paths != [] {
      LegsNamed(paths[..|paths| - 1], nb);
    }
    ConfidentSubset(Legs(paths, nb));
  }

  lemma {:induction false} ConfidentSubset(legs: seq<PathCost>)
    ensures forall p | p in Confident(legs) :: p in legs
  {
    if legs == [] {
    } else {
      ConfidentSubset(legs[..|legs| - 1]);
    }
  }

  lemma CollapsedNames(paths: seq<PathCost>, sqrt: real -> real)
    ensures forall i | 0 <= i < |Order(paths)| ::
              Collapse(paths, sqrt)[i].neighbor == Order(paths)[i] && Order(paths)[i] != ""
  {
    var r, order := Collapse(paths, sqrt), Order(paths);
    forall i | 0 <= i < |r| ensures r[i].neighbor == order[i] && order[i] != "" {
      OrderMembers(paths, order[i]);
      LegsNamed(paths, order[i]);
    }
  }

  lemma CollapsedDistinct(paths: seq<PathCost>, sqrt: real -> real)
    ensures DistinctNeighbors(Collapse(paths, sqrt)) && Named(Collapse(paths, sqrt)) == Collapse(paths, sqrt)
  {
    OrderDistinct(paths);
    CollapsedNames(paths, sqrt);
    NamedAll(Collapse(paths, sqrt));
  }

  lemma {:induction false} NamedAll(paths: seq<PathCost>)
    requires forall i | 0 <= i < |paths| :: paths[i].neighbor != ""
    ensures Named(paths) == paths
  {
    if paths == [] {
    } else {
      NamedAll(paths[..|paths| - 1]);
      assert paths == paths[..|paths| - 1] + [paths[|paths| - 1]];
    }
  }

  lemma PermutedDistinct(a: seq<PathCost>, b: seq<PathCost>)
    requires DistinctNeighbors(a) && multiset(a) == multiset(b)
    ensures DistinctNeighbors(b)
  {
    forall i | 0 <= i < |b| ensures b[i].neighbor != "" {
      assert b[i] in multiset(a);
    }
    forall i, j | 0 <= i < j < |b| ensures b[i].neighbor != b[j].neighbor {
      var k, l := TwoPositions(a, b, i, j);
    }
  }

  /** Two positions of a permutation come from two positions. */
  lemma TwoPositions(a: seq<PathCost>, b: seq<PathCost>, i: nat, j: nat) returns (k: nat, l: nat)
    requires multiset(a) == multiset(b) && i < j < |b|
    ensures k < |a| && l < |a| && k != l && a[k] == b[i] && a[l] == b[j]
  {
    assert b[i] in multiset(a) && b[j] in multiset(a);
    k :| 0 <= k < |a| && a[k] == b[i];
    if b[i] != b[j] {
      l :| 0 <= l < |a| && a[l] == b[j];
    } else {
      CountTwice(b, i, j);
      l := OtherPosition(a, k);
    }
  }

  lemma OtherPosition(a: seq<PathCost>, k: nat) returns (l: nat)
    requires k < |a| && multiset(a)[a[k]] >= 2
    ensures l < |a| && l != k && a[l] == a[k]
  {
    var rest := a[..k] + a[k + 1..];
    assert a == a[..k] + [a[k]] + a[k + 1..];
    assert multiset(a) == multiset(rest) + multiset{a[k]};
    assert a[k] in multiset(rest);
    var m :| 0 <= m < |rest| && rest[m] == a[k];
    l := if m < k then m else m + 1;
  }

  /** With one candidate per neighbour there is nothing to group within a prefix. */
  lemma GroupingNeedless(r: Ranking, t: Tiers)
    requires DistinctNeighbors(r.ranked)
    ensures Grouped(Updates(r, t)) == Updates(r, t)
  {
    var us := Updates(r, t);
    NeighborsOfDistinct(us);
    forall i | 0 <= i < |r.ranked| ensures Grouped(us)[i] == us[i] {
      PrefsAtRank(r, t, i);
    }
  }

  lemma PrefsAtRank(r: Ranking, t: Tiers, i: nat)
    requires DistinctNeighbors(r.ranked) && i < |r.ranked|
    ensures PrefsOf(Updates(r, t), r.ranked[i].neighbor) == Single(r.ranked, i, r.prefix, t).prefs
  {
    PrefsOfSingles(r, |r.ranked|, t, r.ranked[i].neighbor);
    assert RankIn(r.ranked, r.ranked[i].neighbor, |r.ranked|) == i;
  }

  lemma {:induction false} NeighborsOfDistinct(us: seq<NeighborTierUpdate>)
    requires forall i, j | 0 <= i < j < |us| :: us[i].neighbor != us[j].neighbor
    ensures |Rank.Neighbors(us)| == |us| && forall i | 0 <= i < |us| :: Rank.Neighbors(us)[i] == us[i].neighbor
  {
    if us == [] {
    } else {
      NeighborsOfDistinct(us[..|us| - 1]);
    }
  }

  lemma AllUpdatesSnoc(rs: seq<Ranking>, r: Ranking, t: Tiers)
    ensures AllUpdates(rs + [r], t) == AllUpdates(rs, t) + Updates(r, t)
  {
    assert (rs + [r])[..|rs|] == rs;
  }

  /** One well-formed ranking for each of the prefixes, and for no other. */
  ghost predicate Visited(rs: seq<Ranking>, prefixes: set<string>, cold: map<string, seq<PathCost>>, sqrt: real -> real) {
    && WellRanked(rs)
    && (forall i | 0 <= i < |rs| :: rs[i].prefix in prefixes)
    && (forall i {:trigger RankingOf(rs[i], cold, sqrt)} | 0 <= i < |rs| :: RankingOf(rs[i], cold, sqrt))
    && (forall p | p in prefixes :: exists i :: 0 <= i < |rs| && rs[i].prefix == p)
  }

  lemma VisitedSnoc(rs: seq<Ranking>, prefixes: set<string>, r: Ranking, cold: map<string, seq<PathCost>>, sqrt: real -> real)
    requires Visited(rs, prefixes, cold, sqrt) && r.prefix !in prefixes
    requires DistinctNeighbors(r.ranked) && RankingOf(r, cold, sqrt)
    ensures Visited(rs + [r], prefixes + {r.prefix}, cold, sqrt)
  {
    var rs' := rs + [r];
    assert forall i | 0 <= i < |rs| :: rs'[i] == rs[i];
    assert rs'[|rs|] == r;
    forall i | 0 <= i < |rs'| ensures RankingOf(rs'[i], cold, sqrt) && DistinctNeighbors(rs'[i].ranked) {
      if i < |rs| {
        assert RankingOf(rs[i], cold, sqrt) && DistinctNeighbors(rs[i].ranked);
      }
    }
    EachVisited(rs, prefixes, r);
  }

  lemma EachVisited(rs: seq<Ranking>, prefixes: set<string>, r: Ranking)
    requires forall p | p in prefixes :: exists i :: 0 <= i < |rs| && rs[i].prefix == p
    ensures forall p | p in prefixes + {r.prefix} :: exists i :: 0 <= i < |rs + [r]| && (rs + [r])[i].prefix == p
  {
    var rs' := rs + [r];
    assert rs'[|rs|] == r;
    forall p | p in prefixes + {r.prefix} ensures exists i :: 0 <= i < |rs'| && rs'[i].prefix == p {
      if p in prefixes {
        var i :| 0 <= i < |rs| && rs[i].prefix == p;
        assert rs'[i].prefix == p;
      }
    }
  }

  ghost predicate Recorded(composites: map<string, map<string, real>>, prefixes: set<string>,
                           cold: map<string, seq<PathCost>>, sqrt: real -> real) {
    Tabulates(composites, prefixes, p => Composites(CandidatesOf(cold, p, sqrt)))
  }

  ghost predicate Tabulates<V>(m: map<string, V>, keys: set<string>, f: string -> V) {
    m.Keys == keys && forall k | k in keys :: m[k] == f(k)
  }

  lemma TabulatesNext<V>(m: map<string, V>, keys: set<string>, f: string -> V, k: string)
    requires Tabulates(m, keys, f)
    ensures Tabulates(m[k := f(k)], keys + {k}, f)
  {
  }

  lemma VisitRest(inScope: set<string>, pending: set<string>, prefix: string)
    requires prefix in pending && pending <= inScope
    ensures inScope - (pending - {prefix}) == inScope - pending + {prefix} && prefix !in inScope - pending
  {
  }

  /**
   * Step 6, in whatever order the map of in-scope prefixes is walked: the updates are the regrouped
   * decisions of one ranking per prefix, and every candidate's composite is on record.
   */
  method RankScope(inScope: set<string>, cold: map<string, seq<PathCost>>, t: Tiers, sqrt: real -> real)
    returns (updates: seq<NeighborTierUpdate>, candidateComposite: map<string, map<string, real>>, ghost rs: seq<Ranking>)
    ensures Visited(rs, inScope, cold, sqrt) && updates == Grouped(AllUpdates(rs, t))
    ensures Recorded(candidateComposite, inScope, cold, sqrt)
  {
    var perPrefix: seq<seq<NeighborTierUpdate>> := [];
    var pending := inScope;
    ghost var visited: set<string> := {};
    candidateComposite, rs := map[], [];
    while pending != {}
      invariant pending <= inScope && visited == inScope - pending
      invariant Progress(perPrefix, candidateComposite, rs, visited, cold, t, sqrt)
      decreases |pending|
    {
      var prefix :| prefix in pending;
      VisitRest(inScope, pending, prefix);
      pending := pending - {prefix};
      var r, updates', composites := RankPrefix(prefix, cold, t, sqrt);
      ProgressNext(perPrefix, candidateComposite, rs, visited, cold, t, sqrt, r);
      candidateComposite := candidateComposite[prefix := composites];
      if |updates'| > 0 {
        perPrefix := perPrefix + [updates'];
      }
      rs, visited := rs + [r], visited + {prefix};
    }
    assert visited == inScope;
    updates := GroupByNeighbor(perPrefix);
  }

  /** The state of the loop after the visited prefixes. */
  ghost predicate Progress(
      perPrefix: seq<seq<NeighborTierUpdate>>, composites: map<string, map<string, real>>, rs: seq<Ranking>,
      visited: set<string>, cold: map<string, seq<PathCost>>, t: Tiers, sqrt: real -> real) {
    && Visited(rs, visited, cold, sqrt) && Recorded(composites, visited, cold, sqrt)
    && Flatten(perPrefix) == AllUpdates(rs, t)
  }

  lemma ProgressNext(
      perPrefix: seq<seq<NeighborTierUpdate>>, composites: map<string, map<string, real>>, rs: seq<Ranking>,
      visited: set<string>, cold: map<string, seq<PathCost>>, t: Tiers, sqrt: real -> real, r: Ranking)
    requires Progress(perPrefix, composites, rs, visited, cold, t, sqrt)
    requires r.prefix !in visited && DistinctNeighbors(r.ranked) && RankingOf(r, cold, sqrt)
    ensures Progress(if |Updates(r, t)| > 0 then perPrefix + [Updates(r, t)] else perPrefix,
                     composites[r.prefix := Composites(CandidatesOf(cold, r.prefix, sqrt))],
                     rs + [r], visited + {r.prefix}, cold, t, sqrt)
  {
    FlattenNonEmpty(perPrefix, Updates(r, t));
    AllUpdatesSnoc(rs, r, t);
    VisitedSnoc(rs, visited, r, cold, sqrt);
    RecordedNext(composites, visited, r.prefix, cold, sqrt);
  }

  lemma RecordedNext(
      composites: map<string, map<string, real>>, visited: set<string>, prefix: string,
      cold: map<string, seq<PathCost>>, sqrt: real -> real)
    requires Recorded(composites, visited, cold, sqrt) && prefix !in visited
    ensures Recorded(composites[prefix := Composites(CandidatesOf(cold, prefix, sqrt))], visited + {prefix}, cold, sqrt)
  {
    TabulatesNext(composites, visited, p => Composites(CandidatesOf(cold, p, sqrt)), prefix);
  }

  lemma FlattenNonEmpty(xs: seq<seq<NeighborTierUpdate>>, x: seq<NeighborTierUpdate>)
    ensures Flatten(if |x| > 0 then xs + [x] else xs) == Flatten(xs) + x
  {
    FlattenSnoc(xs, x);
  }

  lemma FlattenSnoc(xs: seq<seq<NeighborTierUpdate>>, x: seq<NeighborTierUpdate>)
    ensures Flatten(xs + [x]) == Flatten(xs) + x
  {
    assert (xs + [x])[..|xs|] == xs;
  }

  method RankPrefix(prefix: string, cold: map<string, seq<PathCost>>, t: Tiers, sqrt: real -> real)
    returns (ghost r: Ranking, updates: seq<NeighborTierUpdate>, composites: map<string, real>)
    ensures r.prefix == prefix && DistinctNeighbors(r.ranked) && RankingOf(r, cold, sqrt)
    ensures updates == Updates(r, t) && composites == Composites(CandidatesOf(cold, prefix, sqrt))
  {
    var candidates := CollapseByNeighbor(if prefix in cold then cold[prefix] else [], sqrt);
    composites := RecordComposites(candidates);
    updates := RankByTier(candidates, prefix, t);
    ghost var ranked :| RankedFrom(ranked, candidates) && updates == Rank.RankedUpdates(ranked, prefix, t);
    r := Ranking(prefix, ranked);
    CollapsedDistinct(if prefix in cold then cold[prefix] else [], sqrt);
    RankedCandidates(candidates, ranked);
    GroupingNeedless(r, t);
  }

  lemma RankedCandidates(candidates: seq<PathCost>, ranked: seq<PathCost>)
    requires DistinctNeighbors(candidates) && Named(candidates) == candidates
    requires RankedFrom(ranked, candidates)
    ensures DistinctNeighbors(ranked)
  {
    PermutedDistinct(candidates, ranked);
  }

  method RecordComposites(candidates: seq<PathCost>) returns (composites: map<string, real>)
    ensures composites == Composites(candidates)
  {
    composites := map[];
    for i := 0 to |candidates|
      invariant composites == Composites(candidates[..i])
    {
      assert candidates[..i + 1][..i] == candidates[..i];
      composites := composites[candidates[i].neighbor := candidates[i].composite];
    }
    assert candidates[..|candidates|] == candidates;
  }
}
