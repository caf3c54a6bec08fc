/** What collapsing a neighbour's legs makes of their numbers (CollapseByNeighbor of internal/score/rank.go). */
module Averages {
  import opened Arithmetic
  import opened Score

  // ---------- which legs count

  lemma {:induction false} LegCount(paths: seq<PathCost>, nb: string, p: PathCost)
    ensures multiset(Legs(paths, nb))[p] == if p.neighbor == nb then multiset(paths)[p] else 0
  {
    if paths == [] {
    } else {
      LegCount(paths[..|paths| - 1], nb, p);
      assert paths == paths[..|paths| - 1] + [paths[|paths| - 1]];
    }
  }

  lemma {:induction false} ConfidentCount(legs: seq<PathCost>, p: PathCost)
    ensures multiset(Confident(legs))[p] == if p.confidence > 0.0 then multiset(legs)[p] else 0
  {
    if legs == [] {
    } else {
      ConfidentCount(legs[..|legs| - 1], p);
      assert legs == legs[..|legs| - 1] + [legs[|legs| - 1]];
    }
  }

  lemma NoneConfident(legs: seq<PathCost>)
    ensures Confident(legs) == [] <==> forall q | q in legs :: q.confidence <= 0.0
  {
    if Confident(legs) != [] {
      var p := Confident(legs)[0];
      assert p in multiset(Confident(legs));
      ConfidentCount(legs, p);
      assert p in multiset(legs);
    } else {
      forall q | q in legs ensures q.confidence <= 0.0 {
        ConfidentCount(legs, q);
        assert q in multiset(legs);
      }
    }
  }

  /**
   * The legs that are averaged for a neighbour, each as often as it occurs: those of positive confidence, or all
   * of them if there is none.
   */
  lemma CountedLegs(paths: seq<PathCost>, nb: string, p: PathCost)
    ensures multiset(Averaged(Legs(paths, nb)))[p] ==
              if p.neighbor == nb
                && (p.confidence > 0.0 || forall q | q in paths && q.neighbor == nb :: q.confidence <= 0.0)
              then multiset(paths)[p] else 0
  {
    var legs := Legs(paths, nb);
    LegCount(paths, nb, p);
    ConfidentCount(legs, p);
    NoneConfident(legs);
    forall q ensures q in legs <==> q in paths && q.neighbor == nb {
      LegCount(paths, nb, q);
      assert q in legs <==> q in multiset(legs);
      assert q in paths <==> q in multiset(paths);
    }
  }

  /** Neighbours come out in the order in which they are first seen. */
  lemma {:induction false} FirstSeenOrder(paths: seq<PathCost>, i: nat, j: nat, l: nat)
    requires i < j < |Order(paths)| && l < |paths| && paths[l].neighbor == Order(paths)[j]
    ensures exists k :: 0 <= k < l && paths[k].neighbor == Order(paths)[i]
    decreases |paths|
  {
    var front := paths[..|paths| - 1];
    OrderDistinct(paths);
    if l == |front| {
      OrderMembers(front, Order(paths)[i]);
      assert Order(front)[i] in Order(front);
      LegCount(front, Order(front)[i], Legs(front, Order(front)[i])[0]);
      var p := Legs(front, Order(front)[i])[0];
      assert p in multiset(Legs(front, Order(front)[i]));
      assert p in multiset(front);
      var k :| 0 <= k < |front| && front[k] == p;
      assert paths[k].neighbor == Order(paths)[i];
    } else {
      OrderMembers(front, front[l].neighbor);
      LegCount(front, front[l].neighbor, front[l]);
      assert front[l] in multiset(front);
      assert front[l] in multiset(Legs(front, front[l].neighbor));
      OrderMembers(paths, Order(paths)[j]);
      assert Order(paths)[j] in Order(front);
      assert j < |Order(front)|;
      FirstSeenOrder(front, i, j, l);
    }
  }

  // ---------- what they become

  lemma SumSnoc(legs: seq<PathCost>, p: PathCost, f: PathCost -> real)
    ensures Sum(legs + [p], f) == Sum(legs, f) + f(p)
  {
    assert (legs + [p])[..|legs|] == legs;
  }

  /** n times the collapsed measurement is the sum of the legs', also for a single one. */
  lemma MeanTimes(nb: string, legs: seq<PathCost>, sqrt: real -> real, n: real)
    requires legs != [] && n == |legs| as real
    ensures var r := CollapseLegs(nb, legs, sqrt);
            && r.egressRTTUs * n == Sum(legs, RTT) && r.egressLossRate * n == Sum(legs, LOSS)
            && r.ingressJitterUs * n == Sum(legs, JITTER) && r.ingressGapRate * n == Sum(legs, GAP)
  {
    var r := CollapseLegs(nb, legs, sqrt);
    Mean(legs, RTT, n, r.egressRTTUs);
    Mean(legs, LOSS, n, r.egressLossRate);
    Mean(legs, JITTER, n, r.ingressJitterUs);
    Mean(legs, GAP, n, r.ingressGapRate);
  }

  lemma Mean(legs: seq<PathCost>, f: PathCost -> real, n: real, mean: real)
    requires legs != [] && n == |legs| as real && mean == if |legs| == 1 then f(legs[0]) else Sum(legs, f) / n
    ensures mean * n == Sum(legs, f)
  {
    if |legs| == 1 {
      SumOne(legs, f);
    } else {
      Cancel(Sum(legs, f), n);
    }
  }

  lemma SumOne(legs: seq<PathCost>, f: PathCost -> real)
    requires |legs| == 1
    ensures Sum(legs, f) == f(legs[0]) == f(legs[0]) * |legs| as real
  {
    assert legs[..0] == [];
  }

  lemma Cancel(x: real, n: real)
    requires n != 0.0
    ensures x / n * n == x
  {
  }

  /** A lone leg passes through; one more leg moves each of the four means by its own value, and by nothing else. */
  lemma OneMoreLeg(nb: string, legs: seq<PathCost>, p: PathCost, sqrt: real -> real)
    requires legs != []
    ensures var r, r', n := CollapseLegs(nb, legs, sqrt), CollapseLegs(nb, legs + [p], sqrt), |legs| as real;
            && (|legs| == 1 ==> r == legs[0])
            && r'.egressRTTUs * (n + 1.0) == r.egressRTTUs * n + p.egressRTTUs
            && r'.egressLossRate * (n + 1.0) == r.egressLossRate * n + p.egressLossRate
            && r'.ingressJitterUs * (n + 1.0) == r.ingressJitterUs * n + p.ingressJitterUs
            && r'.ingressGapRate * (n + 1.0) == r.ingressGapRate * n + p.ingressGapRate
            && r'.neighbor == nb && r'.nextHopIP == 0
            && r'.composite == 1.0 * r'.egressRTTUs + 500.0 * r'.egressLossRate
                               + 1.0 * r'.ingressJitterUs + 300.0 * r'.ingressGapRate
  {
    MeanTimes(nb, legs, sqrt, |legs| as real);
    MeanTimes(nb, legs + [p], sqrt, |legs| as real + 1.0);
    SumSnoc(legs, p, RTT);
    SumSnoc(legs, p, LOSS);
    SumSnoc(legs, p, JITTER);
    SumSnoc(legs, p, GAP);
  }

  lemma {:induction false} SquaresPositive(legs: seq<PathCost>)
    ensures Sum(legs, SQUARED_ERR) >= 0.0
  {
    if legs == [] {
    } else {
      SquaresPositive(legs[..|legs| - 1]);
    }
  }

  lemma RootMean(legs: seq<PathCost>, sqrt: real -> real, n: real, err: real)
    requires legs != [] && SquareRoot(sqrt) && n == |legs| as real
    requires err == if |legs| == 1 then legs[0].compositeErr else sqrt(Sum(legs, SQUARED_ERR)) / n
    ensures (err * n) * (err * n) == Sum(legs, SQUARED_ERR)
  {
    if |legs| == 1 {
      SumOne(legs, SQUARED_ERR);
    } else {
      SquaresPositive(legs);
      RootOfMean(Sum(legs, SQUARED_ERR), n, sqrt);
    }
  }

  lemma RootOfMean(squares: real, n: real, sqrt: real -> real)
    requires squares >= 0.0 && n > 0.0 && SquareRoot(sqrt)
    ensures var e := sqrt(squares) / n * n; e * e == squares
  {
    Cancel(sqrt(squares), n);
  }

  /** The errors add up in quadrature. */
  lemma OneMoreErr(nb: string, legs: seq<PathCost>, p: PathCost, sqrt: real -> real, n: real)
    requires legs != [] && SquareRoot(sqrt) && n == |legs| as real
    ensures var e, e' := CollapseLegs(nb, legs, sqrt).compositeErr, CollapseLegs(nb, legs + [p], sqrt).compositeErr;
            (e' * (n + 1.0)) * (e' * (n + 1.0)) == (e * n) * (e * n) + p.compositeErr * p.compositeErr
  {
    CollapsedErrIs(nb, legs, sqrt);
    CollapsedErrIs(nb, legs + [p], sqrt);
    RootMean(legs, sqrt, n, CollapseLegs(nb, legs, sqrt).compositeErr);
    RootMean(legs + [p], sqrt, n + 1.0, CollapseLegs(nb, legs + [p], sqrt).compositeErr);
    SumSnoc(legs, p, SQUARED_ERR);
  }

  lemma {:induction false} MaxIsMax(legs: seq<PathCost>)
    ensures MaxConfidence(legs) >= 0.0 && forall q | q in legs :: q.confidence <= MaxConfidence(legs)
    ensures MaxConfidence(legs) == 0.0 || exists q :: q in legs && q.confidence == MaxConfidence(legs)
  {
    if legs == [] {
    } else {
      var front, last := legs[..|legs| - 1], legs[|legs| - 1];
      MaxIsMax(front);
      assert legs == front + [last];
      assert last in legs;
      forall q | q in front ensures q in legs {
      }
    }
  }

  /** The confidence of a collapsed neighbour is the greatest of its legs'; 0 if several legs have none. */
  lemma GreatestConfidence(paths: seq<PathCost>, nb: string, sqrt: real -> real)
    requires Legs(paths, nb) != []
    ensures Averaged(Legs(paths, nb)) != []
    ensures var r := CollapseLegs(nb, Averaged(Legs(paths, nb)), sqrt);
            && (forall q | q in paths && q.neighbor == nb :: q.confidence <= r.confidence)
            && (r.confidence == 0.0 || exists q :: q in paths && q.neighbor == nb && q.confidence == r.confidence)
  {
    var legs := Averaged(Legs(paths, nb));
    var r := CollapseLegs(nb, legs, sqrt);
    NoneConfident(Legs(paths, nb));
    CollapsedConfidence(nb, legs, sqrt);
    WhichLegs(paths, nb);
    var q :| q in legs && (|legs| == 1 ==> q == legs[0]);
    forall p | p in paths && p.neighbor == nb ensures p.confidence <= r.confidence {
      if p !in legs {
        assert p.confidence <= 0.0 && q.confidence > 0.0;
      }
    }
  }

  lemma CollapsedConfidence(nb: string, legs: seq<PathCost>, sqrt: real -> real)
    requires legs != []
    ensures var r := CollapseLegs(nb, legs, sqrt);
            && (forall q | q in legs :: q.confidence <= r.confidence)
            && (r.confidence == 0.0 || exists q :: q in legs && q.confidence == r.confidence)
  {
    MaxIsMax(legs);
  }

  /** CountedLegs, as a set. */
  lemma WhichLegs(paths: seq<PathCost>, nb: string)
    ensures forall q :: q in Averaged(Legs(paths, nb)) <==>
              q in paths && q.neighbor == nb
              && (q.confidence > 0.0 || forall p | p in paths && p.neighbor == nb :: p.confidence <= 0.0)
  {
    var legs := Averaged(Legs(paths, nb));
    forall q ensures q in legs <==>
                     q in paths && q.neighbor == nb
                     && (q.confidence > 0.0 || forall p | p in paths && p.neighbor == nb :: p.confidence <= 0.0) {
      CountedLegs(paths, nb, q);
      assert q in legs <==> q in multiset(legs);
      assert q in paths <==> q in multiset(paths);
    }
  }
}
