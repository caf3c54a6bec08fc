/** Path costs and their collapse per neighbour (internal/score/score.go, internal/score/rank.go). */
module Score {
  import opened Arithmetic

  datatype PathCost = PathCost(
    nextHopIP: nat,
    neighbor: string,
    egressRTTUs: real,
    egressLossRate: real,
    ingressJitterUs: real,
    ingressGapRate: real,
    composite: real,
    compositeErr: real,
    confidence: real)

  /** composite() under DefaultWeights. */
  function Composite(pc: PathCost): real {
    1.0 * pc.egressRTTUs + 500.0 * pc.egressLossRate + 1.0 * pc.ingressJitterUs + 300.0 * pc.ingressGapRate
  }

  // ---------- grouping by neighbour

  /** The distinct neighbours in the order in which they are first seen; unnamed ones are skipped. */
  function Order(paths: seq<PathCost>): seq<string> {
    if paths == [] then [] else
      var front, nb := Order(paths[..|paths| - 1]), paths[|paths| - 1].neighbor;
      if nb == "" || nb in front then front else front + [nb]
  }

  function Legs(paths: seq<PathCost>, nb: string): seq<PathCost> {
    if paths == [] then [] else
      var front, last := Legs(paths[..|paths| - 1], nb), paths[|paths| - 1];
      if last.neighbor == nb then front + [last] else front
  }

  function Confident(legs: seq<PathCost>): seq<PathCost> {
    if legs == [] then [] else
      var front, last := Confident(legs[..|legs| - 1]), legs[|legs| - 1];
      if last.confidence > 0.0 then front + [last] else front
  }

  /** The legs that are averaged: the confident ones, or all of them when none is. */
  function Averaged(legs: seq<PathCost>): seq<PathCost> {
    if Confident(legs) != [] then Confident(legs) else legs
  }

  function Sum(legs: seq<PathCost>, f: PathCost -> real): real {
    if legs == [] then 0.0 else Sum(legs[..|legs| - 1], f) + f(legs[|legs| - 1])
  }

  function MaxConfidence(legs: seq<PathCost>): real {
    if legs == [] then 0.0 else
      var front, last := MaxConfidence(legs[..|legs| - 1]), legs[|legs| - 1].confidence;
      if last > front then last else front
  }

  const RTT: PathCost -> real := (p: PathCost) => p.egressRTTUs
  const LOSS: PathCost -> real := (p: PathCost) => p.egressLossRate
  const JITTER: PathCost -> real := (p: PathCost) => p.ingressJitterUs
  const GAP: PathCost -> real := (p: PathCost) => p.ingressGapRate
  const ERR: PathCost -> real := (p: PathCost) => p.compositeErr
  const SQUARED_ERR: PathCost -> real := (p: PathCost) => p.compositeErr * p.compositeErr
  const COST: PathCost -> real := (p: PathCost) => p.composite

  function CollapseLegs(nb: string, legs: seq<PathCost>, sqrt: real -> real): PathCost
    requires legs != []
  {
    var n := |legs| as real;
    if |legs| == 1 then legs[0] else
      var mean := PathCost(0, nb, Sum(legs, RTT) / n, Sum(legs, LOSS) / n, Sum(legs, JITTER) / n, Sum(legs, GAP) / n,
                           0.0, sqrt(Sum(legs, SQUARED_ERR)) / n, MaxConfidence(legs));
      mean.(composite := Composite(mean))
  }

  lemma {:induction false} OrderMembers(paths: seq<PathCost>, nb: string)
    ensures nb in Order(paths) <==> nb != "" && Legs(paths, nb) != []
  {
    if paths == [] {
    } else {
      OrderMembers(paths[..|paths| - 1], nb);
    }
  }

  lemma {:induction false} OrderDistinct(paths: seq<PathCost>)
    ensures forall i, j | 0 <= i < j < |Order(paths)| :: Order(paths)[i] != Order(paths)[j]
  {
    if paths == [] {
    } else {
      OrderDistinct(paths[..|paths| - 1]);
    }
  }

  function Collapse(paths: seq<PathCost>, sqrt: real -> real): (r: seq<PathCost>)
    ensures |r| == |Order(paths)|
  {
    CollapseFirst(paths, |Order(paths)|, sqrt)
  }

  function CollapseFirst(paths: seq<PathCost>, n: nat, sqrt: real -> real): (r: seq<PathCost>)
    requires n <= |Order(paths)|
    ensures |r| == n
    ensures forall i | 0 <= i < n ::
              var nb := Order(paths)[i];
              Averaged(Legs(paths, nb)) != [] && r[i] == CollapseLegs(nb, Averaged(Legs(paths, nb)), sqrt)
  {
    if n == 0 then [] else
      var nb := Order(paths)[n - 1];
      OrderMembers(paths, nb);
      CollapseFirst(paths, n - 1, sqrt) + [CollapseLegs(nb, Averaged(Legs(paths, nb)), sqrt)]
  }

  method CollapseByNeighbor(paths: seq<PathCost>, sqrt: real -> real) returns (result: seq<PathCost>)
    ensures result == Collapse(paths, sqrt)
  {
    var byNeighbor: map<string, seq<PathCost>> := map[];
    var order: seq<string> := [];
    for i := 0 to |paths|
      invariant order == Order(paths[..i])
      invariant "" !in byNeighbor && forall nb :: nb in byNeighbor <==> nb in order
      invariant forall nb | nb in byNeighbor :: byNeighbor[nb] == Legs(paths[..i], nb)
    {
      assert paths[..i + 1][..i] == paths[..i];
      var p := paths[i];
      if p.neighbor == "" {
        continue;
      }
      OrderMembers(paths[..i], p.neighbor);
      if p.neighbor !in byNeighbor {
        byNeighbor := byNeighbor[p.neighbor := []];
        order := order + [p.neighbor];
      }
      byNeighbor := byNeighbor[p.neighbor := byNeighbor[p.neighbor] + [p]];
    }
    assert paths[..|paths|] == paths;

    result := [];
    for i := 0 to |order|
      invariant result == CollapseFirst(paths, i, sqrt)
    {
      OrderMembers(paths, order[i]);
      var collapsed := CollapseGroup(order[i], byNeighbor[order[i]], sqrt);
      result := result + [collapsed];
    }
  }

  /** The body of the second loop: choose the legs, then average them. */
  method CollapseGroup(nb: string, group: seq<PathCost>, sqrt: real -> real) returns (collapsed: PathCost)
    requires group != []
    ensures Averaged(group) != [] && collapsed == CollapseLegs(nb, Averaged(group), sqrt)
  {
    var filtered: seq<PathCost> := [];
    for i := 0 to |group|
      invariant filtered == Confident(group[..i])
    {
      assert group[..i + 1][..i] == group[..i];
      if group[i].confidence > 0.0 {
        filtered := filtered + [group[i]];
      }
    }
    assert group[..|group|] == group;
    var legs := if filtered != [] then filtered else group;
    if |legs| == 1 {
      return legs[0];
    }
    collapsed := AverageLegs(nb, legs, sqrt);
  }

  method AverageLegs(nb: string, legs: seq<PathCost>, sqrt: real -> real) returns (collapsed: PathCost)
    requires |legs| > 1
    ensures collapsed == CollapseLegs(nb, legs, sqrt)
  {
    var rtt, loss, jitter, gap, conf, sumSqErr := 0.0, 0.0, 0.0, 0.0, 0.0, 0.0;
    for i := 0 to |legs|
      invariant rtt == Sum(legs[..i], RTT) && loss == Sum(legs[..i], LOSS)
      invariant jitter == Sum(legs[..i], JITTER) && gap == Sum(legs[..i], GAP)
      invariant sumSqErr == Sum(legs[..i], SQUARED_ERR) && conf == MaxConfidence(legs[..i])
    {
      assert legs[..i + 1][..i] == legs[..i];
      var p := legs[i];
      rtt, loss, jitter, gap := rtt + p.egressRTTUs, loss + p.egressLossRate, jitter + p.ingressJitterUs, gap + p.ingressGapRate;
      sumSqErr := sumSqErr + p.compositeErr * p.compositeErr;
      if p.confidence > conf {
        conf := p.confidence;
      }
    }
    assert legs[..|legs|] == legs;
    var n := |legs| as real;
    collapsed := PathCost(0, nb, rtt / n, loss / n, jitter / n, gap / n, 0.0, sqrt(sumSqErr) / n, conf);
    collapsed := collapsed.(composite := Composite(collapsed));
  }

  // ---------- what the average preserves

  /** sqrt is only ever applied to sums of squares; these two facts about it are all that is used. */
  ghost predicate SquareRoot(sqrt: real -> real) {
    forall x | x >= 0.0 :: sqrt(x) >= 0.0 && sqrt(x) * sqrt(x) == x
  }

  lemma {:induction false} CostSum(legs: seq<PathCost>)
    requires forall p | p in legs :: p.composite == Composite(p)
    ensures Sum(legs, COST) == 1.0 * Sum(legs, RTT) + 500.0 * Sum(legs, LOSS) + 1.0 * Sum(legs, JITTER) + 300.0 * Sum(legs, GAP)
  {
    if legs == [] {
    } else {
      CostSum(legs[..|legs| - 1]);
      assert legs[|legs| - 1] in legs;
    }
  }

  lemma {:induction false} ErrSums(legs: seq<PathCost>)
    requires forall p | p in legs :: p.compositeErr >= 0.0
    ensures 0.0 <= Sum(legs, SQUARED_ERR) <= Sum(legs, ERR) * Sum(legs, ERR) && Sum(legs, ERR) >= 0.0
  {
    if legs == [] {
    } else {
      var front, e := legs[..|legs| - 1], legs[|legs| - 1].compositeErr;
      assert legs[|legs| - 1] in legs;
      ErrSums(front);
      var s := Sum(front, ERR);
      assert (s + e) * (s + e) == s * s + 2.0 * (s * e) + e * e;
      assert s * e >= 0.0;
    }
  }

  lemma RootMonotone(a: real, b: real)
    requires a >= 0.0 && b >= 0.0 && a * a <= b * b
    ensures a <= b
  {
    assert (a - b) * (a + b) == a * a - b * b;
    if a > b {
      Product(a - b, a + b);
    }
  }

  /** Averaging components and recomputing the cost is averaging the costs of legs that carry their own. */
  lemma CollapsedComposite(nb: string, legs: seq<PathCost>, sqrt: real -> real)
    requires legs != [] && forall p | p in legs :: p.composite == Composite(p)
    ensures CollapseLegs(nb, legs, sqrt).composite == Sum(legs, COST) / |legs| as real
  {
    if |legs| == 1 {
      assert legs[..0] == [];
    } else {
      CostSum(legs);
      MeanOfSums(Sum(legs, RTT), Sum(legs, LOSS), Sum(legs, JITTER), Sum(legs, GAP), |legs| as real);
    }
  }

  lemma MeanOfSums(a: real, b: real, c: real, d: real, n: real)
    requires n > 0.0
    ensures 1.0 * (a / n) + 500.0 * (b / n) + 1.0 * (c / n) + 300.0 * (d / n)
         == (1.0 * a + 500.0 * b + 1.0 * c + 300.0 * d) / n
  {
  }

  /** The quadrature error band is never wider than the mean of the legs' bands. */
  lemma CollapsedErr(nb: string, legs: seq<PathCost>, sqrt: real -> real)
    requires legs != [] && SquareRoot(sqrt) && forall p | p in legs :: p.compositeErr >= 0.0
    ensures 0.0 <= CollapseLegs(nb, legs, sqrt).compositeErr <= Sum(legs, ERR) / |legs| as real
  {
    CollapsedErrIs(nb, legs, sqrt);
    if |legs| == 1 {
      LoneErr(legs);
    } else {
      ErrSums(legs);
      MeanRoot(Sum(legs, SQUARED_ERR), Sum(legs, ERR), |legs| as real, sqrt);
    }
  }

  lemma CollapsedErrIs(nb: string, legs: seq<PathCost>, sqrt: real -> real)
    requires legs != []
    ensures CollapseLegs(nb, legs, sqrt).compositeErr ==
            if |legs| == 1 then legs[0].compositeErr else sqrt(Sum(legs, SQUARED_ERR)) / |legs| as real
  {
  }

  lemma LoneErr(legs: seq<PathCost>)
    requires |legs| == 1 && forall p | p in legs :: p.compositeErr >= 0.0
    ensures 0.0 <= legs[0].compositeErr == Sum(legs, ERR) / |legs| as real
  {
    assert legs[..0] == [] && legs[0] in legs;
  }

  lemma MeanRoot(squares: real, sum: real, n: real, sqrt: real -> real)
    requires 0.0 <= squares <= sum * sum && sum >= 0.0 && n > 0.0 && SquareRoot(sqrt)
    ensures 0.0 <= sqrt(squares) / n <= sum / n
  {
    RootMonotone(sqrt(squares), sum);
    Quotients(sqrt(squares), sum, n);
  }
}
