/**
 * Krum and Multi-Krum: selection of the updates closest to their n - f - 2 nearest
 * neighbours, and the bound that ties every selected update to the honest ones whatever
 * the (at most f) corrupted peers send.
 */
module Krum {
  import opened Wrappers
  import opened Numerics
  import opened Vectors
  import opened Aggregation
  import FedAvg

  /** n >= 2f + 3, the requirement both strategies check. */
  predicate EnoughUpdates(n: nat, f: nat) { n >= 2 * f + 3 }

  // ---- Distances and scores ---------------------------------------------

  /** The symmetric distance matrix with a zero diagonal. */
  method ComputeDistances(norm: Norm, ws: seq<Vec>) returns (d: array2<real>)
    requires IsEuclidean(norm) && SameShape(ws)
    ensures d.Length0 == d.Length1 == |ws|
    ensures forall i, j :: 0 <= i < |ws| && 0 <= j < |ws| && i != j ==> d[i, j] == Dist(norm, ws[i], ws[j])
    ensures forall i :: 0 <= i < |ws| ==> d[i, i] == 0.0
  {
    var n := |ws|;
    d := new real[n, n]((i, j) => 0.0);
    for i := 0 to n
      invariant forall a, b :: 0 <= a < n && 0 <= b < n && a != b && (a < i || b < i) ==>
          d[a, b] == Dist(norm, ws[a], ws[b])
      invariant forall a :: 0 <= a < n ==> d[a, a] == 0.0
    {
      for j := i + 1 to n
        invariant forall a, b :: 0 <= a < n && 0 <= b < n && a != b && (a < i || b < i) ==>
            d[a, b] == Dist(norm, ws[a], ws[b])
        invariant forall b :: i < b < j ==> d[i, b] == Dist(norm, ws[i], ws[b]) && d[b, i] == Dist(norm, ws[b], ws[i])
        invariant forall a :: 0 <= a < n ==> d[a, a] == 0.0
      {
        var dist := Dist(norm, ws[i], ws[j]);
        DistSymmetric(norm, ws[i], ws[j]);
        d[i, j] := dist;
        d[j, i] := dist;
      }
    }
  }

  /** Index among all peers of the a-th neighbour of i (np.delete removes i itself). */
  function Neighbour(i: nat, a: nat): nat { if a < i then a else a + 1 }

  /** Distances from peer i to its neighbours, in index order. */
  function NeighbourDistances(norm: Norm, ws: seq<Vec>, i: nat): (v: seq<real>)
    requires SameShape(ws) && i < |ws|
    ensures |v| == |ws| - 1
    ensures forall a :: 0 <= a < |v| ==> v[a] == Dist(norm, ws[i], ws[Neighbour(i, a)])
  {
    seq(|ws| - 1, a requires 0 <= a < |ws| - 1 => Dist(norm, ws[i], ws[Neighbour(i, a)]))
  }

  /** The Krum score: the sum of the n - f - 2 smallest neighbour distances. */
  function Score(norm: Norm, ws: seq<Vec>, f: nat, i: nat): real
    requires SameShape(ws) && i < |ws| && |ws| >= f + 2
  {
    Sum(Sort(NeighbourDistances(norm, ws, i))[..|ws| - f - 2])
  }

  /** No choice of n - f - 2 neighbours has a smaller total distance, and some choice has this one. */
  lemma ScoreIsLeastSum(norm: Norm, ws: seq<Vec>, f: nat, i: nat)
    requires SameShape(ws) && i < |ws| && |ws| >= f + 2
    ensures IsLeastSum(NeighbourDistances(norm, ws, i), |ws| - f - 2, Score(norm, ws, f, i))
  {
    SmallestSumIsMinimum(NeighbourDistances(norm, ws, i), |ws| - f - 2);
  }

  method DeleteSelf(norm: Norm, ws: seq<Vec>, d: array2<real>, i: nat) returns (neighbours: seq<real>)
    requires SameShape(ws) && i < |ws| && d.Length0 == d.Length1 == |ws|
    requires forall j :: 0 <= j < |ws| && j != i ==> d[i, j] == Dist(norm, ws[i], ws[j])
    ensures neighbours == NeighbourDistances(norm, ws, i)
  {
    neighbours := [];
    for j := 0 to d.Length1
      invariant |neighbours| == if j <= i then j else j - 1
      invariant forall a :: 0 <= a < |neighbours| ==> neighbours[a] == d[i, Neighbour(i, a)]
    {
      if j != i { neighbours := neighbours + [d[i, j]]; }
    }
  }

  method ComputeScores(norm: Norm, ws: seq<Vec>, f: nat, d: array2<real>) returns (scores: seq<real>)
    requires SameShape(ws) && |ws| >= f + 2
    requires d.Length0 == d.Length1 == |ws|
    requires forall i, j :: 0 <= i < |ws| && 0 <= j < |ws| && i != j ==> d[i, j] == Dist(norm, ws[i], ws[j])
    ensures |scores| == |ws|
    ensures forall i :: 0 <= i < |ws| ==> IsLeastSum(NeighbourDistances(norm, ws, i), |ws| - f - 2, scores[i])
    ensures forall i :: 0 <= i < |ws| ==> scores[i] == Score(norm, ws, f, i)
  {
    hide IsLeastSum, NeighbourDistances;
    var n := d.Length0;
    var closest := n - f - 2;
    scores := [];
    for i := 0 to n
      invariant |scores| == i
      invariant forall k :: 0 <= k < i ==> scores[k] == Score(norm, ws, f, k)
      invariant forall k :: 0 <= k < i ==> IsLeastSum(NeighbourDistances(norm, ws, k), |ws| - f - 2, scores[k])
    {
      ScoreIsLeastSum(norm, ws, f, i);
      var neighbours := DeleteSelf(norm, ws, d, i);
      scores := scores + [Sum(Sort(neighbours)[..closest])];
    }
  }

  // ---- The honest peers --------------------------------------------------

  /** H holds at least n - f peers and their updates are pairwise within D. */
  ghost predicate HonestCluster(norm: Norm, ws: seq<Vec>, f: nat, H: set<nat>, D: real) {
    && SameShape(ws)
    && (forall h :: h in H ==> h < |ws|)
    && |H| + f >= |ws|
    && (forall a, b :: a in H && b in H ==> Dist(norm, ws[a], ws[b]) <= D)
  }

  /** n - f - 2, the number of neighbours that make up a score. */
  ghost function Scored(n: nat, f: nat): real { (n - f - 2) as real }

  /** n - 2f - 2, the number of those that are honest at the least. */
  ghost function Core(n: nat, f: nat): real { (n - 2 * f - 2) as real }

  ghost function Cap(n: nat, f: nat, D: real): real { Scored(n, f) * D }

  ghost function Limit(n: nat, f: nat, D: real): real { (Scored(n, f) + Core(n, f)) * D }

  ghost predicate Within(norm: Norm, ws: seq<Vec>, H: set<nat>, p: Vec, core: real, limit: real)
    requires SameShape(ws) && (forall h :: h in H ==> h < |ws|) && (ws != [] ==> |p| == |ws[0]|)
  {
    forall h :: h in H ==> core * Dist(norm, p, ws[h]) <= limit
  }

  /** (n-2f-2) * dist(p, h) <= ((n-f-2) + (n-2f-2)) * D for every honest h. */
  ghost predicate NearHonest(norm: Norm, ws: seq<Vec>, f: nat, H: set<nat>, D: real, p: Vec)
    requires SameShape(ws) && (forall h :: h in H ==> h < |ws|) && (ws != [] ==> |p| == |ws[0]|)
  {
    Within(norm, ws, H, p, Core(|ws|, f), Limit(|ws|, f, D))
  }

  /** Honest peers by their position among the neighbours of i. */
  ghost function HonestNeighbours(H: set<nat>, i: nat, n: nat): set<nat> {
    set a: nat | a < n - 1 && Neighbour(i, a) in H
  }

  /** Counting honest peers below m, with i deleted from the list. */
  lemma {:induction false} DeletionCount(H: set<nat>, i: nat, n: nat, m: nat)
    requires i < n && i !in H && m <= n
    ensures CountIn(HonestNeighbours(H, i, n), if m <= i then m else m - 1) == CountIn(H, m)
  {
    if m > 0 {
      DeletionCount(H, i, n, m - 1);
    }
  }

  /** Deleting a corrupted peer from the list loses no honest one. */
  lemma HonestNeighbourCount(H: set<nat>, i: nat, n: nat)
    requires i < n && (forall h :: h in H ==> h < n) && i !in H
    ensures |HonestNeighbours(H, i, n)| == |H|
  {
    DeletionCount(H, i, n, n);
    CountIsCardinality(H, n);
    CountIsCardinality(HonestNeighbours(H, i, n), n - 1);
  }

  lemma HonestNeighboursAbound(H: set<nat>, i: nat, n: nat, f: nat)
    requires i < n && (forall h :: h in H ==> h < n) && |H| + f >= n
    ensures |HonestNeighbours(H, i, n)| >= n - f - 1
  {
    HonestNeighbourCount(H - {i}, i, n);
    assert HonestNeighbours(H - {i}, i, n) == HonestNeighbours(H, i, n);
  }

  /** An honest peer has n - f - 2 honest neighbours, and they cost no less than its score. */
  lemma HonestScoreWitness(norm: Norm, ws: seq<Vec>, f: nat, H: set<nat>, D: real, h: nat) returns (S: set<nat>)
    requires HonestCluster(norm, ws, f, H, D) && EnoughUpdates(|ws|, f) && h in H
    ensures |S| == |ws| - f - 2 && forall a :: a in S ==> a < |ws| - 1 && Neighbour(h, a) in H
    ensures var v := NeighbourDistances(norm, ws, h); Score(norm, ws, f, h) <= SumIn(v, S, |v|)
  {
    HonestNeighboursAbound(H, h, |ws|, f);
    S := SubsetOfSize(HonestNeighbours(H, h, |ws|), |ws| - f - 2);
    SmallestSumIsLeast(NeighbourDistances(norm, ws, h), |ws| - f - 2, S);
  }

  lemma HonestSumIsLow(norm: Norm, ws: seq<Vec>, f: nat, H: set<nat>, D: real, h: nat, S: set<nat>)
    requires HonestCluster(norm, ws, f, H, D) && EnoughUpdates(|ws|, f) && h in H
    requires |S| == |ws| - f - 2 && forall a :: a in S ==> a < |ws| - 1 && Neighbour(h, a) in H
    ensures var v := NeighbourDistances(norm, ws, h); SumIn(v, S, |v|) <= Cap(|ws|, f, D)
  {
    SetSumUpper(NeighbourDistances(norm, ws, h), S, Scored(|ws|, f), D);
  }

  /** So the score of an honest peer is low. */
  lemma HonestScoreIsLow(norm: Norm, ws: seq<Vec>, f: nat, H: set<nat>, D: real, h: nat)
    requires HonestCluster(norm, ws, f, H, D) && EnoughUpdates(|ws|, f) && h in H
    ensures Score(norm, ws, f, h) <= Cap(|ws|, f, D)
  {
    var S := HonestScoreWitness(norm, ws, f, H, D, h);
    HonestSumIsLow(norm, ws, f, H, D, h, S);
  }

  /** Among the n - f - 2 nearest neighbours of any peer, n - 2f - 2 are honest. */
  lemma HonestAmongNearest(H: set<nat>, N: set<nat>, i: nat, n: nat, f: nat) returns (Q: set<nat>)
    requires i < n && n >= 2 * f + 3 && (forall h :: h in H ==> h < n) && |H| + f >= n
    requires |N| == n - f - 2 && forall a :: a in N ==> a < n - 1
    ensures Q <= N && |Q| == n - 2 * f - 2 && forall a :: a in Q ==> Neighbour(i, a) in H
  {
    var B := HonestNeighbours(H, i, n);
    HonestNeighboursAbound(H, i, n, f);
    FitsBelow(N + B, n - 1);
    assert |N + B| == |N| + |B| - |N * B|;
    Q := SubsetOfSize(N * B, n - 2 * f - 2);
  }

  lemma BoundArithmetic(n: nat, f: nat, d: real, D: real, b: real, sum: real)
    requires b == d - D && Core(n, f) * b <= sum <= Cap(n, f, D)
    ensures Core(n, f) * d <= Limit(n, f, D)
  {
    Distribute(d, D, Core(n, f));
    Distribute(Scored(n, f), Core(n, f), D);
  }

  lemma SharedNeighbourBound(norm: Norm, p: Vec, q: Vec, h: Vec, D: real)
    requires IsEuclidean(norm) && |p| == |q| == |h| && Dist(norm, q, h) <= D
    ensures Dist(norm, p, q) >= Dist(norm, p, h) - D
  {
    DistTriangle(norm, p, q, h);
  }

  lemma NeighbourDistancesNonNegative(norm: Norm, ws: seq<Vec>, p: nat)
    requires IsEuclidean(norm) && SameShape(ws) && p < |ws|
    ensures var v := NeighbourDistances(norm, ws, p); forall a: nat :: a < |v| ==> v[a] >= 0.0
  {
    var v := NeighbourDistances(norm, ws, p);
    forall a: nat | a < |v|
      ensures v[a] >= 0.0
    {
      DistSymmetric(norm, ws[p], ws[Neighbour(p, a)]);
    }
  }

  /** Honest neighbours of p are no closer to p than h is, up to D. */
  lemma HonestNeighboursBound(norm: Norm, ws: seq<Vec>, f: nat, H: set<nat>, D: real, p: nat, h: nat, Q: set<nat>,
      b: real)
    requires IsEuclidean(norm) && HonestCluster(norm, ws, f, H, D) && p < |ws| && h in H
    requires forall a :: a in Q ==> a < |ws| - 1 && Neighbour(p, a) in H
    requires b == Dist(norm, ws[p], ws[h]) - D && Core(|ws|, f) == |Q| as real
    ensures var v := NeighbourDistances(norm, ws, p); Core(|ws|, f) * b <= SumIn(v, Q, |v|)
  {
    hide SumIn, Dist, Core, NeighbourDistances;
    var v := NeighbourDistances(norm, ws, p);
    forall a | a in Q
      ensures a < |v| && v[a] >= b
    {
      SharedNeighbourBound(norm, ws[p], ws[Neighbour(p, a)], ws[h], D);
    }
    SetSumLower(v, Q, Core(|ws|, f), b);
  }

  /** The score bounds the distances to n - 2f - 2 honest neighbours. */
  lemma ScoreCoversHonest(norm: Norm, ws: seq<Vec>, f: nat, H: set<nat>, D: real, p: nat) returns (Q: set<nat>)
    requires IsEuclidean(norm) && HonestCluster(norm, ws, f, H, D) && EnoughUpdates(|ws|, f) && p < |ws|
    ensures |Q| == |ws| - 2 * f - 2 && forall a :: a in Q ==> a < |ws| - 1 && Neighbour(p, a) in H
    ensures var v := NeighbourDistances(norm, ws, p); SumIn(v, Q, |v|) <= Score(norm, ws, f, p)
  {
    var v := NeighbourDistances(norm, ws, p);
    var N := SmallestIndices(v, |ws| - f - 2);
    Q := HonestAmongNearest(H, N, p, |ws|, f);
    NeighbourDistancesNonNegative(norm, ws, p);
    SumInMonotone(v, Q, N, |v|);
  }

  lemma CoveredIsNear(norm: Norm, ws: seq<Vec>, f: nat, H: set<nat>, D: real, p: nat, h: nat, Q: set<nat>, score: real)
    requires IsEuclidean(norm) && HonestCluster(norm, ws, f, H, D) && EnoughUpdates(|ws|, f) && p < |ws| && h in H
    requires |Q| == |ws| - 2 * f - 2 && forall a :: a in Q ==> a < |ws| - 1 && Neighbour(p, a) in H
    requires var v := NeighbourDistances(norm, ws, p); SumIn(v, Q, |v|) <= score <= Cap(|ws|, f, D)
    ensures Core(|ws|, f) * Dist(norm, ws[p], ws[h]) <= Limit(|ws|, f, D)
  {
    var v := NeighbourDistances(norm, ws, p);
    var d := Dist(norm, ws[p], ws[h]);
    HonestNeighboursBound(norm, ws, f, H, D, p, h, Q, d - D);
    BoundArithmetic(|ws|, f, d, D, d - D, SumIn(v, Q, |v|));
  }

  /** A peer with an honest-looking score is close to every honest peer. */
  lemma LowScoreIsNear(norm: Norm, ws: seq<Vec>, f: nat, H: set<nat>, D: real, p: nat, h: nat)
    requires IsEuclidean(norm) && HonestCluster(norm, ws, f, H, D) && EnoughUpdates(|ws|, f)
    requires p < |ws| && h in H && Score(norm, ws, f, p) <= Cap(|ws|, f, D)
    ensures Core(|ws|, f) * Dist(norm, ws[p], ws[h]) <= Limit(|ws|, f, D)
  {
    var Q := ScoreCoversHonest(norm, ws, f, H, D, p);
    CoveredIsNear(norm, ws, f, H, D, p, h, Q, Score(norm, ws, f, p));
  }

  /** A selected index whose score is at most that of some honest peer is near all of them. */
  lemma NoWorseThanHonestIsNear(norm: Norm, ws: seq<Vec>, f: nat, H: set<nat>, D: real, p: nat, g: nat)
    requires IsEuclidean(norm) && HonestCluster(norm, ws, f, H, D) && EnoughUpdates(|ws|, f)
    requires p < |ws| && g in H && Score(norm, ws, f, p) <= Score(norm, ws, f, g)
    ensures NearHonest(norm, ws, f, H, D, ws[p])
  {
    HonestScoreIsLow(norm, ws, f, H, D, g);
    forall h | h in H
      ensures Core(|ws|, f) * Dist(norm, ws[p], ws[h]) <= Limit(|ws|, f, D)
    {
      LowScoreIsNear(norm, ws, f, H, D, p, h);
    }
  }

  // ---- Krum ---------------------------------------------------------------

  /** No peer scores less than p. */
  ghost predicate IsLeastScore(norm: Norm, ws: seq<Vec>, f: nat, p: nat) {
    && SameShape(ws) && p < |ws| && |ws| >= f + 2
    && forall i :: 0 <= i < |ws| ==> Score(norm, ws, f, p) <= Score(norm, ws, f, i)
  }

  /** np.argmin takes the first such peer. */
  ghost predicate IsFirstLeast(norm: Norm, ws: seq<Vec>, f: nat, p: nat) {
    IsLeastScore(norm, ws, f, p) && forall i :: 0 <= i < p ==> Score(norm, ws, f, p) < Score(norm, ws, f, i)
  }

  function Solo(u: ModelUpdate): AggregatedModel {
    AggregatedModel(u.weights, [u.peerId], u.sampleCount)
  }

  /** Whichever peers are corrupted and whatever they send, the least score is near the honest. */
  lemma KrumIsRobust(norm: Norm, ws: seq<Vec>, f: nat, H: set<nat>, D: real, p: nat)
    requires IsEuclidean(norm) && HonestCluster(norm, ws, f, H, D) && EnoughUpdates(|ws|, f)
    requires IsLeastScore(norm, ws, f, p)
    ensures NearHonest(norm, ws, f, H, D, ws[p])
  {
    assert H != {};
    var g :| g in H;
    NoWorseThanHonestIsNear(norm, ws, f, H, D, p, g);
  }

  method Aggregate(norm: Norm, f: nat, updates: seq<ModelUpdate>) returns (r: AggregationResult)
    requires IsEuclidean(norm)
    ensures r.Ok? <==> Admissible(updates) && EnoughUpdates(|updates|, f)
    ensures Admissible(updates) && r.Err? ==> r.error == TooFewUpdates(|updates|, 2 * f + 3)
    ensures r.Ok? ==> exists p: nat :: IsFirstLeast(norm, WeightsOf(updates), f, p) && r.value == Solo(updates[p])
    ensures r.Ok? ==> |r.value.weights| == |WeightsOf(updates)[0]|
    ensures r.Ok? ==> forall H, D :: HonestCluster(norm, WeightsOf(updates), f, H, D) ==>
                                       NearHonest(norm, WeightsOf(updates), f, H, D, r.value.weights)
  {
    var error := ValidateUpdates(updates);
    if error.Some? { return Err(error.value); }
    if |updates| < 2 * f + 3 { return Err(TooFewUpdates(|updates|, 2 * f + 3)); }
    var ws := WeightsOf(updates);
    var distances := ComputeDistances(norm, ws);
    var scores := ComputeScores(norm, ws, f, distances);
    var p := Argmin(scores);
    r := Ok(Solo(updates[p]));
    assert IsFirstLeast(norm, ws, f, p);
    forall H, D | HonestCluster(norm, ws, f, H, D)
      ensures NearHonest(norm, ws, f, H, D, ws[p])
    {
      KrumIsRobust(norm, ws, f, H, D, p);
    }
  }

  // ---- Multi-Krum ---------------------------------------------------------

  /** One of the first n - 2f places of any argsort is beaten by fewer than n - f peers. */
  lemma SomeHonestNoBetter(scores: seq<real>, order: seq<nat>, H: set<nat>, k: nat) returns (g: nat)
    requires IsArgsort(scores, order) && k < |H| && k < |order| && forall h :: h in H ==> h < |scores|
    ensures g in H && scores[order[k]] <= scores[g]
  {
    var before := Elements(order[..k]);
    DistinctCardinality(order[..k]);
    if H <= before {
      SubsetCardinality(H, before);
      assert false;
    }
    g :| g in H && g !in before;
    assert g in order;
    var j :| 0 <= j < |order| && order[j] == g;
    assert forall i :: 0 <= i < k ==> order[..k][i] in before;
  }

  /** Each of the n - 2f updates that any argsort ranks first is near every honest update. */
  lemma MultiKrumIsRobust(norm: Norm, ws: seq<Vec>, f: nat, H: set<nat>, D: real, scores: seq<real>, order: seq<nat>,
      k: nat)
    requires IsEuclidean(norm) && HonestCluster(norm, ws, f, H, D) && EnoughUpdates(|ws|, f)
    requires |scores| == |ws| && forall i :: 0 <= i < |ws| ==> scores[i] == Score(norm, ws, f, i)
    requires IsArgsort(scores, order) && k < |ws| - 2 * f
    ensures NearHonest(norm, ws, f, H, D, ws[order[k]])
  {
    var g := SomeHonestNoBetter(scores, order, H, k);
    NoWorseThanHonestIsNear(norm, ws, f, H, D, order[k], g);
  }

  const UNIFORM := FedAvg.Config(FedAvg.Uniform, true, 0.1, 10.0)

  lemma ScaledBound(core: real, d: real, limit: real, b: real)
    requires core > 0.0 && b == limit / core
    ensures core * d <= limit <==> d <= b
  {
    assert core * b == limit;
    if d <= b { ScaleOrder(core, d, b); }
    if d > b {
      ProductPositive(core, d - b);
      assert core * (d - b) == core * d - core * b;
    }
  }

  lemma UniformTotal(selected: seq<ModelUpdate>)
    requires selected != []
    ensures Sum(FedAvg.ComputeWeights(UNIFORM, selected)) > 0.0
  {
    var ones := FedAvg.ComputeWeights(UNIFORM, selected);
    SumBounds(ones, 1.0, 1.0);
  }

  /** The uniform mean of updates near one honest update is itself near it. */
  lemma MeanIsNearOne(norm: Norm, selected: seq<ModelUpdate>, h: Vec, core: real, limit: real)
    requires IsEuclidean(norm) && core > 0.0
    requires selected != [] && SameShape(WeightsOf(selected)) && |selected[0].weights| == |h|
    requires forall k :: 0 <= k < |selected| ==> core * Dist(norm, WeightsOf(selected)[k], h) <= limit
    ensures core * Dist(norm, FedAvg.Average(UNIFORM, selected), h) <= limit
  {
    var b := limit / core;
    forall k | 0 <= k < |selected|
      ensures Dist(norm, WeightsOf(selected)[k], h) <= b
    {
      ScaledBound(core, Dist(norm, WeightsOf(selected)[k], h), limit, b);
    }
    UniformTotal(selected);
    FedAvg.AverageNear(norm, UNIFORM, selected, h, b);
    ScaledBound(core, Dist(norm, FedAvg.Average(UNIFORM, selected), h), limit, b);
  }

  lemma MeanIsWithin(norm: Norm, ws: seq<Vec>, H: set<nat>, selected: seq<ModelUpdate>, core: real, limit: real)
    requires IsEuclidean(norm) && core > 0.0 && ws != [] && SameShape(ws) && (forall h :: h in H ==> h < |ws|)
    requires selected != [] && SameShape(WeightsOf(selected)) && |selected[0].weights| == |ws[0]|
    requires forall k :: 0 <= k < |selected| ==>
                           && |WeightsOf(selected)[k]| == |ws[0]|
                           && Within(norm, ws, H, WeightsOf(selected)[k], core, limit)
    ensures Within(norm, ws, H, FedAvg.Average(UNIFORM, selected), core, limit)
  {
    forall h | h in H
      ensures core * Dist(norm, FedAvg.Average(UNIFORM, selected), ws[h]) <= limit
    {
      MeanIsNearOne(norm, selected, ws[h], core, limit);
    }
  }

  lemma MeanIsNear(norm: Norm, ws: seq<Vec>, f: nat, H: set<nat>, D: real, selected: seq<ModelUpdate>)
    requires IsEuclidean(norm) && HonestCluster(norm, ws, f, H, D) && EnoughUpdates(|ws|, f)
    requires selected != [] && SameShape(WeightsOf(selected)) && |selected[0].weights| == |ws[0]|
    requires forall k :: 0 <= k < |selected| ==>
                           && |WeightsOf(selected)[k]| == |ws[0]|
                           && NearHonest(norm, ws, f, H, D, WeightsOf(selected)[k])
    ensures NearHonest(norm, ws, f, H, D, FedAvg.Average(UNIFORM, selected))
  {
    MeanIsWithin(norm, ws, H, selected, Core(|ws|, f), Limit(|ws|, f, D));
  }

  /** order ranks the peers by score, ties in any order. */
  ghost predicate IsScoreOrder(norm: Norm, ws: seq<Vec>, f: nat, order: seq<nat>) {
    && SameShape(ws) && |ws| >= f + 2 && |order| == |ws|
    && Distinct(order)
    && (forall k :: 0 <= k < |order| ==> order[k] < |ws|)
    && (forall j, k :: 0 <= j < k < |order| ==> Score(norm, ws, f, order[j]) <= Score(norm, ws, f, order[k]))
  }

  lemma PickAdmissible(updates: seq<ModelUpdate>, order: seq<nat>)
    requires Admissible(updates) && Distinct(order) && order != []
    requires forall k :: 0 <= k < |order| ==> order[k] < |updates|
    ensures Admissible(Reindex(updates, order))
  {
    var s, ids, ws := Reindex(updates, order), PeerIds(updates), WeightsOf(updates);
    forall j, k | 0 <= j < k < |s|
      ensures PeerIds(s)[j] != PeerIds(s)[k]
    {
      assert ids[order[j]] != ids[order[k]];
    }
    forall k | 0 <= k < |s|
      ensures |WeightsOf(s)[k]| == |WeightsOf(s)[0]|
    {
      assert |ws[order[k]]| == |ws[0]| == |ws[order[0]]|;
    }
  }

  /** The mean of the first n - 2f updates in score order is near every honest update. */
  lemma SelectionIsRobust(norm: Norm, updates: seq<ModelUpdate>, f: nat, H: set<nat>, D: real, scores: seq<real>,
      order: seq<nat>)
    requires IsEuclidean(norm) && Admissible(updates) && EnoughUpdates(|updates|, f)
    requires HonestCluster(norm, WeightsOf(updates), f, H, D)
    requires |scores| == |updates|
    requires forall i :: 0 <= i < |updates| ==> scores[i] == Score(norm, WeightsOf(updates), f, i)
    requires IsArgsort(scores, order)
    ensures var selected := Reindex(updates, order[..|updates| - 2 * f]);
            && Admissible(selected) && |selected[0].weights| == |WeightsOf(updates)[0]|
            && NearHonest(norm, WeightsOf(updates), f, H, D, FedAvg.Average(UNIFORM, selected))
  {
    var ws := WeightsOf(updates);
    var chosen := order[..|updates| - 2 * f];
    var selected := Reindex(updates, chosen);
    PickAdmissible(updates, chosen);
    forall k | 0 <= k < |selected|
      ensures |WeightsOf(selected)[k]| == |ws[0]| && NearHonest(norm, ws, f, H, D, WeightsOf(selected)[k])
    {
      assert WeightsOf(selected)[k] == ws[order[k]];
      MultiKrumIsRobust(norm, ws, f, H, D, scores, order, k);
    }
    MeanIsNear(norm, ws, f, H, D, selected);
  }

  method MultiAggregate(norm: Norm, f: nat, updates: seq<ModelUpdate>) returns (r: AggregationResult)
    requires IsEuclidean(norm)
    ensures r.Ok? <==> Admissible(updates) && EnoughUpdates(|updates|, f)
    ensures Admissible(updates) && r.Err? ==> r.error == TooFewUpdates(|updates|, 2 * f + 3)
    ensures r.Ok? ==> exists order :: IsScoreOrder(norm, WeightsOf(updates), f, order) &&
                                      var chosen := Reindex(updates, order[..|updates| - 2 * f]);
                                      && Admissible(chosen)
                                      && r.value.weights == FedAvg.Average(UNIFORM, chosen)
                                      && r.value.contributingPeers == PeerIds(chosen)
                                      && r.value.totalSamples == TotalSamples(chosen)
    ensures r.Ok? ==> |r.value.weights| == |WeightsOf(updates)[0]|
    ensures r.Ok? ==> forall H, D :: HonestCluster(norm, WeightsOf(updates), f, H, D) ==>
                                       NearHonest(norm, WeightsOf(updates), f, H, D, r.value.weights)
  {
    var error := ValidateUpdates(updates);
    if error.Some? { return Err(error.value); }
    if |updates| < 2 * f + 3 { return Err(TooFewUpdates(|updates|, 2 * f + 3)); }
    var ws := WeightsOf(updates);
    var distances := ComputeDistances(norm, ws);
    var scores := ComputeScores(norm, ws, f, distances);
    var order := Argsort(scores);
    ArgsortRanks(scores);
    assert IsScoreOrder(norm, ws, f, order);
    var chosen := order[..|updates| - 2 * f];
    var selected := Reindex(updates, chosen);
    PickAdmissible(updates, chosen);
    r := FedAvg.Aggregate(UNIFORM, selected);
    assert |ws[chosen[0]]| == |ws[0]|;
    forall H, D | HonestCluster(norm, ws, f, H, D)
      ensures NearHonest(norm, ws, f, H, D, r.value.weights)
    {
      SelectionIsRobust(norm, updates, f, H, D, scores, order);
    }
  }
}
