/**
 * Trimmed mean: per coordinate, drop the k smallest and the k largest values and average
 * the rest, with k the floor of n times the trim ratio.
 */
module TrimmedMean {
  import opened Wrappers
  import opened Numerics
  import opened Vectors
  import opened Aggregation
  import FedAvg

  /** The ratios the constructor accepts. */
  predicate ValidRatio(ratio: real) { 0.0 <= ratio < 0.5 }

  /** int(n * ratio): the floor, and never half of n. */
  function TrimCount(n: nat, ratio: real): (k: int)
    requires ValidRatio(ratio)
    ensures 0 <= k <= n && (n > 0 ==> k < n - k)
    ensures k as real <= n as real * ratio < k as real + 1.0
  {
    var product := n as real * ratio;
    if n > 0 then HalfOpen(n, ratio, product); FloorBelowHalf(n, product); product.Floor
    else product.Floor
  }

  lemma FloorBelowHalf(n: nat, x: real)
    requires 0.0 <= x < n as real / 2.0
    ensures 0 <= x.Floor && 2 * x.Floor < n && x.Floor as real <= x < x.Floor as real + 1.0
  {
    var k := x.Floor;
    assert k as real <= x && 2.0 * (k as real) < n as real;
    assert (2 * k) as real < n as real;
  }

  lemma HalfOpen(n: nat, ratio: real, x: real)
    requires n > 0 && 0.0 <= ratio < 0.5 && x == n as real * ratio
    ensures 0.0 <= x < n as real / 2.0
  {
    ScaleOrder(n as real, 0.0, ratio);
    ProductPositive(n as real, 0.5 - ratio);
    assert n as real * (0.5 - ratio) == n as real * 0.5 - x;
  }

  /** The sorted values without the k smallest and the k largest. */
  function Kept(values: seq<real>, k: nat): (s: seq<real>)
    requires 2 * k < |values|
    ensures |s| == |values| - 2 * k > 0
  {
    Sort(values)[k..|values| - k]
  }

  function TrimmedBy(values: seq<real>, k: nat): real
    requires 2 * k < |values|
  {
    Mean(Kept(values, k))
  }

  /** One coordinate: the mean of what remains of the sorted values. */
  function Trimmed(values: seq<real>, ratio: real): real
    requires values != [] && ValidRatio(ratio)
  {
    TrimmedBy(values, TrimCount(|values|, ratio))
  }

  // ---- What the result is ----------------------------------------------------

  /** x is the mean of the values that remain when the k smallest and the k largest are cut off. */
  ghost predicate IsTrimmedMean(values: seq<real>, k: nat, x: real) {
    exists L, M, U :: CutsOff(values, k, L, M, U) && (|values| - 2 * k) as real * x == SumIn(values, M, |values|)
  }

  lemma TrimmedIsMeanOfRest(values: seq<real>, k: nat)
    requires 2 * k < |values|
    ensures IsTrimmedMean(values, k, TrimmedBy(values, k))
  {
    hide CutsOff, SumIn, Sum, Sort;
    var L, M, U := SortedMiddle(values, k);
    MeanTimesCount(Kept(values, k));
  }

  lemma MeanTimesCount(s: seq<real>)
    requires s != []
    ensures |s| as real * Mean(s) == Sum(s)
  {
  }

  // ---- Robustness ---------------------------------------------------------

  /** Any stretch of a ranking that outnumbers the corrupted peers contains an honest one. */
  lemma StretchHasHonest(order: seq<nat>, n: nat, H: set<nat>, a: nat, b: nat) returns (j: nat)
    requires |order| == n && Distinct(order) && (forall k :: 0 <= k < n ==> order[k] < n)
    requires (forall h :: h in H ==> h < n) && a <= b <= n && b - a + |H| > n
    ensures a <= j < b && order[j] in H
  {
    var part := order[a..b];
    var P := Elements(part);
    assert Distinct(part);
    DistinctCardinality(part);
    FitsBelow(P + H, n);
    assert |P + H| == |P| + |H| - |P * H|;
    var h :| h in P * H;
    var i :| 0 <= i < |part| && part[i] == h;
    j := a + i;
  }

  /** With at most k corrupted values, everything kept lies between the honest bounds. */
  lemma KeptIsHonestRange(values: seq<real>, k: nat, H: set<nat>, lo: real, hi: real)
    requires 2 * k < |values| && |values| - |H| <= k
    requires forall i :: i in H ==> i < |values| && lo <= values[i] <= hi
    ensures forall m :: 0 <= m < |Kept(values, k)| ==> lo <= Kept(values, k)[m] <= hi
  {
    var n := |values|;
    var order, t := Argsort(values), Sort(values);
    ArgsortRanks(values);
    SortAscends(values);
    var i := StretchHasHonest(order, n, H, 0, k + 1);
    var j := StretchHasHonest(order, n, H, n - 1 - k, n);
    assert lo <= t[i] <= t[k] && t[n - 1 - k] <= t[j] <= hi;
    forall m | 0 <= m < n - 2 * k
      ensures lo <= Kept(values, k)[m] <= hi
    {
      assert t[k] <= t[k + m] <= t[n - 1 - k];
    }
  }

  /**
   * At most k of the n values are corrupted (those outside H): the result lies between any
   * bounds on the honest values.
   */
  lemma TrimmedIsRobust(values: seq<real>, ratio: real, H: set<nat>, lo: real, hi: real)
    requires values != [] && ValidRatio(ratio)
    requires forall i :: i in H ==> i < |values| && lo <= values[i] <= hi
    requires |values| - |H| <= TrimCount(|values|, ratio)
    ensures lo <= Trimmed(values, ratio) <= hi
  {
    var k := TrimCount(|values|, ratio);
    KeptIsHonestRange(values, k, H, lo, hi);
    MeanBounds(Kept(values, k), lo, hi);
  }

  /** The result does not depend on the order in which the updates are listed. */
  lemma TrimmedIgnoresOrder(a: seq<real>, b: seq<real>, ratio: real)
    requires a != [] && ValidRatio(ratio) && multiset(a) == multiset(b)
    ensures b != [] && Trimmed(a, ratio) == Trimmed(b, ratio)
  {
    SortIgnoresOrder(a, b);
    var k := TrimCount(|a|, ratio);
    assert k == TrimCount(|b|, ratio);
    assert Kept(a, k) == Kept(b, k);
  }

  /** The trimmed mean of every coordinate. */
  function TrimmedVector(ws: seq<Vec>, ratio: real): (v: Vec)
    requires ws != [] && SameShape(ws) && ValidRatio(ratio)
    ensures |v| == |ws[0]| && forall i :: 0 <= i < |v| ==> v[i] == Trimmed(FedAvg.Column(ws, i), ratio)
  {
    seq(|ws[0]|, i requires 0 <= i < |ws[0]| => Trimmed(FedAvg.Column(ws, i), ratio))
  }

  /** What one update contributes to coordinate i. */
  function Coordinate(i: nat): ModelUpdate -> real {
    (u: ModelUpdate) => if i < |u.weights| then u.weights[i] else 0.0
  }

  lemma ReorderedIsAdmissible(us: seq<ModelUpdate>, vs: seq<ModelUpdate>)
    requires multiset(us) == multiset(vs) && Admissible(us)
    ensures Admissible(vs) && |us| == |vs| && |vs[0].weights| == |us[0].weights|
  {
    assert |us| == |multiset(us)| == |multiset(vs)| == |vs|;
    var peer := (u: ModelUpdate) => u.peerId;
    assert Mapped(peer, us) == PeerIds(us) && Mapped(peer, vs) == PeerIds(vs);
    MappedPermutes(peer, us, vs);
    DistinctPermutes(PeerIds(us), PeerIds(vs));
    forall j | 0 <= j < |vs|
      ensures |WeightsOf(vs)[j]| == |us[0].weights|
    {
      assert vs[j] in multiset(us);
      var k :| 0 <= k < |us| && us[k] == vs[j];
      assert |WeightsOf(us)[k]| == |WeightsOf(us)[0]|;
    }
  }

  /** Listing the updates in another order is accepted as well and gives the same weights. */
  lemma AggregateIgnoresOrder(us: seq<ModelUpdate>, vs: seq<ModelUpdate>, ratio: real)
    requires multiset(us) == multiset(vs) && Admissible(us) && ValidRatio(ratio)
    ensures Admissible(vs) && TrimmedVector(WeightsOf(us), ratio) == TrimmedVector(WeightsOf(vs), ratio)
  {
    ReorderedIsAdmissible(us, vs);
    forall i: nat | i < |us[0].weights|
      ensures TrimmedVector(WeightsOf(us), ratio)[i] == TrimmedVector(WeightsOf(vs), ratio)[i]
    {
      hide Trimmed;
      MappedPermutes(Coordinate(i), us, vs);
      assert Mapped(Coordinate(i), us) == FedAvg.Column(WeightsOf(us), i);
      assert Mapped(Coordinate(i), vs) == FedAvg.Column(WeightsOf(vs), i);
      TrimmedIgnoresOrder(FedAvg.Column(WeightsOf(us), i), FedAvg.Column(WeightsOf(vs), i), ratio);
    }
  }

  /** The honest updates H agree that coordinate i lies between lo and hi. */
  ghost predicate HonestBetween(ws: seq<Vec>, H: set<nat>, i: nat, lo: real, hi: real) {
    forall h :: h in H ==> h < |ws| && i < |ws[h]| && lo <= ws[h][i] <= hi
  }

  /** At most k corrupted peers: every coordinate stays between the bounds of the honest ones. */
  lemma AggregateIsRobust(ws: seq<Vec>, ratio: real, H: set<nat>, i: nat, lo: real, hi: real)
    requires ws != [] && SameShape(ws) && ValidRatio(ratio) && i < |ws[0]|
    requires HonestBetween(ws, H, i, lo, hi) && |ws| - |H| <= TrimCount(|ws|, ratio)
    ensures lo <= TrimmedVector(ws, ratio)[i] <= hi
  {
    hide Trimmed;
    TrimmedIsRobust(FedAvg.Column(ws, i), ratio, H, lo, hi);
  }

  lemma SortIgnoresOrder(a: seq<real>, b: seq<real>)
    requires multiset(a) == multiset(b)
    ensures |a| == |b| && Sort(a) == Sort(b)
  {
    assert |a| == |multiset(a)| == |multiset(b)| == |b|;
    SortPermutes(a);
    SortPermutes(b);
    SortAscends(a);
    SortAscends(b);
    AscendingUnique(Sort(a), Sort(b));
  }

  /** With nothing to trim the result is the plain mean, as the source returns in that case. */
  lemma NothingTrimmed(values: seq<real>)
    requires values != []
    ensures TrimmedBy(values, 0) == Mean(values)
  {
    assert Kept(values, 0) == Sort(values);
    SortPermutes(values);
    SumPermutation(Sort(values), values);
  }

  // ---- The bound on corruption is exact ------------------------------------

  /** n - k - 1 honest zeros followed by k + 1 corrupted copies of x. */
  function Attack(n: nat, k: nat, x: real): (s: seq<real>)
    requires k < n
    ensures |s| == n && forall i :: 0 <= i < n ==> s[i] == if i < n - k - 1 then 0.0 else x
  {
    seq(n, i => if i < n - k - 1 then 0.0 else x)
  }

  lemma SortOfAscending(v: seq<real>)
    requires Ascending(v)
    ensures Sort(v) == v
  {
    SortPermutes(v);
    SortAscends(v);
    AscendingUnique(Sort(v), v);
  }

  lemma {:induction false} SumOfZeros(m: nat)
    ensures Sum(Constant(m, 0.0)) == 0.0
  {
    if m > 0 {
      SumOfZeros(m - 1);
      assert Constant(m, 0.0)[..m - 1] == Constant(m - 1, 0.0);
    }
  }

  lemma AttackSurvives(n: nat, k: nat, x: real)
    requires 2 * k < n && x > 0.0
    ensures Sum(Kept(Attack(n, k, x), k)) == x
  {
    var m := n - 2 * k;
    AttackKept(n, k, x);
    SumOfZeros(m - 1);
    SumSnoc(Constant(m - 1, 0.0), x);
  }

  lemma AttackKept(n: nat, k: nat, x: real)
    requires 2 * k < n && x > 0.0
    ensures Kept(Attack(n, k, x), k) == Constant(n - 2 * k - 1, 0.0) + [x]
  {
    SortOfAscending(Attack(n, k, x));
    AttackMiddle(n, k, x);
  }

  lemma AttackMiddle(n: nat, k: nat, x: real)
    requires 2 * k < n
    ensures Attack(n, k, x)[k..n - k] == Constant(n - 2 * k - 1, 0.0) + [x]
  {
    var values := Attack(n, k, x);
    var kept := values[k..n - k];
    assert forall i :: 0 <= i < |kept| ==> kept[i] == values[k + i];
  }

  lemma QuotientPositive(x: real, n: real)
    requires x > 0.0 && n > 0.0
    ensures x / n > 0.0
  {
  }

  /** One corrupted value more than k and the result leaves the honest range. */
  lemma OneMoreBreaksIt(n: nat, ratio: real, x: real)
    requires n > 0 && ValidRatio(ratio) && x > 0.0
    ensures Trimmed(Attack(n, TrimCount(n, ratio), x), ratio) > 0.0
  {
    var k := TrimCount(n, ratio);
    AttackSurvives(n, k, x);
    QuotientPositive(x, (n - 2 * k) as real);
  }

  // ---- Whole vectors --------------------------------------------------------

  /** The source returns the plain mean when k is zero. */
  method TrimCoordinate(values: seq<real>, k: nat) returns (r: real)
    requires 2 * k < |values|
    ensures r == TrimmedBy(values, k)
  {
    if k == 0 {
      NothingTrimmed(values);
      r := Mean(values);
    } else {
      r := Mean(Sort(values)[k..|values| - k]);
    }
  }

  /** Coordinate by coordinate over the stacked weight matrix. */
  method TrimColumns(ws: seq<Vec>, k: nat) returns (result: array<real>)
    requires 2 * k < |ws| && SameShape(ws)
    ensures result.Length == |ws[0]|
    ensures forall i :: 0 <= i < |ws[0]| ==> result[i] == TrimmedBy(FedAvg.Column(ws, i), k)
  {
    hide TrimmedBy;
    result := new real[|ws[0]|](i => 0.0);
    for i := 0 to |ws[0]|
      invariant forall j :: 0 <= j < i ==> result[j] == TrimmedBy(FedAvg.Column(ws, j), k)
    {
      var trimmed := TrimCoordinate(FedAvg.Column(ws, i), k);
      result[i] := trimmed;
    }
  }

  method TrimNumpy(ws: seq<Vec>, ratio: real) returns (result: array<real>)
    requires ws != [] && SameShape(ws) && ValidRatio(ratio)
    ensures result.Length == |ws[0]|
    ensures forall i :: 0 <= i < |ws[0]| ==> result[i] == Trimmed(FedAvg.Column(ws, i), ratio)
    ensures forall i :: 0 <= i < |ws[0]| ==> IsTrimmedMean(FedAvg.Column(ws, i), TrimCount(|ws|, ratio), result[i])
  {
    hide IsTrimmedMean, TrimmedBy;
    forall i | 0 <= i < |ws[0]|
      ensures IsTrimmedMean(FedAvg.Column(ws, i), TrimCount(|ws|, ratio), Trimmed(FedAvg.Column(ws, i), ratio))
    {
      TrimmedIsMeanOfRest(FedAvg.Column(ws, i), TrimCount(|ws|, ratio));
    }
    result := TrimColumns(ws, TrimCount(|ws|, ratio));
  }

  method Aggregate(updates: seq<ModelUpdate>, ratio: real) returns (r: AggregationResult)
    requires ValidRatio(ratio)
    ensures r.Ok? <==> Admissible(updates) && |updates| >= 3
    ensures Admissible(updates) && r.Err? ==> r.error == TooFewUpdates(|updates|, 3)
    ensures r.Ok? ==> r.value.weights == TrimmedVector(WeightsOf(updates), ratio)
    ensures r.Ok? ==> forall i :: 0 <= i < |r.value.weights| ==>
                        var column := FedAvg.Column(WeightsOf(updates), i);
                        IsTrimmedMean(column, TrimCount(|updates|, ratio), r.value.weights[i])
    ensures r.Ok? ==> forall H, i: nat, lo, hi ::
                        (HonestBetween(WeightsOf(updates), H, i, lo, hi) && i < |r.value.weights|
                         && |updates| - |H| <= TrimCount(|updates|, ratio))
                        ==> lo <= r.value.weights[i] <= hi
    ensures r.Ok? ==> r.value.contributingPeers == PeerIds(updates) && r.value.totalSamples == TotalSamples(updates)
  {
    hide IsTrimmedMean;
    var error := ValidateUpdates(updates);
    if error.Some? { return Err(error.value); }
    if |updates| < 3 { return Err(TooFewUpdates(|updates|, 3)); }
    var trimmed := TrimNumpy(WeightsOf(updates), ratio);
    var total := FedAvg.SampleTotal(updates);
    ghost var ws := WeightsOf(updates);
    assert trimmed[..] == TrimmedVector(ws, ratio);
    forall i | 0 <= i < |ws[0]|
      ensures IsTrimmedMean(FedAvg.Column(ws, i), TrimCount(|ws|, ratio), TrimmedVector(ws, ratio)[i])
    {
      TrimmedIsMeanOfRest(FedAvg.Column(ws, i), TrimCount(|ws|, ratio));
    }
    forall H, i: nat, lo, hi | HonestBetween(ws, H, i, lo, hi) && i < |ws[0]| && |ws| - |H| <= TrimCount(|ws|, ratio)
      ensures lo <= TrimmedVector(ws, ratio)[i] <= hi
    {
      AggregateIsRobust(ws, ratio, H, i, lo, hi);
    }
    return Ok(AggregatedModel(trimmed[..], PeerIds(updates), total));
  }
}
