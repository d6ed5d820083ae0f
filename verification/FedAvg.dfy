/** Federated averaging: the weighted mean of flat weight vectors. */
module FedAvg {
  import opened Wrappers
  import opened Numerics
  import opened Vectors
  import opened Aggregation

  datatype WeightBy = DataSize | Uniform | InverseLoss | Unknown

  datatype Config = Config(weightBy: WeightBy, clipInverseLoss: bool, minInverse: real, maxInverse: real)

  function Clip(value: real, lo: real, hi: real): real {
    var capped := if value < hi then value else hi;
    if lo > capped then lo else capped
  }

  function ComputeWeight(c: Config, u: ModelUpdate): real {
    match c.weightBy
    case DataSize => u.sampleCount as real
    case Uniform => 1.0
    case InverseLoss =>
      if u.loss.None? || u.loss.value <= 0.0 then 1.0
      else if c.clipInverseLoss then Clip(1.0 / u.loss.value, c.minInverse, c.maxInverse)
      else 1.0 / u.loss.value
    case Unknown => 1.0
  }

  function ComputeWeights(c: Config, updates: seq<ModelUpdate>): (ws: seq<real>)
    ensures |ws| == |updates| && forall i :: 0 <= i < |ws| ==> ws[i] == ComputeWeight(c, updates[i])
  {
    seq(|updates|, i requires 0 <= i < |updates| => ComputeWeight(c, updates[i]))
  }

  /** The divisor: the total weight, or the number of updates when that total is zero. */
  function Divisor(ws: seq<real>): (d: real)
    ensures ws != [] ==> d != 0.0
  {
    if Sum(ws) == 0.0 then |ws| as real else Sum(ws)
  }

  function Normalized(ws: seq<real>, total: real): (qs: seq<real>)
    requires total != 0.0
    ensures |qs| == |ws| && forall j :: 0 <= j < |ws| ==> qs[j] == ws[j] / total
  {
    seq(|ws|, j requires 0 <= j < |ws| => ws[j] / total)
  }

  ghost predicate AllOfDim(dim: nat, vs: seq<Vec>) {
    forall i :: 0 <= i < |vs| ==> |vs[i]| == dim
  }

  /** The linear combination of vs with coefficients qs, on vectors of dimension dim. */
  function Combine(dim: nat, vs: seq<Vec>, qs: seq<real>): (r: Vec)
    requires |vs| == |qs| && AllOfDim(dim, vs)
    ensures |r| == dim
  {
    if vs == [] then Zero(dim)
    else
      var n := |vs| - 1;
      Add(Combine(dim, vs[..n], qs[..n]), Scale(qs[n], vs[n]))
  }

  lemma CombineNothing(dim: nat)
    ensures Combine(dim, [], []) == Zero(dim)
  {
  }

  lemma CombineNext(dim: nat, vs: seq<Vec>, qs: seq<real>, j: nat)
    requires j < |vs| == |qs| && AllOfDim(dim, vs)
    ensures Combine(dim, vs[..j + 1], qs[..j + 1]) == Add(Combine(dim, vs[..j], qs[..j]), Scale(qs[j], vs[j]))
  {
    hide Add, Scale;
    assert vs[..j + 1][..j] == vs[..j] && qs[..j + 1][..j] == qs[..j];
  }

  method AggregateNumpy(vs: seq<Vec>, ws: seq<real>, total: real) returns (r: Vec)
    requires |vs| == |ws| > 0 && total != 0.0 && SameShape(vs)
    ensures r == Combine(|vs[0]|, vs, Normalized(ws, total))
  {
    ghost var qs := Normalized(ws, total);
    r := Zero(|vs[0]|);
    for j := 0 to |vs|
      invariant r == Combine(|vs[0]|, vs[..j], qs[..j])
    {
      var normalized := ws[j] / total;
      CombineNext(|vs[0]|, vs, qs, j);
      r := Add(r, Scale(normalized, vs[j]));
    }
    assert vs[..|vs|] == vs && qs[..|qs|] == qs;
  }

  /** What FedAvg returns for an admissible list of updates. */
  function Average(c: Config, updates: seq<ModelUpdate>): (r: Vec)
    requires updates != [] && SameShape(WeightsOf(updates))
  {
    var ws := ComputeWeights(c, updates);
    Combine(|updates[0].weights|, WeightsOf(updates), Normalized(ws, Divisor(ws)))
  }

  /**
   * One key of dictionary weights. The total is recomputed from the weights without the zero
   * fallback, so where the array branch returns the zero vector this one divides by zero (None).
   */
  method AggregateValues(vs: seq<Vec>, ws: seq<real>) returns (r: Option<Vec>)
    requires |vs| == |ws| > 0 && SameShape(vs)
    ensures r.None? <==> Sum(ws) == 0.0
    ensures r.Some? ==> r.value == Combine(|vs[0]|, vs, Normalized(ws, Divisor(ws)))
  {
    hide Combine;
    var total := 0.0;
    for j := 0 to |ws|
      invariant total == Sum(ws[..j])
    {
      assert ws[..j + 1][..j] == ws[..j];
      total := total + ws[j];
    }
    assert ws[..|ws|] == ws;
    if total == 0.0 { return None; }
    var value := AggregateNumpy(vs, ws, total);
    return Some(value);
  }

  method SampleTotal(updates: seq<ModelUpdate>) returns (t: int)
    ensures t == TotalSamples(updates)
  {
    t := 0;
    for j := 0 to |updates|
      invariant t == TotalSamples(updates[..j])
    {
      t := t + updates[j].sampleCount;
      assert updates[..j + 1][..j] == updates[..j];
    }
    assert updates[..|updates|] == updates;
  }

  method Aggregate(c: Config, updates: seq<ModelUpdate>) returns (r: AggregationResult)
    ensures r.Ok? <==> Admissible(updates)
    ensures r.Ok? ==> r.value == AggregatedModel(Average(c, updates), PeerIds(updates), TotalSamples(updates))
  {
    var error := ValidateUpdates(updates);
    if error.Some? { return Err(error.value); }
    var ws := ComputeWeights(c, updates);
    var average := AggregateNumpy(WeightsOf(updates), ws, Divisor(ws));
    var total := SampleTotal(updates);
    return Ok(AggregatedModel(average, PeerIds(updates), total));
  }

  // ---- What the average means ------------------------------------------

  lemma {:induction false} SumNormalized(ws: seq<real>, total: real)
    requires total != 0.0
    ensures Sum(Normalized(ws, total)) == Sum(ws) / total
  {
    if ws != [] {
      var n := |ws| - 1;
      SumNormalized(ws[..n], total);
      assert Normalized(ws, total)[..n] == Normalized(ws[..n], total);
      DivideSum(Sum(ws[..n]), ws[n], total);
    }
  }

  /** The coefficients of the average add up to one unless the total weight is zero. */
  lemma CoefficientSum(c: Config, updates: seq<ModelUpdate>)
    requires updates != []
    ensures var ws := ComputeWeights(c, updates);
            Sum(Normalized(ws, Divisor(ws))) == if Sum(ws) == 0.0 then 0.0 else 1.0
  {
    var ws := ComputeWeights(c, updates);
    SumNormalized(ws, Divisor(ws));
    DivideSelf(Divisor(ws));
    DivideZero(Divisor(ws));
  }

  function Column(vs: seq<Vec>, i: nat): (r: seq<real>)
    requires forall j :: 0 <= j < |vs| ==> i < |vs[j]|
    ensures |r| == |vs| && forall j :: 0 <= j < |vs| ==> r[j] == vs[j][i]
  {
    seq(|vs|, j requires 0 <= j < |vs| => vs[j][i])
  }

  /** Coordinate i of a combination is the inner product of the coefficients with that coordinate. */
  lemma {:induction false} CombineCoordinate(dim: nat, vs: seq<Vec>, qs: seq<real>, i: nat)
    requires |vs| == |qs| && AllOfDim(dim, vs) && i < dim
    ensures Combine(dim, vs, qs)[i] == Dot(qs, Column(vs, i))
  {
    if vs != [] {
      var n := |vs| - 1;
      CombineCoordinate(dim, vs[..n], qs[..n], i);
      assert Column(vs, i)[..n] == Column(vs[..n], i);
    }
  }

  lemma NormalizedNonNegative(ws: seq<real>, total: real)
    requires total > 0.0 && forall j :: 0 <= j < |ws| ==> ws[j] >= 0.0
    ensures forall j :: 0 <= j < |ws| ==> Normalized(ws, total)[j] >= 0.0
  {
  }

  /**
   * With non-negative weights of positive total, every coordinate of the average lies
   * between the least and the greatest value any peer sent for it.
   */
  lemma AverageIsConvex(c: Config, updates: seq<ModelUpdate>, i: nat, lo: real, hi: real)
    requires updates != [] && SameShape(WeightsOf(updates)) && i < |updates[0].weights|
    requires forall j :: 0 <= j < |updates| ==> ComputeWeights(c, updates)[j] >= 0.0
    requires Sum(ComputeWeights(c, updates)) > 0.0
    requires forall j :: 0 <= j < |updates| ==> lo <= WeightsOf(updates)[j][i] <= hi
    ensures lo <= Average(c, updates)[i] <= hi
  {
    var ws := ComputeWeights(c, updates);
    var vs, qs := WeightsOf(updates), Normalized(ws, Sum(ws));
    NormalizedNonNegative(ws, Sum(ws));
    CombineCoordinate(|updates[0].weights|, vs, qs, i);
    DotBounds(qs, Column(vs, i), lo, hi);
    CoefficientSum(c, updates);
  }

  lemma {:induction false} CombineCopies(v: Vec, vs: seq<Vec>, qs: seq<real>)
    requires |vs| == |qs| && forall j :: 0 <= j < |vs| ==> vs[j] == v
    ensures Combine(|v|, vs, qs) == Scale(Sum(qs), v)
  {
    if vs != [] {
      var n := |vs| - 1;
      CombineCopies(v, vs[..n], qs[..n]);
      ScaleSum(Sum(qs[..n]), qs[n], v);
    }
  }

  lemma ScaleSum(a: real, b: real, v: Vec)
    ensures Scale(a + b, v) == Add(Scale(a, v), Scale(b, v))
  {
    forall i | 0 <= i < |v|
      ensures Scale(a + b, v)[i] == Add(Scale(a, v), Scale(b, v))[i]
    {
      Distribute(a, b, v[i]);
    }
  }

  /**
   * Peers that all send the same non-zero vector get it back exactly when the total
   * weight is not zero. The "uniform" fallback for a zero total divides the zero-sum
   * weights by the peer count, so it returns the zero vector instead.
   */
  lemma UnanimityIffNonzeroTotal(c: Config, updates: seq<ModelUpdate>, v: Vec)
    requires updates != [] && forall j :: 0 <= j < |updates| ==> updates[j].weights == v
    requires exists i :: 0 <= i < |v| && v[i] != 0.0
    ensures Average(c, updates) == v <==> Sum(ComputeWeights(c, updates)) != 0.0
    ensures Sum(ComputeWeights(c, updates)) == 0.0 ==> Average(c, updates) == Zero(|v|)
  {
    var ws := ComputeWeights(c, updates);
    CombineCopies(v, WeightsOf(updates), Normalized(ws, Divisor(ws)));
    CoefficientSum(c, updates);
    var k :| 0 <= k < |v| && v[k] != 0.0;
    assert Scale(0.0, v)[k] == 0.0;
    assert Scale(1.0, v) == v && Scale(0.0, v) == Zero(|v|);
  }

  /** Multiplying out the normalisation. */
  lemma {:induction false} DotNormalized(ws: seq<real>, total: real, col: seq<real>)
    requires |ws| == |col| && total != 0.0
    ensures total * Dot(Normalized(ws, total), col) == Dot(ws, col)
  {
    if ws != [] {
      var n := |ws| - 1;
      DotNormalized(ws[..n], total, col[..n]);
      assert Normalized(ws, total)[..n] == Normalized(ws[..n], total);
      ScaledTerm(total, Dot(Normalized(ws[..n], total), col[..n]), ws[|ws| - 1], col[|col| - 1]);
    }
  }

  lemma ScaledTerm(total: real, sum: real, w: real, x: real)
    requires total != 0.0
    ensures total * (sum + (w / total) * x) == total * sum + w * x
  {
    assert total * ((w / total) * x) == (total * (w / total)) * x;
  }

  /** Sample counts as reals. */
  function SampleWeights(updates: seq<ModelUpdate>): (s: seq<real>)
    ensures |s| == |updates| && forall j :: 0 <= j < |s| ==> s[j] == updates[j].sampleCount as real
  {
    seq(|updates|, j requires 0 <= j < |updates| => updates[j].sampleCount as real)
  }

  /**
   * Weighting by data size counts every peer in proportion to its samples: with a non-zero total,
   * the total times each coordinate of the average is the sum of sample count times value.
   */
  lemma CountsBySamples(c: Config, updates: seq<ModelUpdate>, i: nat)
    requires c.weightBy == DataSize && updates != [] && SameShape(WeightsOf(updates)) && i < |updates[0].weights|
    requires Sum(SampleWeights(updates)) != 0.0
    ensures Sum(SampleWeights(updates)) * Average(c, updates)[i]
         == Dot(SampleWeights(updates), Column(WeightsOf(updates), i))
  {
    hide Sum, Dot, Combine;
    var ws, vs := ComputeWeights(c, updates), WeightsOf(updates);
    assert ws == SampleWeights(updates);
    CombineCoordinate(|updates[0].weights|, vs, Normalized(ws, Divisor(ws)), i);
    DotNormalized(ws, Sum(ws), Column(vs, i));
  }

  /** Uniform weighting is the plain mean. */
  lemma UniformIsMean(c: Config, updates: seq<ModelUpdate>, i: nat)
    requires c.weightBy == Uniform && updates != [] && SameShape(WeightsOf(updates)) && i < |updates[0].weights|
    ensures |updates| as real * Average(c, updates)[i] == Sum(Column(WeightsOf(updates), i))
  {
    hide Dot, Combine;
    var ws, vs := ComputeWeights(c, updates), WeightsOf(updates);
    assert ws == Constant(|updates|, 1.0);
    SumOfConstant(|updates|, 1.0);
    CombineCoordinate(|updates[0].weights|, vs, Normalized(ws, Divisor(ws)), i);
    DotNormalized(ws, Sum(ws), Column(vs, i));
    DotOnes(Column(vs, i));
  }

  lemma {:induction false} SumOfConstant(n: nat, x: real)
    ensures Sum(Constant(n, x)) == n as real * x
  {
    if n > 0 {
      SumOfConstant(n - 1, x);
      assert Constant(n, x)[..n - 1] == Constant(n - 1, x);
    }
  }

  lemma {:induction false} DotOnes(s: seq<real>)
    ensures Dot(Constant(|s|, 1.0), s) == Sum(s)
  {
    if s != [] {
      DotOnes(s[..|s| - 1]);
      assert Constant(|s|, 1.0)[..|s| - 1] == Constant(|s| - 1, 1.0);
    }
  }

  /**
   * Weighting by inverse loss: weight times loss is one, unless the weight was clipped to an end of
   * the range that the inverse lies beyond; a missing or non-positive loss counts as one.
   */
  lemma InverseLossWeight(c: Config, u: ModelUpdate)
    requires c.weightBy == InverseLoss && c.minInverse <= c.maxInverse
    ensures var w := ComputeWeight(c, u);
            if u.loss.None? || u.loss.value <= 0.0 then w == 1.0
            else
              || w * u.loss.value == 1.0
              || (c.clipInverseLoss && w == c.minInverse && w * u.loss.value > 1.0)
              || (c.clipInverseLoss && w == c.maxInverse && w * u.loss.value < 1.0)
    ensures c.clipInverseLoss && u.loss.Some? && u.loss.value > 0.0 ==>
              c.minInverse <= ComputeWeight(c, u) <= c.maxInverse
  {
    if u.loss.Some? && u.loss.value > 0.0 {
      InverseTimes(u.loss.value, 1.0 / u.loss.value);
      InverseOrder(u.loss.value, 1.0 / u.loss.value, ComputeWeight(c, u));
    }
  }

  lemma InverseTimes(loss: real, inverse: real)
    requires loss > 0.0 && inverse == 1.0 / loss
    ensures inverse * loss == 1.0
  {
  }

  lemma InverseOrder(loss: real, inverse: real, w: real)
    requires loss > 0.0 && inverse * loss == 1.0
    ensures w == inverse ==> w * loss == 1.0
    ensures w > inverse ==> w * loss > 1.0
    ensures w < inverse ==> w * loss < 1.0
  {
    if w > inverse { StrictScale(inverse, w, loss, inverse * loss, w * loss); }
    if w < inverse { StrictScale(w, inverse, loss, w * loss, inverse * loss); }
  }

  lemma StrictScale(a: real, b: real, c: real, x: real, y: real)
    requires a < b && c > 0.0 && x == a * c && y == b * c
    ensures x < y
  {
    ProductPositive(b - a, c);
    Distribute(b, a, c);
  }

  // ---- Averages stay close to whatever their inputs are close to --------

  /** One more summand near h keeps a combination near the multiple of h it approximates. */
  lemma CombineShift(norm: Norm, part: Vec, s: real, q: real, v: Vec, h: Vec, b: real)
    requires IsEuclidean(norm) && |part| == |v| == |h| && q >= 0.0
    requires norm(Sub(part, Scale(s, h))) <= s * b && Dist(norm, v, h) <= b
    ensures norm(Sub(Add(part, Scale(q, v)), Scale(s + q, h))) <= (s + q) * b
  {
    var prev, last := Sub(part, Scale(s, h)), Scale(q, Sub(v, h));
    var whole := Sub(Add(part, Scale(q, v)), Scale(s + q, h));
    forall i | 0 <= i < |h|
      ensures whole[i] == Add(prev, last)[i]
    {
      Distribute(s, q, h[i]);
      Distribute(v[i], h[i], q);
    }
    assert whole == Add(prev, last);
    NormTriangle(norm, prev, last);
    NormScale(norm, q, Sub(v, h));
    ScaleOrder(q, Dist(norm, v, h), b);
    Distribute(s, q, b);
  }

  lemma NothingIsNear(norm: Norm, h: Vec)
    requires IsEuclidean(norm)
    ensures norm(Sub(Zero(|h|), Scale(0.0, h))) == 0.0
  {
    assert Sub(Zero(|h|), Scale(0.0, h)) == Scale(0.0, h);
    NormScale(norm, 0.0, h);
  }

  lemma {:induction false} CombineNear(norm: Norm, vs: seq<Vec>, qs: seq<real>, h: Vec, b: real)
    requires IsEuclidean(norm) && |vs| == |qs| && AllOfDim(|h|, vs)
    requires forall j :: 0 <= j < |qs| ==> qs[j] >= 0.0
    requires forall j :: 0 <= j < |vs| ==> Dist(norm, vs[j], h) <= b
    ensures norm(Sub(Combine(|h|, vs, qs), Scale(Sum(qs), h))) <= Sum(qs) * b
  {
    if vs == [] {
      NothingIsNear(norm, h);
    } else {
      var n := |vs| - 1;
      var part, s, q := Combine(|h|, vs[..n], qs[..n]), Sum(qs[..n]), qs[n];
      CombineNear(norm, vs[..n], qs[..n], h, b);
      CombineShift(norm, part, s, q, vs[n], h, b);
    }
  }

  /** An average with positive total weight of vectors within b of h is within b of h. */
  lemma AverageNear(norm: Norm, c: Config, updates: seq<ModelUpdate>, h: Vec, b: real)
    requires IsEuclidean(norm)
    requires updates != [] && SameShape(WeightsOf(updates)) && |h| == |updates[0].weights|
    requires forall j :: 0 <= j < |updates| ==> ComputeWeights(c, updates)[j] >= 0.0
    requires Sum(ComputeWeights(c, updates)) > 0.0
    requires forall j :: 0 <= j < |updates| ==> Dist(norm, WeightsOf(updates)[j], h) <= b
    ensures Dist(norm, Average(c, updates), h) <= b
  {
    var ws := ComputeWeights(c, updates);
    NormalizedNonNegative(ws, Sum(ws));
    CombineNear(norm, WeightsOf(updates), Normalized(ws, Sum(ws)), h, b);
    CoefficientSum(c, updates);
    assert Scale(1.0, h) == h;
  }
}
