/**
 * Flat weight vectors and the Euclidean norm (np.linalg.norm on a flattened array).
 * Real square roots cannot be computed here, so a norm is any function whose square is
 * the sum of squares; its triangle inequality and homogeneity are proved from that alone.
 */
module Vectors {
  import opened Numerics

  type Vec = seq<real>

  function Zero(n: nat): (r: Vec)
    ensures |r| == n && forall i :: 0 <= i < n ==> r[i] == 0.0
  {
    seq(n, i => 0.0)
  }

  function Add(u: Vec, v: Vec): (r: Vec)
    requires |u| == |v|
    ensures |r| == |u|
  {
    seq(|u|, i requires 0 <= i < |u| => u[i] + v[i])
  }

  function Sub(u: Vec, v: Vec): (r: Vec)
    requires |u| == |v|
    ensures |r| == |u|
  {
    seq(|u|, i requires 0 <= i < |u| => u[i] - v[i])
  }

  function Scale(c: real, v: Vec): (r: Vec)
    ensures |r| == |v|
  {
    seq(|v|, i requires 0 <= i < |v| => c * v[i])
  }

  // ---- Inner products are linear -----------------------------------------

  lemma {:induction false} DotSub(q: Vec, a: Vec, b: Vec)
    requires |q| == |a| == |b|
    ensures Dot(q, Sub(a, b)) == Dot(q, a) - Dot(q, b)
  {
    if q != [] {
      var n := |q| - 1;
      DotSub(q[..n], a[..n], b[..n]);
      assert Sub(a, b)[..n] == Sub(a[..n], b[..n]);
      Congruent(q[n], q[n], Sub(a, b)[n], a[n] - b[n]);
      Distribute(a[n], b[n], q[n]);
    }
  }

  lemma {:induction false} DotScale(q: Vec, c: real, a: Vec)
    requires |q| == |a|
    ensures Dot(q, Scale(c, a)) == c * Dot(q, a)
  {
    if q != [] {
      var n := |q| - 1;
      DotScale(q[..n], c, a[..n]);
      ScalePrefix(c, a, n);
      ScaledProduct(q[n], c, a[n], Scale(c, a)[n]);
      DistributeLeft(c, Dot(q[..n], a[..n]), q[n] * a[n]);
    }
  }

  lemma ScalePrefix(c: real, v: Vec, n: nat)
    requires n <= |v|
    ensures Scale(c, v)[..n] == Scale(c, v[..n])
  {
    assert forall i :: 0 <= i < n ==> Scale(c, v)[..n][i] == Scale(c, v[..n])[i];
  }

  lemma ScaledProduct(q: real, c: real, x: real, y: real)
    requires y == c * x
    ensures q * y == c * (q * x)
  {
    Congruent(q, q, y, c * x);
    assert q * (c * x) == c * (q * x);
  }

  lemma DistributeLeft(a: real, b: real, c: real)
    ensures a * (b + c) == a * b + a * c
  {
  }

  function SumSq(v: Vec): (r: real)
    ensures r >= 0.0
  {
    if v == [] then 0.0 else SumSq(v[..|v| - 1]) + v[|v| - 1] * v[|v| - 1]
  }

  type Norm = Vec -> real

  ghost predicate IsEuclidean(norm: Norm) {
    forall v: Vec {:trigger SumSq(v)} :: norm(v) >= 0.0 && norm(v) * norm(v) == SumSq(v)
  }

  /** The distance used by _compute_distances. */
  function Dist(norm: Norm, u: Vec, v: Vec): real
    requires |u| == |v|
  {
    norm(Sub(u, v))
  }

  // ---- Real arithmetic -------------------------------------------------

  lemma ProductPositive(a: real, b: real)
    requires a > 0.0 && b > 0.0
    ensures a * b > 0.0
  {
  }

  lemma ProductNonNegative(a: real, b: real)
    requires a >= 0.0 && b >= 0.0
    ensures a * b >= 0.0
  {
  }

  lemma SquareOfProduct(a: real, b: real)
    ensures (a * b) * (a * b) == a * a * (b * b)
  {
    assert (a * b) * (a * b) == a * (b * (a * b));
  }

  /** Squares order non-negative reals. */
  lemma RootOrder(p: real, q: real)
    requires p >= 0.0 && q * q <= p * p
    ensures q <= p
  {
    if q > p {
      ProductPositive(q - p, q + p);
    }
  }

  lemma Lagrange(x: real, y: real, a: real, b: real)
    ensures (x * x + a * a) * (y * y + b * b)
         == (x * y + a * b) * (x * y + a * b) + (x * b - y * a) * (x * b - y * a)
  {
  }

  lemma SquareNonNegative(d: real)
    ensures d * d >= 0.0
  {
  }

  /** The planar Cauchy-Schwarz inequality. */
  lemma CauchyStep(x: real, y: real, a: real, b: real, X: real, Y: real)
    requires X >= 0.0 && Y >= 0.0
    requires X * X == x * x + a * a && Y * Y == y * y + b * b
    ensures x * y + a * b <= X * Y
  {
    ProductNonNegative(X, Y);
    assert (x * y + a * b) * (x * y + a * b) <= (X * Y) * (X * Y) by {
      SquareOfProduct(X, Y);
      Congruent(X * X, x * x + a * a, Y * Y, y * y + b * b);
      Lagrange(x, y, a, b);
      SquareNonNegative(x * b - y * a);
    }
    RootOrder(X * Y, x * y + a * b);
  }

  lemma SquareOfSum(a: real, b: real)
    ensures (a + b) * (a + b) == a * a + b * b + 2.0 * (a * b)
  {
  }

  lemma SquareOrder(p: real, q: real)
    requires 0.0 <= p <= q
    ensures p * p <= q * q
  {
  }

  /** One coordinate of the triangle inequality. */
  lemma TriangleStep(x: real, y: real, z: real, a: real, b: real, X: real, Y: real, Z: real)
    requires x >= 0.0 && y >= 0.0 && z >= 0.0 && X >= 0.0 && Y >= 0.0
    requires z <= x + y
    requires X * X == x * x + a * a && Y * Y == y * y + b * b
    requires Z * Z == z * z + (a + b) * (a + b)
    ensures Z <= X + Y
  {
    assert Z * Z <= (X + Y) * (X + Y) by {
      CauchyStep(x, y, a, b, X, Y);
      SquareOrder(z, x + y);
      SquareOfSum(x, y);
      SquareOfSum(a, b);
      SquareOfSum(X, Y);
    }
    RootOrder(X + Y, Z);
  }

  // ---- The Euclidean norm is a norm ------------------------------------

  lemma NormDef(norm: Norm, v: Vec)
    requires IsEuclidean(norm)
    ensures norm(v) >= 0.0 && norm(v) * norm(v) == SumSq(v)
  {
  }

  lemma NormStep(norm: Norm, v: Vec)
    requires IsEuclidean(norm) && v != []
    ensures var n := |v| - 1;
            norm(v) >= 0.0 && norm(v[..n]) >= 0.0 && norm(v) * norm(v) == norm(v[..n]) * norm(v[..n]) + v[n] * v[n]
  {
    NormDef(norm, v);
    NormDef(norm, v[..|v| - 1]);
  }

  lemma {:induction false} NormTriangle(norm: Norm, u: Vec, v: Vec)
    requires IsEuclidean(norm) && |u| == |v|
    ensures norm(Add(u, v)) <= norm(u) + norm(v)
  {
    var w := Add(u, v);
    if u == [] {
      NormDef(norm, u);
      NormDef(norm, v);
      NormDef(norm, w);
      RootOrder(0.0, norm(w));
    } else {
      var n := |u| - 1;
      NormTriangle(norm, u[..n], v[..n]);
      assert w[..n] == Add(u[..n], v[..n]);
      NormStep(norm, u);
      NormStep(norm, v);
      NormStep(norm, w);
      TriangleStep(norm(u[..n]), norm(v[..n]), norm(w[..n]), u[n], v[n], norm(u), norm(v), norm(w));
    }
  }

  lemma ScaleInit(c: real, v: Vec)
    requires v != []
    ensures SumSq(Scale(c, v)) == SumSq(Scale(c, v[..|v| - 1])) + Scale(c, v)[|v| - 1] * Scale(c, v)[|v| - 1]
  {
    ScalePrefix(c, v, |v| - 1);
  }

  lemma ScaledSquareStep(c: real, cc: real, s: real, x: real, y: real, whole: real)
    requires cc == c * c && y == c * x && whole == s + x * x
    ensures cc * s + y * y == cc * whole
  {
    Congruent(y, c * x, y, c * x);
    SquareOfProduct(c, x);
    Congruent(cc, c * c, x * x, x * x);
    Congruent(cc, cc, whole, s + x * x);
    DistributeLeft(cc, s, x * x);
  }

  lemma {:induction false} SumSqScale(c: real, cc: real, v: Vec)
    requires cc == c * c
    ensures SumSq(Scale(c, v)) == cc * SumSq(v)
  {
    if v == [] {
      assert SumSq(Scale(c, v)) == 0.0 == SumSq(v);
    } else {
      var n := |v| - 1;
      SumSqScale(c, cc, v[..n]);
      ScaleInit(c, v);
      ScaledSquareStep(c, cc, SumSq(v[..n]), v[n], Scale(c, v)[n], SumSq(v));
    }
  }

  lemma NormScale(norm: Norm, c: real, v: Vec)
    requires IsEuclidean(norm) && c >= 0.0
    ensures norm(Scale(c, v)) == c * norm(v)
  {
    SumSqScale(c, c * c, v);
    NormDef(norm, v);
    NormDef(norm, Scale(c, v));
    var p, q := norm(Scale(c, v)), c * norm(v);
    SquareOfProduct(c, norm(v));
    ProductNonNegative(c, norm(v));
    RootOrder(p, q);
    RootOrder(q, p);
  }

  lemma {:induction false} SumSqFlip(u: Vec, v: Vec)
    requires |u| == |v|
    ensures SumSq(Sub(u, v)) == SumSq(Sub(v, u))
  {
    if u != [] {
      var n := |u| - 1;
      SumSqFlip(u[..n], v[..n]);
      assert Sub(u, v)[..n] == Sub(u[..n], v[..n]);
      assert Sub(v, u)[..n] == Sub(v[..n], u[..n]);
    }
  }

  lemma DistSymmetric(norm: Norm, u: Vec, v: Vec)
    requires IsEuclidean(norm) && |u| == |v|
    ensures Dist(norm, u, v) == Dist(norm, v, u) >= 0.0
  {
    SumSqFlip(u, v);
    NormDef(norm, Sub(u, v));
    NormDef(norm, Sub(v, u));
    var p, q := Dist(norm, u, v), Dist(norm, v, u);
    assert p * p == q * q;
    RootOrder(p, q);
    RootOrder(q, p);
  }

  lemma DistTriangle(norm: Norm, u: Vec, v: Vec, w: Vec)
    requires IsEuclidean(norm) && |u| == |v| == |w|
    ensures Dist(norm, u, w) <= Dist(norm, u, v) + Dist(norm, v, w)
  {
    assert Sub(u, w) == Add(Sub(u, v), Sub(v, w));
    NormTriangle(norm, Sub(u, v), Sub(v, w));
  }
}
