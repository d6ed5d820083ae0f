/**
 * Finite sums, sorting and counting over real sequences: the mathematics behind
 * np.sum, np.sort and np.argsort as the aggregation strategies use them.
 */
module Numerics {

  // ---- Real arithmetic the solver should not rediscover -----------------

  lemma Distribute(a: real, b: real, c: real)
    ensures (a + b) * c == a * c + b * c
    ensures (a - b) * c == a * c - b * c
  {
  }

  lemma Congruent(u: real, u': real, v: real, v': real)
    requires u == u' && v == v'
    ensures u * v == u' * v'
  {
  }

  lemma ScaleOrder(w: real, x: real, y: real)
    requires w >= 0.0 && x <= y
    ensures w * x <= w * y
  {
  }

  lemma DivideSelf(x: real)
    requires x != 0.0
    ensures x / x == 1.0
  {
  }

  lemma DivideZero(x: real)
    requires x != 0.0
    ensures 0.0 / x == 0.0
  {
  }

  lemma DivideSum(a: real, b: real, t: real)
    requires t != 0.0
    ensures (a + b) / t == a / t + b / t
  {
  }

  // ---- Index sequences ----------------------------------------------------

  ghost predicate Increasing(s: seq<nat>) { forall i, j :: 0 <= i < j < |s| ==> s[i] < s[j] }

  ghost predicate Bounded(s: seq<nat>, n: nat) { forall i :: 0 <= i < |s| ==> s[i] < n }

  // ---- Sums -------------------------------------------------------------

  function Sum(s: seq<real>): real {
    if s == [] then 0.0 else Sum(s[..|s| - 1]) + s[|s| - 1]
  }

  lemma SumSnoc(s: seq<real>, x: real)
    ensures Sum(s + [x]) == Sum(s) + x
  {
    assert (s + [x])[..|s|] == s;
  }

  lemma {:induction false} SumConcat(a: seq<real>, b: seq<real>)
    ensures Sum(a + b) == Sum(a) + Sum(b)
  {
    if b == [] {
      assert a + b == a;
    } else {
      SumConcat(a, b[..|b| - 1]);
      assert a + b == (a + b[..|b| - 1]) + [b[|b| - 1]];
      SumSnoc(a + b[..|b| - 1], b[|b| - 1]);
    }
  }

  /** A sum of values in [lo, hi] lies in [n*lo, n*hi]. */
  lemma {:induction false} SumBounds(s: seq<real>, lo: real, hi: real)
    requires forall i :: 0 <= i < |s| ==> lo <= s[i] <= hi
    ensures |s| as real * lo <= Sum(s) <= |s| as real * hi
  {
    if s != [] {
      var n := |s| - 1;
      SumBounds(s[..n], lo, hi);
      assert |s| as real * lo == n as real * lo + lo;
      assert |s| as real * hi == n as real * hi + hi;
    }
  }

  function Mean(s: seq<real>): real
    requires s != []
  {
    Sum(s) / |s| as real
  }

  lemma MeanBounds(s: seq<real>, lo: real, hi: real)
    requires s != [] && forall i :: 0 <= i < |s| ==> lo <= s[i] <= hi
    ensures lo <= Mean(s) <= hi
  {
    hide Sum;
    SumBounds(s, lo, hi);
    QuotientBounds(Sum(s), |s| as real, lo, hi);
  }

  lemma QuotientBounds(x: real, n: real, lo: real, hi: real)
    requires n > 0.0 && n * lo <= x <= n * hi
    ensures lo <= x / n <= hi
  {
    assert (n * lo) / n == lo && (n * hi) / n == hi;
  }

  /** The position of one occurrence of x splits a sequence. */
  lemma {:induction false} SumRemove(s: seq<real>, k: nat)
    requires k < |s|
    ensures Sum(s) == Sum(s[..k] + s[k + 1..]) + s[k]
  {
    SumConcat(s[..k], s[k + 1..]);
    SumSnoc(s[..k], s[k]);
    assert s == (s[..k] + [s[k]]) + s[k + 1..];
    SumConcat(s[..k] + [s[k]], s[k + 1..]);
  }

  /** Summation does not depend on the order of the summands. */
  lemma {:induction false} SumPermutation(a: seq<real>, b: seq<real>)
    requires multiset(a) == multiset(b)
    ensures Sum(a) == Sum(b)
    decreases |a|
  {
    assert |a| == |multiset(a)| == |multiset(b)| == |b|;
    if a != [] {
      var n := |a| - 1;
      var x := a[n];
      assert a == a[..n] + [x];
      assert x in multiset(b);
      var k :| 0 <= k < |b| && b[k] == x;
      var rest := b[..k] + b[k + 1..];
      assert b == b[..k] + [x] + b[k + 1..];
      assert multiset(a[..n]) == multiset(a) - multiset{x};
      assert multiset(rest) == multiset(b) - multiset{x};
      SumPermutation(a[..n], rest);
      SumRemove(b, k);
    }
  }

  function Mapped<T, U>(f: T -> U, s: seq<T>): (r: seq<U>)
    ensures |r| == |s| && forall i :: 0 <= i < |s| ==> r[i] == f(s[i])
  {
    seq(|s|, i requires 0 <= i < |s| => f(s[i]))
  }

  /** Mapping commutes with reordering. */
  lemma {:induction false} MappedPermutes<T, U>(f: T -> U, a: seq<T>, b: seq<T>)
    requires multiset(a) == multiset(b)
    ensures multiset(Mapped(f, a)) == multiset(Mapped(f, b))
    decreases |a|
  {
    assert |a| == |multiset(a)| == |multiset(b)| == |b|;
    if a != [] {
      hide Mapped;
      var n := |a| - 1;
      var x := a[n];
      assert x in multiset(b);
      var k :| 0 <= k < |b| && b[k] == x;
      var front, back := b[..k], b[k + 1..];
      CutOut(a, n);
      CutOut(b, k);
      assert a[..n] + a[n + 1..] == a[..n];
      MappedPermutes(f, a[..n], front + back);
      MappedAround(f, a[..n], x, a[n + 1..]);
      MappedAround(f, front, x, back);
    }
  }

  /** Taking one element out of a sequence. */
  lemma CutOut<T>(s: seq<T>, k: nat)
    requires k < |s|
    ensures s == s[..k] + [s[k]] + s[k + 1..]
    ensures multiset(s) == multiset(s[..k] + s[k + 1..]) + multiset{s[k]}
    ensures multiset(s[..k] + s[k + 1..]) == multiset(s) - multiset{s[k]}
  {
    var front, x, back := s[..k], s[k], s[k + 1..];
    assert s == front + [x] + back;
    assert multiset(front + [x] + back) == multiset(front) + multiset{x} + multiset(back);
    assert multiset(front + back) == multiset(front) + multiset(back);
  }

  lemma MappedAround<T, U>(f: T -> U, front: seq<T>, x: T, back: seq<T>)
    ensures multiset(Mapped(f, front + [x] + back)) == multiset(Mapped(f, front + back)) + multiset{f(x)}
  {
    var m := Mapped(f, front + [x] + back);
    var k := |front|;
    CutOut(m, k);
    assert m[..k] + m[k + 1..] == Mapped(f, front + back);
  }

  // ---- Inner products ---------------------------------------------------

  function Dot(a: seq<real>, b: seq<real>): real
    requires |a| == |b|
  {
    if a == [] then 0.0
    else Dot(a[..|a| - 1], b[..|b| - 1]) + a[|a| - 1] * b[|b| - 1]
  }

  lemma {:induction false} DotOrder(a: seq<real>, b: seq<real>, c: seq<real>)
    requires |a| == |b| == |c| && forall j :: 0 <= j < |a| ==> a[j] >= 0.0 && b[j] <= c[j]
    ensures Dot(a, b) <= Dot(a, c)
  {
    if a != [] {
      DotOrder(a[..|a| - 1], b[..|b| - 1], c[..|c| - 1]);
      ScaleOrder(a[|a| - 1], b[|b| - 1], c[|c| - 1]);
    }
  }

  function Constant(n: nat, c: real): (r: seq<real>)
    ensures |r| == n && forall j :: 0 <= j < n ==> r[j] == c
  {
    seq(n, j => c)
  }

  lemma {:induction false} DotConstant(a: seq<real>, c: real)
    ensures Dot(a, Constant(|a|, c)) == Sum(a) * c
  {
    if a != [] {
      var n := |a| - 1;
      DotConstant(a[..n], c);
      assert Constant(|a|, c)[..n] == Constant(n, c);
      Congruent(a[n], a[n], Constant(|a|, c)[n], c);
      Distribute(Sum(a[..n]), a[n], c);
      Congruent(Sum(a), Sum(a[..n]) + a[n], c, c);
    }
  }

  /** An inner product with non-negative coefficients stays between the scaled bounds. */
  lemma DotBounds(a: seq<real>, b: seq<real>, lo: real, hi: real)
    requires |a| == |b|
    requires forall j :: 0 <= j < |a| ==> a[j] >= 0.0
    requires forall j :: 0 <= j < |b| ==> lo <= b[j] <= hi
    ensures Sum(a) * lo <= Dot(a, b) <= Sum(a) * hi
  {
    DotOrder(a, Constant(|a|, lo), b);
    DotOrder(a, b, Constant(|a|, hi));
    DotConstant(a, lo);
    DotConstant(a, hi);
  }

  // ---- Sums and counts over index sets ----------------------------------

  /** Sum of v over the indices of S that are below n. */
  ghost function SumIn(v: seq<real>, S: set<nat>, n: nat): real
    requires n <= |v|
  {
    if n == 0 then 0.0 else SumIn(v, S, n - 1) + if n - 1 in S then v[n - 1] else 0.0
  }

  /** Number of indices of S below n. */
  ghost function CountIn(S: set<nat>, n: nat): nat {
    if n == 0 then 0 else CountIn(S, n - 1) + if n - 1 in S then 1 else 0
  }

  lemma {:induction false} CountIsCardinality(S: set<nat>, n: nat)
    requires forall i :: i in S ==> i < n
    ensures CountIn(S, n) == |S|
  {
    if n == 0 {
      assert S == {};
    } else {
      CountIsCardinality(S - {n - 1}, n - 1);
      CountAgree(S, S - {n - 1}, n - 1);
      if n - 1 in S {
        assert |S - {n - 1}| == |S| - 1;
      } else {
        assert S - {n - 1} == S;
      }
    }
  }

  lemma {:induction false} CountAgree(S: set<nat>, T: set<nat>, n: nat)
    requires forall i: nat :: i < n ==> (i in S <==> i in T)
    ensures CountIn(S, n) == CountIn(T, n)
  {
    if n > 0 { CountAgree(S, T, n - 1); }
  }

  lemma {:induction false} SumAgree(u: seq<real>, v: seq<real>, S: set<nat>, T: set<nat>, n: nat)
    requires n <= |u| && n <= |v|
    requires forall i: nat :: i < n ==> (i in S <==> i in T) && u[i] == v[i]
    ensures SumIn(u, S, n) == SumIn(v, T, n)
  {
    if n > 0 { SumAgree(u, v, S, T, n - 1); }
  }

  /** Adding one new index adds its value. */
  lemma {:induction false} SumInAdd(v: seq<real>, S: set<nat>, x: nat, n: nat)
    requires n <= |v| && x < n && x !in S
    ensures SumIn(v, S + {x}, n) == SumIn(v, S, n) + v[x]
  {
    if n - 1 == x {
      SumAgree(v, v, S + {x}, S, n - 1);
    } else {
      SumInAdd(v, S, x, n - 1);
    }
  }

  /** Every value indexed by S is at most b (at least a, over a subset, when values are non-negative). */
  lemma {:induction false} SumInUpper(v: seq<real>, S: set<nat>, n: nat, b: real)
    requires n <= |v|
    requires forall i: nat :: i < n && i in S ==> v[i] <= b
    ensures SumIn(v, S, n) <= CountIn(S, n) as real * b
  {
    if n > 0 { SumInUpper(v, S, n - 1, b); }
  }

  lemma {:induction false} SumInLower(v: seq<real>, S: set<nat>, n: nat, b: real)
    requires n <= |v|
    requires forall i: nat :: i < n && i in S ==> v[i] >= b
    ensures SumIn(v, S, n) >= CountIn(S, n) as real * b
  {
    if n > 0 { SumInLower(v, S, n - 1, b); }
  }

  lemma SetSumUpper(v: seq<real>, S: set<nat>, size: real, b: real)
    requires size == |S| as real && forall i :: i in S ==> i < |v| && v[i] <= b
    ensures SumIn(v, S, |v|) <= size * b
  {
    CountIsCardinality(S, |v|);
    SumInUpper(v, S, |v|, b);
  }

  lemma SetSumLower(v: seq<real>, S: set<nat>, size: real, b: real)
    requires size == |S| as real && forall i :: i in S ==> i < |v| && v[i] >= b
    ensures SumIn(v, S, |v|) >= size * b
  {
    CountIsCardinality(S, |v|);
    SumInLower(v, S, |v|, b);
  }

  lemma {:induction false} SumInMonotone(v: seq<real>, S: set<nat>, T: set<nat>, n: nat)
    requires n <= |v|
    requires S <= T && forall i: nat :: i < n ==> v[i] >= 0.0
    ensures SumIn(v, S, n) <= SumIn(v, T, n)
  {
    if n > 0 { SumInMonotone(v, S, T, n - 1); }
  }

  /** Sum over S of the deviations from t. */
  ghost function DeviationIn(v: seq<real>, S: set<nat>, n: nat, t: real): real
    requires n <= |v|
  {
    if n == 0 then 0.0 else DeviationIn(v, S, n - 1, t) + if n - 1 in S then v[n - 1] - t else 0.0
  }

  lemma {:induction false} DeviationIsShiftedSum(v: seq<real>, S: set<nat>, n: nat, t: real)
    requires n <= |v|
    ensures DeviationIn(v, S, n, t) == SumIn(v, S, n) - CountIn(S, n) as real * t
  {
    if n > 0 {
      DeviationIsShiftedSum(v, S, n - 1, t);
      var c := CountIn(S, n - 1) as real;
      if n - 1 in S {
        assert CountIn(S, n) as real * t == (c + 1.0) * t == c * t + t;
      }
    }
  }

  /**
   * Threshold exchange: if every value picked by N is at most t and every value
   * not picked is at least t, no selection deviates less from t in total than N.
   */
  lemma {:induction false} ThresholdExchange(v: seq<real>, N: set<nat>, S: set<nat>, n: nat, t: real)
    requires n <= |v|
    requires forall i: nat :: i < n && i in N ==> v[i] <= t
    requires forall i: nat :: i < n && i !in N ==> v[i] >= t
    ensures DeviationIn(v, N, n, t) <= DeviationIn(v, S, n, t)
  {
    if n > 0 { ThresholdExchange(v, N, S, n - 1, t); }
  }

  /** A set of naturals below n with at least k elements contains a subset of exactly k. */
  lemma {:induction false} SubsetOfSize(S: set<nat>, k: nat) returns (T: set<nat>)
    requires k <= |S|
    ensures T <= S && |T| == k
  {
    if k == |S| {
      T := S;
    } else {
      var x :| x in S;
      T := SubsetOfSize(S - {x}, k);
    }
  }

  /** A set of naturals below n has at most n elements. */
  lemma {:induction false} FitsBelow(S: set<nat>, n: nat)
    requires forall i :: i in S ==> i < n
    ensures |S| <= n
  {
    if n == 0 {
      assert S == {};
    } else {
      FitsBelow(S - {n - 1}, n - 1);
      if n - 1 in S {
        assert |S - {n - 1}| == |S| - 1;
      } else {
        assert S - {n - 1} == S;
      }
    }
  }

  // ---- Sorting ----------------------------------------------------------

  ghost predicate Ascending(s: seq<real>) {
    forall i, j :: 0 <= i < j < |s| ==> s[i] <= s[j]
  }

  /** Position at which x is inserted: behind the last entry that does not exceed it. */
  function Slot(x: real, s: seq<real>): (p: nat)
    ensures p <= |s|
  {
    if s == [] then 0
    else if s[|s| - 1] <= x then |s|
    else Slot(x, s[..|s| - 1])
  }

  lemma {:induction false} SlotSplits(x: real, s: seq<real>)
    requires Ascending(s)
    ensures forall i :: 0 <= i < Slot(x, s) ==> s[i] <= x
    ensures forall i :: Slot(x, s) <= i < |s| ==> x < s[i]
  {
    if s != [] && x < s[|s| - 1] {
      SlotSplits(x, s[..|s| - 1]);
    }
  }

  lemma SameLast(a: seq<real>, b: seq<real>)
    requires Ascending(a) && Ascending(b) && multiset(a) == multiset(b)
    ensures |a| == |b|
    ensures a != [] ==> a[|a| - 1] == b[|b| - 1]
  {
    assert |a| == |multiset(a)| == |multiset(b)| == |b|;
    if a != [] {
      var n := |a| - 1;
      assert a[n] in multiset(b) && b[n] in multiset(a);
      var i :| 0 <= i <= n && b[i] == a[n];
      var j :| 0 <= j <= n && a[j] == b[n];
    }
  }

  lemma InitOfEqual<T>(a: seq<T>, b: seq<T>)
    requires |a| == |b| > 0 && multiset(a) == multiset(b) && a[|a| - 1] == b[|b| - 1]
    ensures multiset(a[..|a| - 1]) == multiset(b[..|b| - 1])
  {
    var n := |a| - 1;
    assert a == a[..n] + [a[n]] && b == b[..n] + [b[n]];
    assert multiset(a[..n]) == multiset(a) - multiset{a[n]};
    assert multiset(b[..n]) == multiset(b) - multiset{b[n]};
  }

  /** Two ascending sequences with the same elements are the same sequence. */
  lemma {:induction false} AscendingUnique(a: seq<real>, b: seq<real>)
    requires Ascending(a) && Ascending(b) && multiset(a) == multiset(b)
    ensures a == b
    decreases |a|
  {
    SameLast(a, b);
    if a != [] {
      var n := |a| - 1;
      var x := a[n];
      InitOfEqual(a, b);
      AscendingUnique(a[..n], b[..n]);
      assert a == a[..n] + [x] && b == b[..n] + [x];
    }
  }

  // ---- Index permutations (np.argsort) ----------------------------------

  ghost predicate Distinct<T>(s: seq<T>) {
    forall i, j :: 0 <= i < j < |s| ==> s[i] != s[j]
  }

  ghost function Elements<T>(s: seq<T>): set<T> { set x | x in s }

  /** Distinctness survives reordering. */
  lemma {:induction false} DistinctPermutes<T>(a: seq<T>, b: seq<T>)
    requires multiset(a) == multiset(b) && Distinct(a)
    ensures Distinct(b)
  {
    forall j, k | 0 <= j < k < |b|
      ensures b[j] != b[k]
    {
      AtMostOnce(a, b[j]);
      assert b == b[..k] + [b[k]] + b[k + 1..];
      assert b[..k][j] == b[j];
      assert b[j] == b[k] ==> multiset(b)[b[j]] >= 2;
    }
  }

  lemma {:induction false} AtMostOnce<T>(s: seq<T>, x: T)
    requires Distinct(s)
    ensures multiset(s)[x] <= 1
  {
    if s != [] {
      DistinctInit(s);
      AtMostOnce(s[..|s| - 1], x);
      assert s == s[..|s| - 1] + [s[|s| - 1]];
    }
  }

  lemma DistinctInit<T>(s: seq<T>)
    requires Distinct(s) && s != []
    ensures Distinct(s[..|s| - 1]) && s[|s| - 1] !in s[..|s| - 1]
  {
  }

  /** A distinct sequence has as many elements as positions. */
  lemma {:induction false} DistinctCardinality<T>(s: seq<T>)
    requires Distinct(s)
    ensures |Elements(s)| == |s|
  {
    var all := Elements(s);
    if s == [] {
      assert all == {};
    } else {
      var n := |s| - 1;
      DistinctInit(s);
      DistinctCardinality(s[..n]);
      assert s == s[..n] + [s[n]];
      assert all == Elements(s[..n]) + {s[n]};
    }
  }

  /** order lists every index of v once, by ascending value; ties in any order. */
  ghost predicate IsArgsort(v: seq<real>, order: seq<nat>) {
    && |order| == |v|
    && Distinct(order)
    && (forall k :: 0 <= k < |order| ==> order[k] < |v|)
    && (forall i: nat :: i < |v| ==> i in order)
    && (forall j, k :: 0 <= j < k < |order| ==> v[order[j]] <= v[order[k]])
  }

  function Reindex<T>(v: seq<T>, order: seq<nat>): (r: seq<T>)
    requires forall k :: 0 <= k < |order| ==> order[k] < |v|
    ensures |r| == |order| && forall k :: 0 <= k < |order| ==> r[k] == v[order[k]]
  {
    seq(|order|, k requires 0 <= k < |order| => v[order[k]])
  }

  /** Inserting a fresh index at the slot of its value keeps an argsort. */
  lemma ArgsortInsert(w: seq<real>, x: real, rest: seq<nat>, p: nat)
    requires IsArgsort(w, rest) && p <= |rest|
    requires forall k :: 0 <= k < p ==> w[rest[k]] <= x
    requires forall k :: p <= k < |rest| ==> x < w[rest[k]]
    ensures IsArgsort(w + [x], rest[..p] + [|w|] + rest[p..])
  {
    var order := rest[..p] + [|w|] + rest[p..];
    var v := w + [x];
    assert forall k :: 0 <= k < |order| ==> order[k] == if k < p then rest[k] else if k == p then |w| else rest[k - 1];
    forall i: nat | i < |v|
      ensures i in order
    {
      if i < |w| {
        assert i in rest;
        var k :| 0 <= k < |rest| && rest[k] == i;
        assert order[if k < p then k else k + 1] == i;
      } else {
        assert order[p] == i;
      }
    }
  }

  /** One argsort of v: the stable insertion order. */
  function Argsort(v: seq<real>): (order: seq<nat>)
    ensures |order| == |v| && forall k :: 0 <= k < |order| ==> order[k] < |v|
  {
    if v == [] then []
    else
      var w, x := v[..|v| - 1], v[|v| - 1];
      var rest := Argsort(w);
      var p := Slot(x, Reindex(w, rest));
      rest[..p] + [|w|] + rest[p..]
  }

  lemma {:induction false} ArgsortRanks(v: seq<real>)
    ensures IsArgsort(v, Argsort(v))
  {
    if v != [] {
      var w, x := v[..|v| - 1], v[|v| - 1];
      ArgsortRanks(w);
      var u := Reindex(w, Argsort(w));
      SlotSplits(x, u);
      ArgsortInsert(w, x, Argsort(w), Slot(x, u));
      assert w + [x] == v;
    }
  }

  /** np.sort: the ascending permutation of v. */
  function Sort(v: seq<real>): (t: seq<real>)
    ensures |t| == |v|
  {
    Reindex(v, Argsort(v))
  }

  lemma SortAscends(v: seq<real>)
    ensures Ascending(Sort(v))
  {
    ArgsortRanks(v);
  }

  lemma SortStep(w: seq<real>, x: real)
    ensures var p := Slot(x, Sort(w)); Sort(w + [x]) == Sort(w)[..p] + [x] + Sort(w)[p..]
  {
    var v := w + [x];
    assert v[..|w|] == w;
    var rest := Argsort(w);
    var p := Slot(x, Sort(w));
    assert Argsort(v) == rest[..p] + [|w|] + rest[p..];
  }

  lemma {:induction false} SortPermutes(v: seq<real>)
    ensures multiset(Sort(v)) == multiset(v)
  {
    if v != [] {
      var w, x := v[..|v| - 1], v[|v| - 1];
      SortPermutes(w);
      assert v == w + [x];
      SortStep(w, x);
      MultisetInsert(Sort(w), Slot(x, Sort(w)), x);
    }
  }

  lemma MultisetInsert<T>(u: seq<T>, p: nat, x: T)
    requires p <= |u|
    ensures multiset(u[..p] + [x] + u[p..]) == multiset(u) + multiset{x}
  {
    assert u == u[..p] + u[p..];
  }

  /** The first k indices of an argsort carry the first k sorted values. */
  lemma {:induction false} PrefixSum(v: seq<real>, order: seq<nat>, k: nat)
    requires IsArgsort(v, order) && k <= |v|
    ensures SumIn(v, Elements(order[..k]), |v|) == Sum(Reindex(v, order)[..k])
  {
    if k == 0 {
      assert Elements(order[..k]) == {};
      EmptySum(v, |v|);
    } else {
      PrefixSum(v, order, k - 1);
      var r := Reindex(v, order);
      assert order[..k] == order[..k - 1] + [order[k - 1]];
      assert Elements(order[..k]) == Elements(order[..k - 1]) + {order[k - 1]};
      SumInAdd(v, Elements(order[..k - 1]), order[k - 1], |v|);
      assert r[..k] == r[..k - 1] + [r[k - 1]];
      SumSnoc(r[..k - 1], r[k - 1]);
    }
  }

  lemma {:induction false} EmptySum(v: seq<real>, n: nat)
    requires n <= |v|
    ensures SumIn(v, {}, n) == 0.0
  {
    if n > 0 { EmptySum(v, n - 1); }
  }

  /** Sums over disjoint index sets add up. */
  lemma {:induction false} SumInUnion(v: seq<real>, S: set<nat>, T: set<nat>, n: nat)
    requires n <= |v| && S !! T
    ensures SumIn(v, S + T, n) == SumIn(v, S, n) + SumIn(v, T, n)
  {
    if n > 0 { SumInUnion(v, S, T, n - 1); }
  }

  /** S picks k of the first n indices. */
  ghost predicate Picks(S: set<nat>, k: nat, n: nat) { |S| == k && forall i :: i in S ==> i < n }

  /** x is the least sum of any k entries of v. */
  ghost predicate IsLeastSum(v: seq<real>, k: nat, x: real) {
    && (forall S :: Picks(S, k, |v|) ==> x <= SumIn(v, S, |v|))
    && (exists S :: Picks(S, k, |v|) && x == SumIn(v, S, |v|))
  }

  /**
   * L and U hold k indices each, M the others; no entry outside L is below one in it, and none
   * outside U is above one in it.
   */
  ghost predicate CutsOff(v: seq<real>, k: nat, L: set<nat>, M: set<nat>, U: set<nat>) {
    && Picks(L, k, |v|) && Picks(U, k, |v|) && L !! M && L !! U && M !! U
    && (forall i :: i in M ==> i < |v|) && (forall i: nat :: i < |v| ==> i in L || i in M || i in U)
    && (forall l, i :: l in L && (i in M || i in U) ==> v[l] <= v[i])
    && (forall u, i :: u in U && (i in L || i in M) ==> v[i] <= v[u])
  }

  /**
   * The k smallest entries of v sit at some k indices N: their sum is the sum of the
   * first k sorted values, and no entry outside N is below an entry in it.
   */
  lemma SmallestIndices(v: seq<real>, k: nat) returns (N: set<nat>)
    requires k <= |v|
    ensures |N| == k && forall i :: i in N ==> i < |v|
    ensures SumIn(v, N, |v|) == Sum(Sort(v)[..k])
    ensures forall i, j: nat :: i in N && j < |v| && j !in N ==> v[i] <= v[j]
  {
    var order := Argsort(v);
    ArgsortRanks(v);
    N := Elements(order[..k]);
    DistinctCardinality(order[..k]);
    PrefixSum(v, order, k);
    assert forall c :: 0 <= c < k ==> order[..k][c] in N;
    forall i, j: nat | i in N && j < |v| && j !in N
      ensures v[i] <= v[j]
    {
      var a :| 0 <= a < k && order[a] == i;
      assert j in order;
      var b :| 0 <= b < |order| && order[b] == j;
    }
  }

  /** No k entries of v have a smaller sum than the first k sorted ones. */
  lemma SmallestSumIsLeast(v: seq<real>, k: nat, S: set<nat>)
    requires |S| == k && forall i :: i in S ==> i < |v|
    ensures k <= |v|
    ensures Sum(Sort(v)[..k]) <= SumIn(v, S, |v|)
  {
    FitsBelow(S, |v|);
    var N := SmallestIndices(v, k);
    if k == 0 {
      assert N == {} == S;
    } else {
      var t := Largest(v, N);
      ThresholdExchange(v, N, S, |v|, t);
      EqualSizeDeviation(v, N, S, t);
    }
  }

  /** The first k sorted values add up to the least sum of any k entries. */
  lemma SmallestSumIsMinimum(v: seq<real>, k: nat)
    requires k <= |v|
    ensures IsLeastSum(v, k, Sum(Sort(v)[..k]))
  {
    hide Sum, SumIn, Sort;
    forall S | Picks(S, k, |v|)
      ensures Sum(Sort(v)[..k]) <= SumIn(v, S, |v|)
    {
      SmallestSumIsLeast(v, k, S);
    }
    var N := SmallestIndices(v, k);
    assert Picks(N, k, |v|);
  }

  /** The indices that an argsort ranks from place a to place b. */
  ghost function Block(order: seq<nat>, a: nat, b: nat): set<nat>
    requires a <= b <= |order|
  {
    Elements(order[a..b])
  }

  lemma BlockMember(order: seq<nat>, a: nat, b: nat, x: nat)
    requires a <= b <= |order|
    ensures x in Block(order, a, b) <==> exists i :: a <= i < b && order[i] == x
  {
    if i :| a <= i < b && order[i] == x { assert order[a..b][i - a] == x; }
  }

  lemma BlockCard(v: seq<real>, order: seq<nat>, a: nat, b: nat)
    requires IsArgsort(v, order) && a <= b <= |order|
    ensures Picks(Block(order, a, b), b - a, |v|)
  {
    DistinctCardinality(order[a..b]);
  }

  lemma BlockOrder(v: seq<real>, order: seq<nat>, a: nat, b: nat, c: nat, d: nat)
    requires IsArgsort(v, order) && a <= b <= c <= d <= |order|
    ensures Block(order, a, b) !! Block(order, c, d)
    ensures forall x, y :: x in Block(order, a, b) && y in Block(order, c, d) ==> x < |v| && y < |v| && v[x] <= v[y]
  {
    hide Block;
    forall x, y | x in Block(order, a, b) && y in Block(order, c, d)
      ensures x != y && x < |v| && y < |v| && v[x] <= v[y]
    {
      BlockMember(order, a, b, x);
      BlockMember(order, c, d, y);
      var i :| a <= i < b && order[i] == x;
      var j :| c <= j < d && order[j] == y;
    }
  }

  lemma BlocksCover(v: seq<real>, order: seq<nat>, k: nat, x: nat)
    requires IsArgsort(v, order) && 2 * k <= |v| && x < |v|
    ensures x in Block(order, 0, k) || x in Block(order, k, |v| - k) || x in Block(order, |v| - k, |v|)
  {
    hide Block;
    assert x in order;
    var i :| 0 <= i < |order| && order[i] == x;
    BlockMember(order, 0, k, x);
    BlockMember(order, k, |v| - k, x);
    BlockMember(order, |v| - k, |v|, x);
    assert i < k || k <= i < |v| - k || |v| - k <= i < |v|;
  }

  lemma MiddleCuts(v: seq<real>, order: seq<nat>, k: nat)
    requires IsArgsort(v, order) && 2 * k <= |order| == |v|
    ensures CutsOff(v, k, Block(order, 0, k), Block(order, k, |v| - k), Block(order, |v| - k, |v|))
  {
    hide IsArgsort, Block;
    var n := |v|;
    BlockCard(v, order, 0, k);
    BlockCard(v, order, k, n - k);
    BlockCard(v, order, n - k, n);
    BlockOrder(v, order, 0, k, k, n - k);
    BlockOrder(v, order, 0, k, n - k, n);
    BlockOrder(v, order, k, n - k, n - k, n);
    forall x: nat | x < n
      ensures x in Block(order, 0, k) || x in Block(order, k, n - k) || x in Block(order, n - k, n)
    {
      BlocksCover(v, order, k, x);
    }
  }

  lemma BlockSplit(order: seq<nat>, a: nat, b: nat)
    requires a <= b <= |order|
    ensures Block(order, 0, b) == Block(order, 0, a) + Block(order, a, b)
    ensures Block(order, 0, a) == Elements(order[..a])
  {
    assert order[0..b] == order[0..a] + order[a..b];
    assert order[0..a] == order[..a];
  }

  /** The sum over a block is the sum of those sorted values. */
  lemma BlockSum(v: seq<real>, order: seq<nat>, a: nat, b: nat)
    requires IsArgsort(v, order) && a <= b <= |order| == |v|
    requires forall i :: 0 <= i < |order| ==> order[i] < |v|
    ensures SumIn(v, Block(order, a, b), |v|) == Sum(Reindex(v, order)[a..b])
  {
    hide IsArgsort, Block, SumIn, Sum, Elements;
    var r := Reindex(v, order);
    PrefixSum(v, order, a);
    PrefixSum(v, order, b);
    BlockOrder(v, order, 0, a, a, b);
    BlockSplit(order, a, b);
    BlockSplit(order, b, b);
    SumInUnion(v, Block(order, 0, a), Block(order, a, b), |v|);
    assert r[..b] == r[..a] + r[a..b];
    SumConcat(r[..a], r[a..b]);
  }

  /** The sorted values without k at either end are the entries between two cuts of size k. */
  lemma SortedMiddle(v: seq<real>, k: nat) returns (L: set<nat>, M: set<nat>, U: set<nat>)
    requires 2 * k <= |v|
    ensures CutsOff(v, k, L, M, U)
    ensures SumIn(v, M, |v|) == Sum(Sort(v)[k..|v| - k])
  {
    var order, n := Argsort(v), |v|;
    ArgsortRanks(v);
    hide Argsort, CutsOff, SumIn, Sum;
    L, M, U := Block(order, 0, k), Block(order, k, n - k), Block(order, n - k, n);
    MiddleCuts(v, order, k);
    BlockSum(v, order, k, n - k);
  }

  lemma EqualSizeDeviation(v: seq<real>, N: set<nat>, S: set<nat>, t: real)
    requires |N| == |S| && (forall i :: i in N ==> i < |v|) && (forall i :: i in S ==> i < |v|)
    ensures SumIn(v, N, |v|) - SumIn(v, S, |v|) == DeviationIn(v, N, |v|, t) - DeviationIn(v, S, |v|, t)
  {
    CountIsCardinality(N, |v|);
    CountIsCardinality(S, |v|);
    DeviationIsShiftedSum(v, N, |v|, t);
    DeviationIsShiftedSum(v, S, |v|, t);
  }

  lemma {:induction false} Largest(v: seq<real>, N: set<nat>) returns (t: real)
    requires N != {} && forall i :: i in N ==> i < |v|
    ensures forall i :: i in N ==> v[i] <= t
    ensures exists i :: i in N && v[i] == t
  {
    var x :| x in N;
    if N == {x} {
      t := v[x];
    } else {
      t := Largest(v, N - {x});
      if t < v[x] { t := v[x]; }
    }
  }

  lemma {:induction false} SubsetCardinality<T>(A: set<T>, B: set<T>)
    requires A <= B
    ensures |A| <= |B|
  {
    assert B == A + (B - A);
  }

  /** np.argmin: the first index of the least value. */
  method Argmin(v: seq<real>) returns (k: nat)
    requires v != []
    ensures k < |v|
    ensures forall i :: 0 <= i < |v| ==> v[k] <= v[i]
    ensures forall i :: 0 <= i < k ==> v[k] < v[i]
  {
    k := 0;
    for i := 1 to |v|
      invariant k < i
      invariant forall j :: 0 <= j < i ==> v[k] <= v[j]
      invariant forall j :: 0 <= j < k ==> v[k] < v[j]
    {
      if v[i] < v[k] { k := i; }
    }
  }
}
