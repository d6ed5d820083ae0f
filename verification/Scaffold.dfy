/**
 * SCAFFOLD for gossip: averaging with a control-variate correction against a running
 * global control variate. Weights and control variates are dictionaries of flat tensors
 * whose sizes are fixed by the model architecture.
 */
module Scaffold {
  import opened Wrappers
  import opened Numerics
  import opened Vectors
  import opened Aggregation
  import opened FedAvg

  type Params = map<string, Vec>
  type Sizes = string -> nat

  datatype ControlledUpdate = ControlledUpdate(peerId: string, weights: Params, samples: int, control: Option<Params>)

  datatype ControlledModel = ControlledModel(weights: Params, contributingPeers: seq<string>, totalSamples: int)

  function SamplesSeen(us: seq<ControlledUpdate>): int {
    if us == [] then 0 else SamplesSeen(us[..|us| - 1]) + us[|us| - 1].samples
  }

  ghost predicate Fits(size: Sizes, p: Params) {
    forall key :: key in p ==> |p[key]| == size(key)
  }

  ghost predicate AllFit(size: Sizes, us: seq<ControlledUpdate>) {
    forall j :: 0 <= j < |us| ==>
                  && Fits(size, us[j].weights)
                  && (us[j].control.Some? ==> Fits(size, us[j].control.value))
  }

  ghost predicate SameKeys(us: seq<ControlledUpdate>) {
    forall j :: 0 <= j < |us| ==> us[j].weights.Keys == us[0].weights.Keys
  }

  ghost predicate GlobalFits(size: Sizes, c: Option<Params>) { c.Some? ==> Fits(size, c.value) }

  // ---- Coefficients ---------------------------------------------------------

  function SampleCounts(us: seq<ControlledUpdate>): (s: seq<real>)
    ensures |s| == |us| && forall j :: 0 <= j < |us| ==> s[j] == us[j].samples as real
  {
    seq(|us|, j requires 0 <= j < |us| => us[j].samples as real)
  }

  /** Sample counts of the peers that sent a control variate; zero for the others. */
  function ControlCounts(us: seq<ControlledUpdate>): (s: seq<real>)
    ensures |s| == |us| && forall j :: 0 <= j < |us| ==> s[j] == if us[j].control.Some? then us[j].samples as real
        else 0.0
  {
    seq(|us|, j requires 0 <= j < |us| => if us[j].control.Some? then us[j].samples as real else 0.0)
  }

  function Senders(us: seq<ControlledUpdate>): nat {
    if us == [] then 0 else Senders(us[..|us| - 1]) + if us[|us| - 1].control.Some? then 1 else 0
  }

  function ControlTotal(us: seq<ControlledUpdate>): (t: real)
    ensures Senders(us) > 0 ==> t != 0.0
  {
    if Sum(ControlCounts(us)) == 0.0 then Senders(us) as real else Sum(ControlCounts(us))
  }

  /** The share of peer j: by samples if the total is positive, else equal among the senders. */
  function ControlShare(us: seq<ControlledUpdate>, j: nat): real
    requires Senders(us) > 0 && j < |us|
  {
    if us[j].control.None? then 0.0
    else if ControlTotal(us) > 0.0 then us[j].samples as real / ControlTotal(us)
    else 1.0 / Senders(us) as real
  }

  function ControlShares(us: seq<ControlledUpdate>): (s: seq<real>)
    requires Senders(us) > 0
    ensures |s| == |us| && forall j :: 0 <= j < |us| ==> s[j] == ControlShare(us, j)
  {
    seq(|us|, j requires 0 <= j < |us| => ControlShare(us, j))
  }

  // ---- One round, per key -----------------------------------------------------

  function KeyOr(size: Sizes, p: Option<Params>, key: string): (v: Vec)
    requires p.Some? ==> Fits(size, p.value)
    ensures |v| == size(key)
  {
    if p.Some? && key in p.value then p.value[key] else Zero(size(key))
  }

  function KeyWeights(size: Sizes, us: seq<ControlledUpdate>, key: string): (vs: seq<Vec>)
    requires AllFit(size, us)
    ensures |vs| == |us| && AllOfDim(size(key), vs)
    ensures forall j :: 0 <= j < |us| ==> vs[j] == KeyOr(size, Some(us[j].weights), key)
  {
    seq(|us|, j requires 0 <= j < |us| => KeyOr(size, Some(us[j].weights), key))
  }

  function KeyControls(size: Sizes, us: seq<ControlledUpdate>, key: string): (vs: seq<Vec>)
    requires AllFit(size, us)
    ensures |vs| == |us| && AllOfDim(size(key), vs)
    ensures forall j :: 0 <= j < |us| ==> vs[j] == KeyOr(size, us[j].control, key)
  {
    seq(|us|, j requires 0 <= j < |us| => KeyOr(size, us[j].control, key))
  }

  /** The weights of one peer minus its estimated drift, when both control variates know the key. */
  function Corrected(eta: real, w: Vec, control: Option<Params>, c: Option<Params>, key: string): (v: Vec)
    requires control.Some? && key in control.value ==> |control.value[key]| == |w|
    requires c.Some? && key in c.value ==> |c.value[key]| == |w|
    ensures |v| == |w|
  {
    if control.Some? && key in control.value && c.Some? && key in c.value
    then Sub(w, Scale(eta, Sub(control.value[key], c.value[key])))
    else w
  }

  function KeyCorrected(size: Sizes, eta: real, us: seq<ControlledUpdate>, c: Option<Params>,
      key: string): (vs: seq<Vec>)
    requires AllFit(size, us) && GlobalFits(size, c)
    ensures |vs| == |us| && AllOfDim(size(key), vs)
    ensures forall j :: 0 <= j < |us| ==>
                          vs[j] == Corrected(eta, KeyOr(size, Some(us[j].weights), key), us[j].control, c, key)
  {
    seq(|us|, j requires 0 <= j < |us| => Corrected(eta, KeyOr(size, Some(us[j].weights), key), us[j].control, c, key))
  }

  /** The sample-weighted average without correction. */
  function Plain(size: Sizes, us: seq<ControlledUpdate>, key: string): (v: Vec)
    requires us != [] && AllFit(size, us)
    ensures |v| == size(key)
  {
    Combine(size(key), KeyWeights(size, us, key), Normalized(SampleCounts(us), Divisor(SampleCounts(us))))
  }

  /** What the round returns for one key, given the global control variate before it. */
  function Output(size: Sizes, eta: real, us: seq<ControlledUpdate>, c: Option<Params>, key: string): (v: Vec)
    requires us != [] && AllFit(size, us) && GlobalFits(size, c)
    ensures |v| == size(key)
  {
    Combine(size(key), KeyCorrected(size, eta, us, c, key), Normalized(SampleCounts(us), Divisor(SampleCounts(us))))
  }

  function ControlKeys(us: seq<ControlledUpdate>): set<string> {
    if us == [] then {}
    else ControlKeys(us[..|us| - 1]) + if us[|us| - 1].control.Some? then us[|us| - 1].control.value.Keys else {}
  }

  /** The sample-weighted average of the control variates that were sent. */
  function AverageControl(size: Sizes, us: seq<ControlledUpdate>): (p: Params)
    requires AllFit(size, us) && Senders(us) > 0
    ensures p.Keys == ControlKeys(us) && Fits(size, p)
  {
    map key | key in ControlKeys(us) ::
      Combine(size(key), KeyControls(size, us, key), ControlShares(us))
  }

  function Blend(beta: real, before: Vec, latest: Vec): (v: Vec)
    requires |before| == |latest|
    ensures |v| == |before|
  {
    Add(Scale(beta, before), Scale(1.0 - beta, latest))
  }

  /** The running estimate after a round that averaged to avg. */
  function UpdatedGlobal(size: Sizes, beta: real, c: Option<Params>, avg: Params): (p: Params)
    requires GlobalFits(size, c) && Fits(size, avg)
    ensures Fits(size, p)
  {
    if c.None? || beta == 0.0 then avg
    else map key | key in c.value.Keys + avg.Keys ::
           if key !in avg then c.value[key]
           else if key in c.value then Blend(beta, c.value[key], avg[key])
           else avg[key]
  }

  /** The global control variate after a round. Without any sender the estimate is averaged with itself. */
  function NextGlobal(size: Sizes, beta: real, c: Option<Params>, us: seq<ControlledUpdate>): (c': Option<Params>)
    requires AllFit(size, us) && GlobalFits(size, c)
    ensures GlobalFits(size, c')
  {
    if Senders(us) > 0 then Some(UpdatedGlobal(size, beta, c, AverageControl(size, us)))
    else if c.Some? then Some(UpdatedGlobal(size, beta, c, c.value))
    else None
  }

  /** The shares of the senders add up to one, unless their samples cancel out, and nobody else has one. */
  lemma SharesAddUp(us: seq<ControlledUpdate>)
    requires Senders(us) > 0
    ensures Sum(ControlShares(us)) == if Sum(ControlCounts(us)) == 0.0 then 0.0 else 1.0
    ensures forall j :: 0 <= j < |us| && us[j].control.None? ==> ControlShares(us)[j] == 0.0
  {
    hide Sum, ControlShares, Senders, ControlCounts;
    ShareOfNobody(us);
    var total := ControlTotal(us);
    if total > 0.0 {
      SharesSum(us);
      DivideZero(total);
      DivideSelf(total);
    } else {
      EqualSharesSum(us);
    }
  }

  lemma SharesSum(us: seq<ControlledUpdate>)
    requires Senders(us) > 0 && ControlTotal(us) > 0.0
    ensures Sum(ControlShares(us)) == Sum(ControlCounts(us)) / ControlTotal(us)
  {
    hide Sum, ControlShares, Senders, ControlCounts, ControlTotal, Normalized;
    SharesBySamples(us);
    SumNormalized(ControlCounts(us), ControlTotal(us));
  }

  lemma EqualSharesSum(us: seq<ControlledUpdate>)
    requires Senders(us) > 0 && ControlTotal(us) <= 0.0
    ensures Sum(ControlShares(us)) == 1.0
  {
    hide Sum, ControlShares, Senders, ControlCounts, ControlTotal;
    EqualShares(us, us, Senders(us) as real);
    assert ControlShares(us)[..|us|] == ControlShares(us);
    DivideSelf(Senders(us) as real);
  }

  lemma ShareOfNobody(us: seq<ControlledUpdate>)
    requires Senders(us) > 0
    ensures forall j :: 0 <= j < |us| && us[j].control.None? ==> ControlShares(us)[j] == 0.0
  {
    hide Sum, Senders;
  }

  lemma SharesBySamples(us: seq<ControlledUpdate>)
    requires Senders(us) > 0 && ControlTotal(us) > 0.0
    ensures ControlShares(us) == Normalized(ControlCounts(us), ControlTotal(us))
  {
    hide Sum, Senders, ControlTotal;
    DivideZero(ControlTotal(us));
  }

  lemma {:induction false} EqualShares(all: seq<ControlledUpdate>, us: seq<ControlledUpdate>, n: real)
    requires Senders(all) > 0 && ControlTotal(all) <= 0.0 && n == Senders(all) as real && us <= all
    ensures Sum(ControlShares(all)[..|us|]) == Senders(us) as real / n
  {
    if us == [] {
      DivideZero(n);
    } else {
      var m := |us| - 1;
      EqualShares(all, us[..m], n);
      assert ControlShares(all)[..|us|][..m] == ControlShares(all)[..m];
      DivideSum(Senders(us[..m]) as real, if us[m].control.Some? then 1.0 else 0.0, n);
      DivideZero(n);
    }
  }

  /** A key that only the estimate or only the average holds keeps its value there. */
  lemma OneSidedKeys(size: Sizes, beta: real, c: Params, avg: Params, key: string)
    requires Fits(size, c) && Fits(size, avg) && beta != 0.0
    ensures var p := UpdatedGlobal(size, beta, Some(c), avg);
            && (key in p <==> key in c || key in avg)
            && (key in c && key !in avg ==> p[key] == c[key])
            && (key !in c && key in avg ==> p[key] == avg[key])
  {
  }

  // ---- Any round -----------------------------------------------------------------

  /** How far the control variate of peer j is from the estimate; zero if it does not hold the key. */
  function Gap(us: seq<ControlledUpdate>, c: Params, key: string, i: nat, j: nat): real
    requires j < |us| && key in c && i < |c[key]|
    requires us[j].control.Some? && key in us[j].control.value ==> i < |us[j].control.value[key]|
  {
    if us[j].control.Some? && key in us[j].control.value then us[j].control.value[key][i] - c[key][i] else 0.0
  }

  function Gaps(size: Sizes, us: seq<ControlledUpdate>, c: Params, key: string, i: nat): (g: seq<real>)
    requires AllFit(size, us) && Fits(size, c) && key in c && i < size(key)
    ensures |g| == |us| && forall j :: 0 <= j < |us| ==> g[j] == Gap(us, c, key, i, j)
  {
    seq(|us|, j requires 0 <= j < |us| => Gap(us, c, key, i, j))
  }

  /** Without an estimate for the key the round is the plain average. */
  lemma UncorrectedIsPlain(size: Sizes, eta: real, us: seq<ControlledUpdate>, c: Option<Params>, key: string)
    requires us != [] && AllFit(size, us) && GlobalFits(size, c) && (c.Some? ==> key !in c.value)
    ensures Output(size, eta, us, c, key) == Plain(size, us, key)
  {
    hide Combine, Sum;
    assert KeyCorrected(size, eta, us, c, key) == KeyWeights(size, us, key);
  }

  /**
   * With one, it differs from the plain average by eta times the weighted gaps of exactly the
   * peers whose control variate holds the key.
   */
  lemma CorrectionIsExact(size: Sizes, eta: real, us: seq<ControlledUpdate>, c: Params, key: string, i: nat)
    requires us != [] && AllFit(size, us) && Fits(size, c) && key in c && i < size(key)
    ensures var qs := Normalized(SampleCounts(us), Divisor(SampleCounts(us)));
            Plain(size, us, key)[i] - Output(size, eta, us, Some(c), key)[i] == eta * Dot(qs, Gaps(size, us, c, key, i))
  {
    hide Combine, Sum, Dot, Divisor;
    var qs := Normalized(SampleCounts(us), Divisor(SampleCounts(us)));
    var w, corrected := KeyWeights(size, us, key), KeyCorrected(size, eta, us, Some(c), key);
    var gaps := Gaps(size, us, c, key, i);
    CombineCoordinate(size(key), w, qs, i);
    CombineCoordinate(size(key), corrected, qs, i);
    GapColumn(size, eta, us, c, key, i);
    DotSub(qs, Column(w, i), Scale(eta, gaps));
    DotScale(qs, eta, gaps);
  }

  lemma GapColumn(size: Sizes, eta: real, us: seq<ControlledUpdate>, c: Params, key: string, i: nat)
    requires AllFit(size, us) && Fits(size, c) && key in c && i < size(key)
    ensures Column(KeyCorrected(size, eta, us, Some(c), key), i)
         == Sub(Column(KeyWeights(size, us, key), i), Scale(eta, Gaps(size, us, c, key, i)))
  {
    var gaps := Gaps(size, us, c, key, i);
    var left, w := Column(KeyCorrected(size, eta, us, Some(c), key), i), Column(KeyWeights(size, us, key), i);
    forall j | 0 <= j < |us|
      ensures left[j] == Sub(w, Scale(eta, gaps))[j]
    {
      if us[j].control.Some? && key in us[j].control.value {
        Congruent(eta, eta, Sub(us[j].control.value[key], c[key])[i], gaps[j]);
      } else {
        assert eta * gaps[j] == 0.0;
      }
    }
  }

  // ---- A round in which everybody sends the key -------------------------------

  ghost predicate FullRound(size: Sizes, us: seq<ControlledUpdate>, key: string) {
    && us != [] && AllFit(size, us)
    && Sum(SampleCounts(us)) > 0.0
    && forall j :: 0 <= j < |us| ==> key in us[j].weights && us[j].control.Some? && key in us[j].control.value
  }

  lemma {:induction false} EverybodySends(size: Sizes, us: seq<ControlledUpdate>, key: string)
    requires forall j :: 0 <= j < |us| ==> us[j].control.Some? && key in us[j].control.value
    ensures Senders(us) == |us|
    ensures us != [] ==> key in ControlKeys(us)
  {
    if us != [] { EverybodySends(size, us[..|us| - 1], key); }
  }

  /** In a full round both averages use the same coefficients, and these add up to one. */
  lemma FullRoundCoefficients(size: Sizes, us: seq<ControlledUpdate>, key: string)
    requires FullRound(size, us, key)
    ensures Senders(us) == |us| && key in ControlKeys(us)
    ensures ControlShares(us) == Normalized(SampleCounts(us), Divisor(SampleCounts(us)))
    ensures Sum(Normalized(SampleCounts(us), Divisor(SampleCounts(us)))) == 1.0
  {
    EverybodySends(size, us, key);
    assert ControlCounts(us) == SampleCounts(us);
    SumNormalized(SampleCounts(us), Divisor(SampleCounts(us)));
    DivideSelf(Divisor(SampleCounts(us)));
  }

  /** When everybody sends the key, the weighted gaps are the gap of the average. */
  lemma FullGaps(size: Sizes, us: seq<ControlledUpdate>, c: Params, key: string, i: nat, qs: seq<real>)
    requires FullRound(size, us, key) && Fits(size, c) && key in c && i < size(key) && |qs| == |us| && Sum(qs) == 1.0
    ensures Dot(qs, Gaps(size, us, c, key, i)) == Combine(size(key), KeyControls(size, us, key), qs)[i] - c[key][i]
  {
    hide Combine, Sum, Dot;
    var column := Column(KeyControls(size, us, key), i);
    assert Gaps(size, us, c, key, i) == Sub(column, Constant(|us|, c[key][i]));
    DotSub(qs, column, Constant(|us|, c[key][i]));
    DotConstant(qs, c[key][i]);
    CombineCoordinate(size(key), KeyControls(size, us, key), qs, i);
    Congruent(Sum(qs), 1.0, c[key][i], c[key][i]);
  }

  /** One full round removes eta times the gap between the average control and the estimate. */
  lemma RoundDrift(size: Sizes, eta: real, us: seq<ControlledUpdate>, c: Params, key: string, i: nat)
    requires FullRound(size, us, key) && Fits(size, c) && key in c && i < size(key)
    requires Senders(us) > 0 && key in ControlKeys(us)
    ensures Plain(size, us, key)[i] - Output(size, eta, us, Some(c), key)[i]
         == eta * (AverageControl(size, us)[key][i] - c[key][i])
  {
    hide Plain, Output, Combine, Sum, Dot, Senders, ControlShares, Divisor, Normalized, KeyControls, Gaps, SampleCounts;
    var qs := Normalized(SampleCounts(us), Divisor(SampleCounts(us)));
    FullRoundCoefficients(size, us, key);
    CorrectionIsExact(size, eta, us, c, key, i);
    FullGaps(size, us, c, key, i, qs);
    Congruent(eta, eta, Dot(qs, Gaps(size, us, c, key, i)), AverageControl(size, us)[key][i] - c[key][i]);
  }

  /** The estimate moves by (1 - beta) times that same gap. */
  lemma EstimateStep(size: Sizes, beta: real, us: seq<ControlledUpdate>, c: Params, key: string, i: nat)
    requires FullRound(size, us, key) && Fits(size, c) && key in c && i < size(key)
    requires Senders(us) > 0 && key in ControlKeys(us)
    ensures var c' := NextGlobal(size, beta, Some(c), us);
            && c'.Some? && key in c'.value
            && c'.value[key][i] - c[key][i] == (1.0 - beta) * (AverageControl(size, us)[key][i] - c[key][i])
  {
    hide AverageControl, Blend, Sum;
    BlendStep(beta, c[key], AverageControl(size, us)[key], i);
  }

  lemma BlendStep(beta: real, before: Vec, latest: Vec, i: nat)
    requires |before| == |latest| && i < |before|
    ensures Blend(beta, before, latest)[i] - before[i] == (1.0 - beta) * (latest[i] - before[i])
    ensures beta == 0.0 ==> latest[i] - before[i] == (1.0 - beta) * (latest[i] - before[i])
  {
    BlendArithmetic(beta, before[i], latest[i]);
  }

  lemma BlendArithmetic(beta: real, x: real, y: real)
    ensures beta * x + (1.0 - beta) * y - x == (1.0 - beta) * (y - x)
    ensures beta == 0.0 ==> y - x == (1.0 - beta) * (y - x)
  {
  }

  // ---- Whole runs -------------------------------------------------------------

  ghost predicate RunFits(size: Sizes, rounds: seq<seq<ControlledUpdate>>) {
    forall t :: 0 <= t < |rounds| ==> AllFit(size, rounds[t])
  }

  ghost predicate FullRun(size: Sizes, rounds: seq<seq<ControlledUpdate>>, key: string) {
    RunFits(size, rounds) && forall t :: 0 <= t < |rounds| ==> FullRound(size, rounds[t], key)
  }

  /** The global control variate after the rounds, from a fresh strategy. */
  ghost function GlobalAfter(size: Sizes, beta: real, rounds: seq<seq<ControlledUpdate>>): (c: Option<Params>)
    requires RunFits(size, rounds)
    ensures GlobalFits(size, c)
  {
    if rounds == [] then None
    else NextGlobal(size, beta, GlobalAfter(size, beta, rounds[..|rounds| - 1]), rounds[|rounds| - 1])
  }

  /** Summed difference between plain averages and outputs, from the second round on. */
  ghost function TotalDrift(size: Sizes, eta: real, beta: real, rounds: seq<seq<ControlledUpdate>>, key: string,
      i: nat): real
    requires FullRun(size, rounds, key) && i < size(key)
  {
    if |rounds| <= 1 then 0.0
    else
      var n := |rounds| - 1;
      var us, c := rounds[n], GlobalAfter(size, beta, rounds[..n]);
      TotalDrift(size, eta, beta, rounds[..n], key, i) + (Plain(size, us, key)[i] - Output(size, eta, us, c, key)[i])
  }

  lemma {:induction false} EstimateKnowsKey(size: Sizes, beta: real, rounds: seq<seq<ControlledUpdate>>, key: string)
    requires rounds != [] && FullRun(size, rounds, key)
    ensures var c := GlobalAfter(size, beta, rounds); c.Some? && key in c.value
  {
    var n := |rounds| - 1;
    FullRoundCoefficients(size, rounds[n], key);
    if n > 0 { EstimateKnowsKey(size, beta, rounds[..n], key); }
  }

  lemma TelescopeArithmetic(g: real, eta: real, total: real, drift: real, gap: real, first: real, before: real,
      after: real)
    requires g * total == eta * (before - first)
    requires drift == eta * gap && after - before == g * gap
    ensures g * (total + drift) == eta * (after - first)
  {
    assert g * (eta * gap) == eta * (g * gap);
    assert g * (total + drift) == g * total + g * drift;
    assert eta * (after - first) == eta * (before - first) + eta * (after - before);
  }

  lemma TelescopeStep(size: Sizes, eta: real, beta: real, us: seq<ControlledUpdate>, c: Params, key: string, i: nat,
      total: real, first: real)
    requires FullRound(size, us, key) && Fits(size, c) && key in c && i < size(key)
    requires (1.0 - beta) * total == eta * (c[key][i] - first)
    ensures var c' := NextGlobal(size, beta, Some(c), us);
            && c'.Some? && key in c'.value
            && (1.0 - beta) * (total + (Plain(size, us, key)[i] - Output(size, eta, us, Some(c), key)[i]))
               == eta * (c'.value[key][i] - first)
  {
    hide Plain, Output, AverageControl, NextGlobal, Sum, Senders, ControlKeys;
    FullRoundCoefficients(size, us, key);
    RoundDrift(size, eta, us, c, key, i);
    EstimateStep(size, beta, us, c, key, i);
    TelescopeArithmetic(1.0 - beta, eta, total, Plain(size, us, key)[i] - Output(size, eta, us, Some(c), key)[i],
      AverageControl(size, us)[key][i] - c[key][i], first, c[key][i],
          NextGlobal(size, beta, Some(c), us).value[key][i]);
  }

  /**
   * Telescoping: over any run of full rounds, (1 - beta) times the total correction from
   * the second round on is eta times the change of the global control variate since the
   * first, in every coordinate of every key.
   */
  lemma {:induction false} Telescoping(size: Sizes, eta: real, beta: real, rounds: seq<seq<ControlledUpdate>>,
      key: string, i: nat)
    requires rounds != [] && FullRun(size, rounds, key) && i < size(key)
    ensures var first, last := GlobalAfter(size, beta, rounds[..1]), GlobalAfter(size, beta, rounds);
            && first.Some? && last.Some? && key in first.value && key in last.value
            && (1.0 - beta) * TotalDrift(size, eta, beta, rounds, key, i)
               == eta * (last.value[key][i] - first.value[key][i])
  {
    hide Plain, Output, NextGlobal, FullRound, AllFit;
    EstimateKnowsKey(size, beta, rounds[..1], key);
    EstimateKnowsKey(size, beta, rounds, key);
    var n := |rounds| - 1;
    if n == 0 {
      assert rounds[..1] == rounds;
    } else {
      Telescoping(size, eta, beta, rounds[..n], key, i);
      assert rounds[..n][..1] == rounds[..1];
      TelescopeStep(size, eta, beta, rounds[n], GlobalAfter(size, beta, rounds[..n]).value, key, i,
                    TotalDrift(size, eta, beta, rounds[..n], key, i),
                        GlobalAfter(size, beta, rounds[..1]).value[key][i]);
    }
  }

  function ControlledIds(us: seq<ControlledUpdate>): (ids: seq<string>)
    ensures |ids| == |us| && forall j :: 0 <= j < |us| ==> ids[j] == us[j].peerId
  {
    seq(|us|, j requires 0 <= j < |us| => us[j].peerId)
  }

  // ---- The strategy object ------------------------------------------------------

  lemma AddScaledZero(v: Vec, q: real)
    ensures Add(v, Scale(q, Zero(|v|))) == v
  {
    assert forall i :: 0 <= i < |v| ==> Scale(q, Zero(|v|))[i] == 0.0;
  }

  /** The running average of one key's control variates over the peers seen so far. */
  function KeyAverage(size: Sizes, us: seq<ControlledUpdate>, qs: seq<real>, key: string): (v: Vec)
    requires AllFit(size, us) && |us| == |qs|
    ensures |v| == size(key)
  {
    Combine(size(key), KeyControls(size, us, key), qs)
  }

  /** The dictionary accumulated over the peers seen so far. */
  ghost predicate PartialAverage(size: Sizes, us: seq<ControlledUpdate>, qs: seq<real>, p: Params)
    requires AllFit(size, us) && |us| == |qs|
  {
    p.Keys == ControlKeys(us) && forall key :: key in p ==> p[key] == KeyAverage(size, us, qs, key)
  }

  lemma {:induction false} UnsentKeyIsZero(size: Sizes, us: seq<ControlledUpdate>, qs: seq<real>, key: string)
    requires AllFit(size, us) && |us| == |qs| && key !in ControlKeys(us)
    ensures KeyAverage(size, us, qs, key) == Zero(size(key))
  {
    if us != [] {
      var n := |us| - 1;
      UnsentKeyIsZero(size, us[..n], qs[..n], key);
      assert KeyControls(size, us, key)[..n] == KeyControls(size, us[..n], key);
      AddScaledZero(Zero(size(key)), qs[n]);
    }
  }

  lemma KeyAverageSnoc(size: Sizes, us: seq<ControlledUpdate>, qs: seq<real>, key: string)
    requires us != [] && AllFit(size, us) && |us| == |qs|
    ensures KeyAverage(size, us, qs, key)
         == Add(KeyAverage(size, us[..|us| - 1], qs[..|us| - 1], key),
                Scale(qs[|us| - 1], KeyOr(size, us[|us| - 1].control, key)))
  {
    assert KeyControls(size, us, key)[..|us| - 1] == KeyControls(size, us[..|us| - 1], key);
  }

  /** The accumulator for a key, before the last peer is added. */
  lemma KeyAverageStep(size: Sizes, us: seq<ControlledUpdate>, qs: seq<real>, key: string, before: Vec, partial: Params)
    requires us != [] && AllFit(size, us) && |us| == |qs| && PartialAverage(size, us[..|us| - 1], qs[..|us| - 1],
        partial)
    requires before == if key in partial then partial[key] else Zero(size(key))
    ensures KeyAverage(size, us, qs, key) == Add(before, Scale(qs[|us| - 1], KeyOr(size, us[|us| - 1].control, key)))
  {
    if key !in partial { UnsentKeyIsZero(size, us[..|us| - 1], qs[..|us| - 1], key); }
    KeyAverageSnoc(size, us, qs, key);
  }

  /** A peer without a control variate leaves the running averages alone. */
  lemma UntouchedKey(size: Sizes, us: seq<ControlledUpdate>, qs: seq<real>, key: string)
    requires us != [] && AllFit(size, us) && |us| == |qs|
    requires us[|us| - 1].control.Some? ==> key !in us[|us| - 1].control.value
    ensures KeyAverage(size, us, qs, key) == KeyAverage(size, us[..|us| - 1], qs[..|us| - 1], key)
  {
    KeyAverageSnoc(size, us, qs, key);
    AddScaledZero(KeyAverage(size, us[..|us| - 1], qs[..|us| - 1], key), qs[|us| - 1]);
  }

  class Strategy {
    const size: Sizes
    const learningRate: real
    const controlMomentum: real
    var cGlobal: Option<Params>
    var round: nat

    ghost predicate Valid()
      reads this
    {
      GlobalFits(size, cGlobal)
    }

    constructor (size: Sizes, learningRate: real, controlMomentum: real)
      requires learningRate > 0.0
      ensures Valid() && cGlobal == None && round == 0
      ensures this.size == size && this.learningRate == learningRate && this.controlMomentum == controlMomentum
    {
      this.size, this.learningRate, this.controlMomentum := size, learningRate, controlMomentum;
      cGlobal, round := None, 0;
    }

    /** Accumulates one peer's control variate into the running averages. */
    method AddControl(ghost us: seq<ControlledUpdate>, ghost qs: seq<real>, cv: Params, q: real, partial: Params)
        returns (result: Params)
      requires us != [] && AllFit(size, us) && |qs| == |us|
      requires us[|us| - 1].control == Some(cv) && qs[|us| - 1] == q
      requires PartialAverage(size, us[..|us| - 1], qs[..|us| - 1], partial)
      ensures PartialAverage(size, us, qs, result)
    {
      hide KeyAverage, Add, Scale;
      result := partial;
      var todo := cv.Keys;
      while todo != {}
        invariant todo <= cv.Keys && result.Keys == partial.Keys + (cv.Keys - todo)
        invariant forall key :: key in partial && (key !in cv || key in todo) ==> result[key] == partial[key]
        invariant forall key :: key in cv && key !in todo ==> result[key] == KeyAverage(size, us, qs, key)
      {
        var key :| key in todo;
        var before := if key in result then result[key] else Zero(size(key));
        KeyAverageStep(size, us, qs, key, before, partial);
        result := result[key := Add(before, Scale(q, cv[key]))];
        todo := todo - {key};
      }
      forall key | key in partial && key !in cv
        ensures result[key] == KeyAverage(size, us, qs, key)
      {
        UntouchedKey(size, us, qs, key);
      }
    }

    method AverageControls(us: seq<ControlledUpdate>) returns (avg: Params)
      requires AllFit(size, us) && Senders(us) > 0
      ensures avg == AverageControl(size, us)
    {
      hide Sum, Senders, Combine, KeyOr, ControlTotal;
      ghost var qs := ControlShares(us);
      var total := ControlTotal(us);
      var senders := Senders(us);
      avg := map[];
      for j := 0 to |us|
        invariant PartialAverage(size, us[..j], qs[..j], avg)
      {
        ghost var now, nowQs := us[..j + 1], qs[..j + 1];
        assert now[..j] == us[..j] && nowQs[..j] == qs[..j];
        if us[j].control.Some? {
          var share := if total > 0.0 then us[j].samples as real / total else 1.0 / senders as real;
          avg := AddControl(now, nowQs, us[j].control.value, share, avg);
        } else {
          forall key | key in avg
            ensures avg[key] == KeyAverage(size, now, nowQs, key)
          {
            UntouchedKey(size, now, nowQs, key);
          }
        }
      }
      assert us[..|us|] == us && qs[..|us|] == qs;
    }

    /** The corrected average of one key over all peers. */
    method AggregateKey(us: seq<ControlledUpdate>, c: Option<Params>, key: string) returns (acc: Vec)
      requires us != [] && AllFit(size, us) && GlobalFits(size, c)
      requires forall j :: 0 <= j < |us| ==> key in us[j].weights
      ensures acc == Output(size, learningRate, us, c, key)
    {
      hide Sum, Sub, Scale, Add, Combine;
      var total := Divisor(SampleCounts(us));
      ghost var vs := KeyCorrected(size, learningRate, us, c, key);
      ghost var qs := Normalized(SampleCounts(us), total);
      acc := Zero(size(key));
      CombineNothing(size(key));
      for j := 0 to |us|
        invariant acc == Combine(size(key), vs[..j], qs[..j])
      {
        var w := us[j].samples as real / total;
        var peerWeights := us[j].weights[key];
        if us[j].control.Some? && key in us[j].control.value && c.Some? && key in c.value {
          peerWeights := Sub(peerWeights, Scale(learningRate, Sub(us[j].control.value[key], c.value[key])));
        }
        CombineNext(size(key), vs, qs, j);
        acc := Add(acc, Scale(w, peerWeights));
      }
      assert vs[..|us|] == vs && qs[..|us|] == qs;
    }

    method AggregateDict(us: seq<ControlledUpdate>, c: Option<Params>) returns (result: Params)
      requires us != [] && AllFit(size, us) && SameKeys(us) && GlobalFits(size, c)
      ensures result.Keys == us[0].weights.Keys
      ensures forall key :: key in result ==> result[key] == Output(size, learningRate, us, c, key)
    {
      hide Output;
      result := map[];
      var todo := us[0].weights.Keys;
      while todo != {}
        invariant todo <= us[0].weights.Keys && result.Keys == us[0].weights.Keys - todo
        invariant forall key :: key in result ==> result[key] == Output(size, learningRate, us, c, key)
      {
        var key :| key in todo;
        assert forall j :: 0 <= j < |us| ==> key in us[j].weights.Keys;
        var average := AggregateKey(us, c, key);
        result := result[key := average];
        todo := todo - {key};
      }
    }

    /** Replaces the estimate, or moves every key of the average towards it. */
    method UpdateGlobalControl(avg: Params)
      requires Valid() && Fits(size, avg)
      modifies this`cGlobal
      ensures Valid() && cGlobal == Some(UpdatedGlobal(size, controlMomentum, old(cGlobal), avg))
    {
      if cGlobal.None? || controlMomentum == 0.0 {
        cGlobal := Some(avg);
      } else {
        hide Blend;
        ghost var before := cGlobal.value;
        ghost var after := UpdatedGlobal(size, controlMomentum, cGlobal, avg);
        var current := cGlobal.value;
        var todo := avg.Keys;
        while todo != {}
          invariant todo <= avg.Keys && current.Keys == before.Keys + (avg.Keys - todo)
          invariant forall key :: key in todo && key in before ==> current[key] == before[key]
          invariant forall key :: key in current && key !in todo ==> current[key] == after[key]
        {
          var key :| key in todo;
          if key in current {
            current := current[key := Blend(controlMomentum, current[key], avg[key])];
          } else {
            current := current[key := avg[key]];
          }
          todo := todo - {key};
        }
        assert current == after;
        cGlobal := Some(current);
      }
    }

    /** One aggregation round; a refused list changes nothing. */
    method Aggregate(us: seq<ControlledUpdate>) returns (r: Result<ControlledModel, AggregationError>)
      requires Valid() && AllFit(size, us)
      modifies this
      ensures Valid()
      ensures r.Ok? <==> us != [] && Distinct(ControlledIds(us)) && SameKeys(us)
      ensures r.Ok? ==> r.value.weights.Keys == us[0].weights.Keys
      ensures r.Ok? ==> forall key :: key in r.value.weights ==>
                                        r.value.weights[key] == Output(size, learningRate, us, old(cGlobal), key)
      ensures r.Ok? ==> r.value.contributingPeers == ControlledIds(us) && r.value.totalSamples == SamplesSeen(us)
      ensures r.Ok? ==> cGlobal == NextGlobal(size, controlMomentum, old(cGlobal), us) && round == old(round) + 1
      ensures r.Err? ==> cGlobal == old(cGlobal) && round == old(round)
    {
      hide Output, UpdatedGlobal, AverageControl, Sum;
      var shapes := seq(|us|, j requires 0 <= j < |us| => us[j].weights.Keys);
      var error := Validate(ControlledIds(us), shapes);
      assert forall j :: 0 <= j < |us| ==> shapes[j] == us[j].weights.Keys;
      if error.Some? { return Err(error.value); }
      round := round + 1;
      var aggregated := AggregateDict(us, cGlobal);
      if Senders(us) > 0 {
        var avg := AverageControls(us);
        UpdateGlobalControl(avg);
      } else if cGlobal.Some? {
        UpdateGlobalControl(cGlobal.value);
      }
      var total := 0;
      for j := 0 to |us|
        invariant total == SamplesSeen(us[..j])
      {
        assert us[..j + 1][..j] == us[..j];
        total := total + us[j].samples;
      }
      assert us[..|us|] == us;
      return Ok(ControlledModel(aggregated, ControlledIds(us), total));
    }
  }
}
