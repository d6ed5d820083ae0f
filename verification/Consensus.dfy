/**
 * The consensus tracker: checkpoints per round, frozen at the first one of each peer, clamped
 * round numbers, pruning of old rounds, and the agreement verdict on one round.
 */
module Consensus {
  import opened Wrappers
  import opened Numerics

  datatype PeerCheckpoint = PeerCheckpoint(peerId: string, round: int, loss: real, accuracy: real, modelVersion: string)

  datatype Config = Config(
    checkpointInterval: int,
    consensusThreshold: real,
    lossTolerance: real,
    minPeersForConsensus: int,
    maxRoundAhead: int)

  /** The peers of one round in the order they were recorded. */
  type Ballot = seq<PeerCheckpoint>

  datatype Tracker = Tracker(checkpoints: map<int, Ballot>, lastLocal: int, lastSeen: int)

  const FRESH: Tracker := Tracker(map[], 0, 0)

  datatype ConsensusResult = ConsensusResult(
    reached: bool,
    totalPeers: nat,
    agreeingPeers: nat,
    agreementRatio: real,
    meanLoss: real,
    meanAccuracy: real,
    checkpointRound: int)

  // ---- Largest and sorted rounds ----------------------------------------------------------

  lemma NoneIsEmpty(keys: set<int>)
    ensures (forall k :: k !in keys) ==> keys == {}
  {
    if forall k :: k !in keys { assert keys == {}; }
  }

  lemma Pick(keys: set<int>) returns (x: int)
    requires keys != {}
    ensures x in keys
  {
    NoneIsEmpty(keys);
    x :| x in keys;
  }

  lemma {:induction false} MaxExists(keys: set<int>)
    requires keys != {}
    ensures exists m :: m in keys && forall k :: k in keys ==> k <= m
  {
    var x := Pick(keys);
    if y :| y in keys && y > x {
      var rest := keys - {x};
      assert y in rest;
      MaxExists(rest);
      var m :| m in rest && forall k :: k in rest ==> k <= m;
      assert forall k :: k in keys ==> k == x || k in rest;
      assert m in keys && forall k :: k in keys ==> k <= m;
    } else {
      assert x in keys && forall k :: k in keys ==> k <= x;
    }
  }

  function Max(keys: set<int>): (m: int)
    requires keys != {}
    ensures m in keys && forall k :: k in keys ==> k <= m
  {
    MaxExists(keys);
    var m :| m in keys && forall k :: k in keys ==> k <= m;
    m
  }

  /** sorted(keys, reverse=True) */
  function SortedDown(keys: set<int>): (s: seq<int>)
    ensures ListsDown(keys, s)
  {
    hide ListsDown;
    EmptyListsDown();
    if keys == {} then []
    else
      var m := Max(keys);
      var rest := SortedDown(keys - {m});
      LargestFirst(keys, m, rest);
      [m] + rest
  }

  /** s holds exactly the keys, the largest first. */
  ghost predicate ListsDown(keys: set<int>, s: seq<int>) {
    && |s| == |keys| && (forall k :: k in keys <==> k in s)
    && forall i, j :: 0 <= i < j < |s| ==> s[i] > s[j]
  }

  lemma EmptyListsDown()
    ensures ListsDown({}, [])
  {
  }

  lemma LargestFirst(keys: set<int>, m: int, rest: seq<int>)
    requires m in keys && (forall k :: k in keys ==> k <= m) && ListsDown(keys - {m}, rest)
    ensures ListsDown(keys, [m] + rest)
  {
    var s := [m] + rest;
    forall j | 1 <= j < |s|
      ensures s[j] < m
    {
      assert s[j] in rest;
    }
    forall k
      ensures k in keys <==> k in s
    {
      assert k in s <==> k == m || k in rest;
    }
  }

  /** The keys larger than r. */
  ghost function Above(keys: set<int>, r: int): set<int> { set k | k in keys && k > r }

  /** A key stands in the sorted list behind exactly the larger keys. */
  lemma {:induction false} Rank(keys: set<int>, r: int) returns (i: nat)
    requires r in keys
    ensures i < |keys| && SortedDown(keys)[i] == r && |Above(keys, r)| == i
    decreases |keys|
  {
    var m := Max(keys);
    assert SortedDown(keys) == [m] + SortedDown(keys - {m});
    AboveMax(keys, m, r);
    hide *;
    if r == m {
      i := 0;
    } else {
      i := Rank(keys - {m}, r);
      i := i + 1;
    }
  }

  lemma AboveMax(keys: set<int>, m: int, r: int)
    requires m in keys && r in keys && forall k :: k in keys ==> k <= m
    ensures r == m ==> |Above(keys, r)| == 0
    ensures r < m ==> |Above(keys, r)| == |Above(keys - {m}, r)| + 1
  {
    if r == m {
      assert Above(keys, r) == {};
    } else {
      assert Above(keys, r) == Above(keys - {m}, r) + {m};
    }
  }

  // ---- Operations -----------------------------------------------------------------------------

  predicate Has(ballot: Ballot, peer: string) { exists k :: 0 <= k < |ballot| && ballot[k].peerId == peer }

  function BallotOf(t: Tracker, round: int): Ballot { if round in t.checkpoints then t.checkpoints[round] else [] }

  function Clamped(c: Config, t: Tracker, cp: PeerCheckpoint): PeerCheckpoint {
    if cp.round > t.lastSeen + c.maxRoundAhead then cp.(round := t.lastSeen + c.maxRoundAhead) else cp
  }

  function Record(c: Config, t: Tracker, cp: PeerCheckpoint): Tracker {
    var x := Clamped(c, t, cp);
    var ballot := BallotOf(t, x.round);
    if Has(ballot, x.peerId) then t
    else t.(checkpoints := t.checkpoints[x.round := ballot + [x]],
            lastSeen := if x.round > t.lastSeen then x.round else t.lastSeen)
  }

  /**
   * A record from a peer that has none in the clamped round is stored there with its loss, accuracy
   * and version, behind the others; a repeated one changes nothing; no other round is touched.
   */
  lemma RecordStores(c: Config, t: Tracker, cp: PeerCheckpoint, r: int)
    ensures var round := if cp.round > t.lastSeen + c.maxRoundAhead then t.lastSeen + c.maxRoundAhead else cp.round;
            var t' := Record(c, t, cp);
            && (Has(BallotOf(t, round), cp.peerId) ==> t' == t)
            && (!Has(BallotOf(t, round), cp.peerId) ==>
                && BallotOf(t', round)
                   == BallotOf(t, round) + [PeerCheckpoint(cp.peerId, round, cp.loss, cp.accuracy, cp.modelVersion)]
                && t'.lastSeen == if round > t.lastSeen then round else t.lastSeen)
            && (r != round ==> BallotOf(t', r) == BallotOf(t, r) && (r in t'.checkpoints <==> r in t.checkpoints))
  {
  }

  /** Where s[keep:] starts in a sequence of length n; a negative keep counts from the end. */
  function SliceStart(n: nat, keep: int): (start: nat)
    ensures start <= n
    ensures start >= 1 <==> n >= 1 && (keep >= 1 || (keep < 0 && n + keep >= 1))
  {
    if keep >= 0 then (if keep < n then keep else n) else if n + keep > 0 then n + keep else 0
  }

  function Keep(checkpoints: map<int, Ballot>, rounds: seq<int>): map<int, Ballot> {
    map r | r in checkpoints && r in rounds :: checkpoints[r]
  }

  function Prune(t: Tracker, keepRounds: int): Tracker {
    var sorted := SortedDown(t.checkpoints.Keys);
    var kept := sorted[..SliceStart(|sorted|, keepRounds)];
    t.(checkpoints := Keep(t.checkpoints, kept))
  }

  function RecordLocal(t: Tracker, round: int): Tracker {
    t.(lastLocal := if round > t.lastLocal then round else t.lastLocal)
  }

  // ---- The verdict --------------------------------------------------------------------------------

  function Losses(ballot: Ballot): (s: seq<real>)
    ensures |s| == |ballot| && forall i :: 0 <= i < |s| ==> s[i] == ballot[i].loss
  {
    seq(|ballot|, i requires 0 <= i < |ballot| => ballot[i].loss)
  }

  function Accuracies(ballot: Ballot): (s: seq<real>)
    ensures |s| == |ballot| && forall i :: 0 <= i < |s| ==> s[i] == ballot[i].accuracy
  {
    seq(|ballot|, i requires 0 <= i < |ballot| => ballot[i].accuracy)
  }

  /** The tolerance is never below 1e-6. */
  function Tolerance(c: Config): (tol: real)
    ensures tol >= c.lossTolerance && tol > 0.0
  {
    if c.lossTolerance > 0.000001 then c.lossTolerance else 0.000001
  }

  predicate Near(x: real, mean: real, tol: real) { -tol <= x - mean <= tol }

  function CountNear(s: seq<real>, mean: real, tol: real): (n: nat)
    ensures n <= |s|
  {
    if s == [] then 0
    else CountNear(s[..|s| - 1], mean, tol) + if Near(s[|s| - 1], mean, tol) then 1 else 0
  }

  function Verdict(c: Config, ballot: Ballot, round: int): ConsensusResult
    requires ballot != []
  {
    var mean := Mean(Losses(ballot));
    var agreeing := CountNear(Losses(ballot), mean, Tolerance(c));
    var ratio := agreeing as real / |ballot| as real;
    ConsensusResult(
      ratio >= c.consensusThreshold && |ballot| >= c.minPeersForConsensus,
      |ballot|, agreeing, ratio, mean, Mean(Accuracies(ballot)), round)
  }

  function Check(c: Config, t: Tracker, round: Option<int>): Option<ConsensusResult> {
    if t.checkpoints == map[] then None
    else
      var r := if round.Some? then round.value else Max(t.checkpoints.Keys);
      var ballot := BallotOf(t, r);
      if ballot == [] then None else Some(Verdict(c, ballot, r))
  }

  // ---- Agreement -------------------------------------------------------------------------------------

  lemma {:induction false} CountNearIsAll(s: seq<real>, mean: real, tol: real)
    ensures CountNear(s, mean, tol) == |s| <==> forall i :: 0 <= i < |s| ==> Near(s[i], mean, tol)
  {
    if s != [] {
      var n := |s| - 1;
      CountNearIsAll(s[..n], mean, tol);
      assert forall i :: 0 <= i < n ==> s[..n][i] == s[i];
    }
  }

  /**
   * Losses inside an interval no wider than the tolerance: every peer agrees, so consensus is
   * reached exactly when there are enough peers and the threshold is at most one.
   */
  lemma CloseLossesAgree(c: Config, ballot: Ballot, round: int, lo: real)
    requires ballot != [] && forall i :: 0 <= i < |ballot| ==> lo <= ballot[i].loss <= lo + Tolerance(c)
    ensures var v := Verdict(c, ballot, round);
            && v.agreeingPeers == v.totalPeers == |ballot| && v.agreementRatio == 1.0
            && (v.reached <==> c.consensusThreshold <= 1.0 && |ballot| >= c.minPeersForConsensus)
  {
    hide Mean, CountNear, Tolerance;
    var s := Losses(ballot);
    MeanBounds(s, lo, lo + Tolerance(c));
    CountNearIsAll(s, Mean(s), Tolerance(c));
    DivideSelf(|ballot| as real);
  }

  /** Conversely, if every peer agrees then no two losses differ by more than twice the tolerance. */
  lemma AgreementMeansClose(c: Config, ballot: Ballot, round: int, i: nat, j: nat)
    requires i < |ballot| && j < |ballot| && Verdict(c, ballot, round).agreeingPeers == |ballot|
    ensures ballot[i].loss - ballot[j].loss <= 2.0 * Tolerance(c)
  {
    hide Mean, CountNear, Tolerance;
    var s := Losses(ballot);
    CountNearIsAll(s, Mean(s), Tolerance(c));
    assert Near(s[i], Mean(s), Tolerance(c)) && Near(s[j], Mean(s), Tolerance(c));
  }

  // ---- What every step keeps -----------------------------------------------------------------------------

  ghost predicate GoodBallot(ballot: Ballot, round: int) {
    && ballot != []
    && (forall k :: 0 <= k < |ballot| ==> ballot[k].round == round)
    && forall j, k :: 0 <= j < k < |ballot| ==> ballot[j].peerId != ballot[k].peerId
  }

  /** Every round held is one already seen; its ballot is not empty and counts each peer once. */
  ghost predicate Good(t: Tracker) {
    forall r :: r in t.checkpoints ==> r <= t.lastSeen && GoodBallot(t.checkpoints[r], r)
  }

  datatype Event = RecordEvent(cp: PeerCheckpoint) | LocalEvent(round: int) | PruneEvent(keepRounds: int)

  function Step(c: Config, t: Tracker, e: Event): Tracker {
    match e
    case RecordEvent(cp) => Record(c, t, cp)
    case LocalEvent(round) => RecordLocal(t, round)
    case PruneEvent(keep) => Prune(t, keep)
  }

  /** How far one record may move the newest round. */
  function MaxRise(c: Config): nat { if c.maxRoundAhead > 0 then c.maxRoundAhead else 0 }

  /** A ballot either only grows at the end, or its whole round is pruned. */
  lemma StepIsGood(c: Config, t: Tracker, e: Event)
    requires Good(t)
    ensures var t' := Step(c, t, e);
            && Good(t')
            && t.lastSeen <= t'.lastSeen <= t.lastSeen + (if e.RecordEvent? then MaxRise(c) else 0)
            && t.lastLocal <= t'.lastLocal
            && forall r :: r in t.checkpoints ==>
                 || (r in t'.checkpoints && t.checkpoints[r] <= t'.checkpoints[r])
                 || (r !in t'.checkpoints && e.PruneEvent?)
  {
    hide SortedDown, Max;
    if e.RecordEvent? {
      var x := Clamped(c, t, e.cp);
      var ballot := BallotOf(t, x.round);
      if !Has(ballot, x.peerId) { assert GoodBallot(ballot + [x], x.round); }
    }
  }

  ghost function After(c: Config, t: Tracker, events: seq<Event>): (t': Tracker)
    requires Good(t)
    ensures Good(t')
  {
    if events == [] then t
    else
      var before := After(c, t, events[..|events| - 1]);
      StepIsGood(c, before, events[|events| - 1]);
      Step(c, before, events[|events| - 1])
  }

  function RecordsIn(events: seq<Event>): nat {
    if events == [] then 0
    else RecordsIn(events[..|events| - 1]) + if events[|events| - 1].RecordEvent? then 1 else 0
  }

  /**
   * Over any run the newest round seen never falls and rises by at most max_round_ahead per
   * record, whatever round numbers the peers claim.
   */
  lemma {:induction false} NewestRoundIsBounded(c: Config, t: Tracker, events: seq<Event>)
    requires Good(t)
    ensures t.lastSeen <= After(c, t, events).lastSeen <= t.lastSeen + RecordsIn(events) * MaxRise(c)
    ensures t.lastLocal <= After(c, t, events).lastLocal
  {
    hide Step, MaxRise;
    if events != [] {
      var n := |events| - 1;
      NewestRoundIsBounded(c, t, events[..n]);
      StepIsGood(c, After(c, t, events[..n]), events[n]);
      OneMore(RecordsIn(events[..n]), MaxRise(c));
    }
  }

  lemma OneMore(n: nat, x: nat)
    ensures (n + 1) * x == n * x + x
  {
  }

  /** Some step of the run pruned this round. */
  ghost predicate PrunedDuring(c: Config, t: Tracker, events: seq<Event>, round: int)
    requires Good(t)
  {
    exists k :: 0 <= k < |events| && events[k].PruneEvent? && round !in After(c, t, events[..k + 1]).checkpoints
  }

  /** Until its round is pruned, the value stored for a peer never changes, nor its place. */
  lemma {:induction false} StoredValuesAreFrozen(c: Config, t: Tracker, events: seq<Event>, round: int)
    requires Good(t) && round in t.checkpoints && !PrunedDuring(c, t, events, round)
    ensures var t' := After(c, t, events); round in t'.checkpoints && t.checkpoints[round] <= t'.checkpoints[round]
  {
    hide Step;
    if events != [] {
      var n := |events| - 1;
      var front := events[..n];
      forall k | 0 <= k < n && front[k].PruneEvent?
        ensures round in After(c, t, front[..k + 1]).checkpoints
      {
        assert front[..k + 1] == events[..k + 1] && events[k] == front[k];
      }
      StoredValuesAreFrozen(c, t, front, round);
      StepIsGood(c, After(c, t, front), events[n]);
      assert events[..n + 1] == events;
    }
  }

  // ---- Pruning ------------------------------------------------------------------------------------------------

  /** Pruning keeps the start newest rounds, with their ballots, and nothing else. */
  lemma PruneKeepsNewest(t: Tracker, keep: int, r: int)
    ensures var t' := Prune(t, keep);
            && (r in t'.checkpoints <==>
                && r in t.checkpoints
                && |Above(t.checkpoints.Keys, r)| < SliceStart(|t.checkpoints|, keep))
            && (r in t'.checkpoints ==> t'.checkpoints[r] == t.checkpoints[r])
  {
    hide SliceStart;
    var keys := t.checkpoints.Keys;
    var sorted := SortedDown(keys);
    if r in keys {
      var i := Rank(keys, r);
      var start := SliceStart(|sorted|, keep);
      assert r in sorted[..start] <==> i < start;
    }
  }

  /** The newest round survives pruning exactly when anything does. */
  lemma PruneKeepsMax(t: Tracker, keep: int)
    requires t.checkpoints != map[]
    ensures var t' := Prune(t, keep);
            if SliceStart(|t.checkpoints|, keep) >= 1
            then t'.checkpoints != map[] && Max(t'.checkpoints.Keys) == Max(t.checkpoints.Keys)
                 && BallotOf(t', Max(t'.checkpoints.Keys)) == BallotOf(t, Max(t.checkpoints.Keys))
            else t'.checkpoints == map[]
  {
    hide SliceStart, Prune;
    var m := Max(t.checkpoints.Keys);
    assert Above(t.checkpoints.Keys, m) == {};
    PruneKeepsNewest(t, keep, m);
    forall r
      ensures r in Prune(t, keep).checkpoints ==> r in t.checkpoints
      ensures SliceStart(|t.checkpoints|, keep) == 0 ==> r !in Prune(t, keep).checkpoints
    {
      PruneKeepsNewest(t, keep, r);
    }
    assert m in t.checkpoints;
  }

  /**
   * Pruning leaves the default verdict as it was if and only if there is nothing to prune or at
   * least one round is kept: keep_rounds at least 1, or negative and above minus the number of rounds.
   */
  lemma PruneKeepsVerdictIff(c: Config, t: Tracker, keep: int)
    requires Good(t)
    ensures Check(c, Prune(t, keep), None) == Check(c, t, None)
            <==> t.checkpoints == map[] || keep >= 1 || (keep < 0 && |t.checkpoints| + keep >= 1)
  {
    hide Verdict;
    if t.checkpoints == map[] {
      forall r ensures r !in Prune(t, keep).checkpoints { PruneKeepsNewest(t, keep, r); }
    } else {
      assert |t.checkpoints| >= 1;
      hide Prune, SliceStart;
      PruneKeepsMax(t, keep);
      assert Max(t.checkpoints.Keys) in t.checkpoints;
    }
  }

  lemma KeepAll(checkpoints: map<int, Ballot>, rounds: seq<int>, start: nat)
    requires start <= |rounds| && forall r :: r in checkpoints ==> r in rounds
    ensures Keep(checkpoints, rounds[..start] + rounds[start..]) == checkpoints
  {
    var all := rounds[..start] + rounds[start..];
    assert all == rounds;
    assert forall r :: r in checkpoints ==> r in all;
  }

  lemma KeepDrop(checkpoints: map<int, Ballot>, rounds: seq<int>, start: nat, i: nat)
    requires start <= i < |rounds| && forall j, k :: 0 <= j < k < |rounds| ==> rounds[j] > rounds[k]
    ensures Keep(checkpoints, rounds[..start] + rounds[i..]) - {rounds[i]}
        == Keep(checkpoints, rounds[..start] + rounds[i + 1..])
  {
    assert rounds[i..] == [rounds[i]] + rounds[i + 1..];
    assert rounds[i] !in rounds[..start] && rounds[i] !in rounds[i + 1..];
  }

  // ---- The object -------------------------------------------------------------------------------

  method MeanOf(s: seq<real>) returns (mean: real)
    requires s != []
    ensures mean == Mean(s)
  {
    var total := 0.0;
    for i := 0 to |s|
      invariant total == Sum(s[..i])
    {
      assert s[..i + 1][..i] == s[..i];
      total := total + s[i];
    }
    assert s[..|s|] == s;
    mean := total / |s| as real;
  }

  /** How many values differ from the mean by at most the tolerance, in absolute value. */
  method CountAgreeing(s: seq<real>, mean: real, tol: real) returns (agreeing: nat)
    ensures agreeing == CountNear(s, mean, tol)
  {
    agreeing := 0;
    for i := 0 to |s|
      invariant agreeing == CountNear(s[..i], mean, tol)
    {
      assert s[..i + 1][..i] == s[..i];
      var gap := s[i] - mean;
      if (if gap < 0.0 then -gap else gap) <= tol { agreeing := agreeing + 1; }
    }
    assert s[..|s|] == s;
  }

  class ConsensusTracker {
    const config: Config
    var checkpoints: map<int, Ballot>
    var lastLocalCheckpointRound: int
    var lastSeenCheckpointRound: int

    ghost function View(): Tracker
      reads this
    {
      Tracker(checkpoints, lastLocalCheckpointRound, lastSeenCheckpointRound)
    }

    constructor (config: Config)
      ensures this.config == config && View() == FRESH
    {
      this.config := config;
      checkpoints, lastLocalCheckpointRound, lastSeenCheckpointRound := map[], 0, 0;
    }

    method RecordCheckpoint(cp: PeerCheckpoint)
      modifies this
      ensures View() == Record(config, old(View()), cp)
    {
      var x := cp;
      var maxAllowed := lastSeenCheckpointRound + config.maxRoundAhead;
      if x.round > maxAllowed { x := x.(round := maxAllowed); }
      var ballot := if x.round in checkpoints then checkpoints[x.round] else [];
      for i := 0 to |ballot|
        invariant forall j :: 0 <= j < i ==> ballot[j].peerId != x.peerId
      {
        if ballot[i].peerId == x.peerId { return; }
      }
      checkpoints := checkpoints[x.round := ballot + [x]];
      if x.round > lastSeenCheckpointRound { lastSeenCheckpointRound := x.round; }
    }

    method PruneOldCheckpoints(keepRounds: int)
      modifies this`checkpoints
      ensures View() == Prune(old(View()), keepRounds)
    {
      hide Keep, SortedDown, SliceStart;
      var sorted := SortedDown(checkpoints.Keys);
      var start := SliceStart(|sorted|, keepRounds);
      KeepAll(checkpoints, sorted, start);
      for i := start to |sorted|
        invariant checkpoints == Keep(old(checkpoints), sorted[..start] + sorted[i..])
      {
        KeepDrop(old(checkpoints), sorted, start, i);
        checkpoints := checkpoints - {sorted[i]};
      }
      assert sorted[..start] + sorted[|sorted|..] == sorted[..start];
    }

    method CheckConsensus(round: Option<int>) returns (r: Option<ConsensusResult>)
      ensures r == Check(config, View(), round)
      ensures r.Some? ==> (r.value.agreeingPeers == r.value.totalPeers <==>
                           var losses := Losses(BallotOf(View(), r.value.checkpointRound));
                           forall i :: 0 <= i < |losses| ==> Near(losses[i], r.value.meanLoss, Tolerance(config)))
    {
      hide CountNear, Tolerance, Mean, Max;
      if checkpoints == map[] { return None; }
      var target := if round.Some? then round.value else Max(checkpoints.Keys);
      var peers := if target in checkpoints then checkpoints[target] else [];
      var n := |peers|;
      if n == 0 { return None; }
      var meanLoss := MeanOf(Losses(peers));
      var meanAccuracy := MeanOf(Accuracies(peers));
      var agreeing := CountAgreeing(Losses(peers), meanLoss, Tolerance(config));
      var ratio := agreeing as real / n as real;
      var reached := ratio >= config.consensusThreshold && n >= config.minPeersForConsensus;
      CountNearIsAll(Losses(peers), meanLoss, Tolerance(config));
      r := Some(ConsensusResult(reached, n, agreeing, ratio, meanLoss, meanAccuracy, target));
    }

    method RecordLocalCheckpoint(round: int)
      modifies this`lastLocalCheckpointRound
      ensures View() == RecordLocal(old(View()), round)
    {
      if round > lastLocalCheckpointRound { lastLocalCheckpointRound := round; }
    }
  }
}
