/**
 * The queue of received model updates: admission, draining into a batch for aggregation,
 * restoring the batch when the strategy fails, and the final clearing at shutdown. The
 * handlers and the gossip loop interleave at every await.
 */
module PendingQueue {
  import opened Wrappers
  import opened Numerics
  import opened Aggregation

  datatype Config = Config(self: string, maxPending: nat, minPeers: nat, staleRoundTolerance: nat)

  /**
   * Updates are named by their position in log, the sequence of all updates ever admitted.
   * inFlight holds messages whose handler has passed the running check but not yet reached
   * the queue. batch is the drained list while an aggregation is under way. aggregated,
   * dropped and lost are history, as are failures (since the last success) and everFailed.
   */
  datatype Queue = Queue(
    running: bool,
    currentRound: int,
    inFlight: seq<ModelUpdate>,
    log: seq<ModelUpdate>,
    pending: seq<nat>,
    batch: Option<seq<nat>>,
    aggregated: seq<nat>,
    dropped: seq<nat>,
    lost: seq<nat>,
    failures: nat,
    everFailed: bool)

  function Fresh(round: int): Queue { Queue(true, round, [], [], [], None, [], [], [], 0, false) }

  function Updates(log: seq<ModelUpdate>, s: seq<nat>): (us: seq<ModelUpdate>)
    requires Bounded(s, |log|)
    ensures |us| == |s| && forall k :: 0 <= k < |s| ==> us[k] == log[s[k]]
  {
    seq(|s|, k requires 0 <= k < |s| => log[s[k]])
  }

  function BatchOf(q: Queue): seq<nat> { if q.batch.Some? then q.batch.value else [] }

  // ---- Events -------------------------------------------------------------------------

  datatype Event =
    | Arrive(update: ModelUpdate)     // the handler passes the running check
    | Admit(k: nat)                   // the handler reaches the queue
    | Drain                           // _aggregate_models takes the batch
    | Succeed(own: ModelUpdate)       // the strategy returned and the weights were applied
    | Fail                            // the strategy raised
    | Crash                           // something else raised between draining and the end
    | NextRound
    | Start                           // run_continuous is called, for the first time or again
    | LoadRound(round: int)           // a saved state is loaded
    | Stop
    | Clear                           // the final clearing in run_continuous

  predicate Stale(c: Config, q: Queue, u: ModelUpdate) {
    var diff := u.round - q.currentRound;
    (if diff < 0 then -diff else diff) > c.staleRoundTolerance
  }

  predicate FromKnownPeer(log: seq<ModelUpdate>, pending: seq<nat>, peer: string) {
    exists k :: 0 <= k < |pending| && pending[k] < |log| && log[pending[k]].peerId == peer
  }

  /** The gates of _handle_model_update, in order: round, duplicate peer, capacity. */
  predicate Admitted(c: Config, q: Queue, u: ModelUpdate) {
    !Stale(c, q, u) && !FromKnownPeer(q.log, q.pending, u.peerId) && |q.pending| < c.maxPending
  }

  /**
   * What can happen. Messages come from other peers with a non-empty id. A strategy succeeds
   * only on a list that its validation accepts, own update first.
   */
  ghost predicate Enabled(c: Config, q: Queue, e: Event) {
    match e
    case Arrive(u) => q.running && u.peerId != "" && u.peerId != c.self
    case Admit(k) => k < |q.inFlight|
    case Drain => q.batch.None? && q.pending != [] && |q.pending| >= c.minPeers
    case Succeed(own) => q.batch.Some? && Bounded(q.batch.value, |q.log|) && own.peerId == c.self
                         && Admissible([own] + Updates(q.log, q.batch.value))
    case Fail => q.batch.Some?
    case Crash => q.batch.Some?
    case NextRound => true
    case Start => true
    case LoadRound(_) => true
    case Stop => true
    case Clear => true
  }

  function Apply(c: Config, q: Queue, e: Event): Queue {
    match e
    case Arrive(u) => q.(inFlight := q.inFlight + [u])
    case Admit(k) =>
      if k >= |q.inFlight| then q
      else
        var u := q.inFlight[k];
        var rest := q.(inFlight := q.inFlight[..k] + q.inFlight[k + 1..]);
        if Admitted(c, q, u) then rest.(log := q.log + [u], pending := q.pending + [|q.log|]) else rest
    case Drain => q.(batch := Some(q.pending), pending := [])
    case Succeed(_) => q.(aggregated := q.aggregated + BatchOf(q), batch := None, failures := 0)
    case Fail => q.(pending := BatchOf(q) + q.pending, batch := None, failures := q.failures + 1, everFailed := true)
    case Crash => q.(lost := q.lost + BatchOf(q), batch := None)
    case NextRound => q.(currentRound := q.currentRound + 1)
    case Start => q.(running := true)
    case LoadRound(round) => q.(currentRound := round)
    case Stop => q.(running := false)
    case Clear => q.(dropped := q.dropped + q.pending, pending := [])
  }

  /**
   * An update that reaches the queue is appended exactly when its round is within the tolerance, no
   * queued update is from its peer, and fewer than the maximum wait; otherwise it leaves no trace.
   */
  lemma AdmittedExactly(c: Config, q: Queue, k: nat)
    requires k < |q.inFlight| && Bounded(q.pending, |q.log|)
    ensures var u, q' := q.inFlight[k], Apply(c, q, Admit(k));
            var oldest, newest := q.currentRound - c.staleRoundTolerance, q.currentRound + c.staleRoundTolerance;
            var admitted := && oldest <= u.round <= newest
                            && (forall j :: 0 <= j < |q.pending| ==> q.log[q.pending[j]].peerId != u.peerId)
                            && |q.pending| < c.maxPending;
            && (admitted ==> q'.log == q.log + [u] && q'.pending == q.pending + [|q.log|])
            && (!admitted ==> q'.log == q.log && q'.pending == q.pending)
            && q'.inFlight == q.inFlight[..k] + q.inFlight[k + 1..]
  {
  }

  // ---- Conservation --------------------------------------------------------------------

  /** The updates that were or still may be aggregated, oldest first. */
  function Line(q: Queue): seq<nat> { q.aggregated + BatchOf(q) + q.pending }

  function Numbers(n: nat): (s: seq<nat>)
    ensures |s| == n && forall k :: 0 <= k < n ==> s[k] == k
  {
    seq(n, k => k)
  }

  /** Every number below n occurs once, in line, dropped or lost, and the line ascends. */
  ghost predicate Accounted(line: seq<nat>, dropped: seq<nat>, lost: seq<nat>, n: nat) {
    multiset(line) + multiset(dropped) + multiset(lost) == multiset(Numbers(n)) && Increasing(line)
  }

  /** Every admitted update is in exactly one place, and the line keeps arrival order. */
  ghost predicate Conserved(q: Queue) { Accounted(Line(q), q.dropped, q.lost, |q.log|) }

  lemma {:induction false} NumbersAreAll(n: nat, x: nat)
    ensures multiset(Numbers(n))[x] == if x < n then 1 else 0
  {
    if n > 0 {
      NumbersAreAll(n - 1, x);
      assert Numbers(n) == Numbers(n - 1) + [n - 1];
    }
  }

  /** Conservation in words: position x occurs once among the places if it was admitted, else never. */
  lemma ExactlyOnePlace(q: Queue, x: nat)
    requires Conserved(q)
    ensures multiset(q.aggregated)[x] + multiset(BatchOf(q))[x] + multiset(q.pending)[x] + multiset(q.dropped)[x]
        + multiset(q.lost)[x]
         == if x < |q.log| then 1 else 0
  {
    NumbersAreAll(|q.log|, x);
    assert multiset(q.aggregated + BatchOf(q)) == multiset(q.aggregated) + multiset(BatchOf(q));
    assert multiset(Line(q)) == multiset(q.aggregated + BatchOf(q)) + multiset(q.pending);
    assert (multiset(Line(q)) + multiset(q.dropped) + multiset(q.lost))[x] == multiset(Numbers(|q.log|))[x];
  }

  /** The newest number joins the end of the line. */
  lemma LineGrows(line: seq<nat>, dropped: seq<nat>, lost: seq<nat>, n: nat)
    requires Accounted(line, dropped, lost, n)
    ensures Accounted(line + [n], dropped, lost, n + 1)
  {
    forall k | 0 <= k < |line|
      ensures line[k] < n
    {
      NumbersAreAll(n, line[k]);
      assert line[k] in multiset(line);
    }
    assert Numbers(n + 1) == Numbers(n) + [n];
  }

  /** A stretch of the line is dropped or lost. */
  lemma LineShrinks(a: seq<nat>, b: seq<nat>, c: seq<nat>, dropped: seq<nat>, lost: seq<nat>, n: nat)
    requires Accounted(a + b + c, dropped, lost, n)
    ensures Accounted(a + c, dropped, lost + b, n) && Accounted(a + c, dropped + b, lost, n)
  {
    var s := a + b + c;
    forall i, j | 0 <= i < j < |a + c|
      ensures (a + c)[i] < (a + c)[j]
    {
      var i', j' := if i < |a| then i else i + |b|, if j < |a| then j else j + |b|;
      assert s[i'] < s[j'];
    }
  }

  lemma AdmitConserves(c: Config, q: Queue, k: nat)
    requires Conserved(q) && k < |q.inFlight|
    ensures Conserved(Apply(c, q, Admit(k)))
  {
    hide Accounted, Admitted;
    if Admitted(c, q, q.inFlight[k]) {
      LineGrows(Line(q), q.dropped, q.lost, |q.log|);
      assert Line(Apply(c, q, Admit(k))) == Line(q) + [|q.log|];
    }
  }

  lemma ClearConserves(c: Config, q: Queue)
    requires Conserved(q)
    ensures Conserved(Apply(c, q, Clear))
  {
    hide Accounted;
    var kept := q.aggregated + BatchOf(q);
    assert Line(q) == kept + q.pending + [] && kept == kept + [];
    LineShrinks(kept, q.pending, [], q.dropped, q.lost, |q.log|);
    assert Line(Apply(c, q, Clear)) == kept;
  }

  /** Every event keeps conservation and order. */
  lemma StepConserves(c: Config, q: Queue, e: Event)
    requires Conserved(q) && Enabled(c, q, e)
    ensures Conserved(Apply(c, q, e))
  {
    hide Accounted, Admitted, Admissible, Bounded;
    match e
    case Admit(k) => AdmitConserves(c, q, k);
    case Clear => ClearConserves(c, q);
    case Crash => LineShrinks(q.aggregated, BatchOf(q), q.pending, q.dropped, q.lost, |q.log|);
                  assert Line(Apply(c, q, e)) == q.aggregated + q.pending;
    case _ => assert Line(Apply(c, q, e)) == Line(q);
  }

  // ---- Capacity ---------------------------------------------------------------------------

  ghost predicate Sized(c: Config, q: Queue) {
    && |q.pending| <= (1 + q.failures) * c.maxPending
    && (q.batch.Some? ==> |q.batch.value| <= (1 + q.failures) * c.maxPending && |q.pending| <= c.maxPending)
  }

  lemma MoreFailures(f: nat, max: nat)
    ensures (1 + (f + 1)) * max == (1 + f) * max + max && max <= (1 + f) * max
  {
  }

  lemma StepSized(c: Config, q: Queue, e: Event)
    requires Sized(c, q) && Enabled(c, q, e)
    ensures Sized(c, Apply(c, q, e))
  {
    hide FromKnownPeer, Stale;
    MoreFailures(q.failures, c.maxPending);
  }

  // ---- Distinct contributors ------------------------------------------------------------------

  ghost predicate DistinctPeers(log: seq<ModelUpdate>, s: seq<nat>) {
    Bounded(s, |log|) && forall a, b :: 0 <= a < b < |s| ==> log[s[a]].peerId != log[s[b]].peerId
  }

  /** Nobody queued is this node itself; and until a strategy fails, queued peers are distinct. */
  ghost predicate Clean(c: Config, q: Queue) {
    && (forall k :: 0 <= k < |q.log| ==> q.log[k].peerId != c.self)
    && (forall k :: 0 <= k < |q.inFlight| ==> q.inFlight[k].peerId != c.self)
    && Bounded(q.pending, |q.log|) && Bounded(BatchOf(q), |q.log|)
    && (!q.everFailed ==> DistinctPeers(q.log, q.pending) && DistinctPeers(q.log, BatchOf(q)))
  }

  lemma AdmitClean(c: Config, q: Queue, k: nat)
    requires Clean(c, q) && k < |q.inFlight|
    ensures Clean(c, Apply(c, q, Admit(k)))
  {
    var u := q.inFlight[k];
    if Admitted(c, q, u) {
      var q' := Apply(c, q, Admit(k));
      var n := |q.log|;
      if !q.everFailed {
        forall a, b | 0 <= a < b < |q'.pending|
          ensures q'.log[q'.pending[a]].peerId != q'.log[q'.pending[b]].peerId
        {
          if b == |q.pending| { assert q.log[q.pending[a]].peerId != u.peerId; }
        }
      }
    }
  }

  lemma StepClean(c: Config, q: Queue, e: Event)
    requires Clean(c, q) && Enabled(c, q, e)
    ensures Clean(c, Apply(c, q, e))
  {
    hide Admitted;
    if e.Admit? { AdmitClean(c, q, e.k); }
  }

  /** Own update plus a batch of distinct other peers: the duplicate check cannot fire. */
  lemma NoDuplicateContributors(c: Config, q: Queue, own: ModelUpdate)
    requires Clean(c, q) && q.batch.Some? && !q.everFailed && own.peerId == c.self
    ensures Distinct(PeerIds([own] + Updates(q.log, q.batch.value)))
  {
    var us := Updates(q.log, q.batch.value);
    var all := [own] + us;
    forall a, b | 0 <= a < b < |all|
      ensures PeerIds(all)[a] != PeerIds(all)[b]
    {
      assert all[b] == us[b - 1];
    }
  }

  // ---- Runs ---------------------------------------------------------------------------------------

  /** The state after a run from a fresh queue, or None if the run takes a disabled step. */
  ghost function Run(c: Config, round: int, events: seq<Event>): (r: Option<Queue>)
    ensures r.Some? ==> Conserved(r.value) && Sized(c, r.value) && Clean(c, r.value)
  {
    hide Conserved, Sized, Clean, Enabled, Apply;
    if events == [] then
      FreshIsGood(c, round);
      Some(Fresh(round))
    else
      var n := |events| - 1;
      var before := Run(c, round, events[..n]);
      if before.Some? && Enabled(c, before.value, events[n]) then
        StepConserves(c, before.value, events[n]);
        StepSized(c, before.value, events[n]);
        StepClean(c, before.value, events[n]);
        Some(Apply(c, before.value, events[n]))
      else None
  }

  lemma FreshIsGood(c: Config, round: int)
    ensures Conserved(Fresh(round)) && Sized(c, Fresh(round)) && Clean(c, Fresh(round))
  {
    assert Numbers(0) == [];
    assert 0 <= (1 + 0) * c.maxPending;
  }

  /**
   * In every run each admitted update is in exactly one of aggregated, batch, pending, dropped
   * and lost; what was or may yet be aggregated stands in admission order; and with f failures
   * since the last success the queue holds at most (1 + f) * maxPending updates.
   */
  lemma UpdatesAreConserved(c: Config, round: int, events: seq<Event>, q: Queue, x: nat)
    ensures Run(c, round, events) == Some(q) ==>
            && multiset(q.aggregated)[x] + multiset(BatchOf(q))[x] + multiset(q.pending)[x] + multiset(q.dropped)[x]
               + multiset(q.lost)[x]
               == (if x < |q.log| then 1 else 0)
            && Increasing(q.aggregated + BatchOf(q) + q.pending)
            && |q.pending| <= (1 + q.failures) * c.maxPending
  {
    hide Run, Clean;
    if Run(c, round, events) == Some(q) { ExactlyOnePlace(q, x); }
  }

  /** In every run without a failed strategy call, the list handed to the strategy names each peer once. */
  lemma StrategySeesDistinctPeers(c: Config, round: int, events: seq<Event>, q: Queue, own: ModelUpdate)
    ensures Run(c, round, events) == Some(q) && Fail !in events && q.batch.Some? && own.peerId == c.self ==>
            Bounded(q.batch.value, |q.log|) && Distinct(PeerIds([own] + Updates(q.log, q.batch.value)))
  {
    hide Run, Conserved, Sized;
    if Run(c, round, events) == Some(q) && Fail !in events && q.batch.Some? && own.peerId == c.self {
      EverFailedMeansFail(c, round, events, q);
      NoDuplicateContributors(c, q, own);
    }
  }

  /** everFailed says exactly whether the run contains a failing strategy. */
  lemma {:induction false} EverFailedMeansFail(c: Config, round: int, events: seq<Event>, q: Queue)
    ensures Run(c, round, events) == Some(q) ==> (q.everFailed <==> Fail in events)
  {
    hide Conserved, Sized, Clean, Enabled;
    if events != [] && Run(c, round, events) == Some(q) {
      var n := |events| - 1;
      EverFailedMeansFail(c, round, events[..n], Run(c, round, events[..n]).value);
      assert events == events[..n] + [events[n]];
    }
  }

  // ---- After a failure --------------------------------------------------------------------------------

  ghost predicate SharedPeer(log: seq<ModelUpdate>, s: seq<nat>, t: seq<nat>)
    requires Bounded(s, |log|) && Bounded(t, |log|)
  {
    exists a, b :: 0 <= a < |s| && 0 <= b < |t| && log[s[a]].peerId == log[t[b]].peerId
  }

  /** The list the next strategy call will be given names some peer twice. */
  ghost predicate Poisoned(q: Queue) {
    && Bounded(q.pending, |q.log|) && Bounded(BatchOf(q), |q.log|)
    && !DistinctPeers(q.log, if q.batch.Some? then q.batch.value else q.pending)
  }

  /**
   * A failure of a batch of distinct peers poisons the queue exactly when some peer of the batch
   * was admitted again meanwhile.
   */
  lemma FailPoisonsIffPeerReturned(c: Config, q: Queue)
    requires q.batch.Some? && DistinctPeers(q.log, q.batch.value) && DistinctPeers(q.log, q.pending)
    ensures Poisoned(Apply(c, q, Fail)) <==> SharedPeer(q.log, q.batch.value, q.pending)
  {
    var b, p := q.batch.value, q.pending;
    var all := b + p;
    if SharedPeer(q.log, b, p) {
      var i, j :| 0 <= i < |b| && 0 <= j < |p| && q.log[b[i]].peerId == q.log[p[j]].peerId;
      assert all[i] == b[i] && all[|b| + j] == p[j];
    } else {
      forall i, j | 0 <= i < j < |all|
        ensures q.log[all[i]].peerId != q.log[all[j]].peerId
      {
        if i < |b| <= j { assert all[i] == b[i] && all[j] == p[j - |b|]; }
      }
    }
  }

  lemma RepeatsExtend(log: seq<ModelUpdate>, more: seq<ModelUpdate>, s: seq<nat>, t: seq<nat>)
    requires Bounded(s, |log|) && !DistinctPeers(log, s) && Bounded(t, |log + more|)
    ensures !DistinctPeers(log + more, s + t)
  {
    var a, b :| 0 <= a < b < |s| && log[s[a]].peerId == log[s[b]].peerId;
    var all := s + t;
    assert (log + more)[all[a]].peerId == (log + more)[all[b]].peerId;
  }

  /** A list with a repeated peer fails validation whatever the own update is. */
  lemma RepeatsAreInadmissible(log: seq<ModelUpdate>, s: seq<nat>, own: ModelUpdate)
    requires Bounded(s, |log|) && !DistinctPeers(log, s)
    ensures !Admissible([own] + Updates(log, s))
  {
    var a, b :| 0 <= a < b < |s| && log[s[a]].peerId == log[s[b]].peerId;
    var all := [own] + Updates(log, s);
    assert all[a + 1] == log[s[a]] && all[b + 1] == log[s[b]];
    assert PeerIds(all)[a + 1] == PeerIds(all)[b + 1];
  }

  /** Only losing a batch or the final clearing can cure a poisoned queue; nothing is aggregated. */
  lemma PoisonPersists(c: Config, q: Queue, e: Event)
    requires Poisoned(q) && Enabled(c, q, e) && e != Crash && e != Clear
    ensures Poisoned(Apply(c, q, e)) && Apply(c, q, e).aggregated == q.aggregated
  {
    hide DistinctPeers, Admitted, Admissible;
    var q' := Apply(c, q, e);
    match e
    case Succeed(own) =>
      RepeatsAreInadmissible(q.log, q.batch.value, own);
      assert false;
    case Fail => RepeatsExtend(q.log, [], q.batch.value, q.pending); assert q.log + [] == q.log;
    case Admit(k) =>
      if Admitted(c, q, q.inFlight[k]) {
        var n := |q.log|;
        if q.batch.Some? {
          RepeatsExtend(q.log, [q.inFlight[k]], q.batch.value, []);
          assert q.batch.value + [] == q.batch.value;
        } else {
          RepeatsExtend(q.log, [q.inFlight[k]], q.pending, [n]);
        }
      }
    case _ =>
  }

  /** States along a continuation of a run. */
  ghost predicate Leads(c: Config, q: Queue, events: seq<Event>, q': Queue)
    decreases |events|
  {
    if events == [] then q' == q
    else Enabled(c, q, events[0]) && Leads(c, Apply(c, q, events[0]), events[1..], q')
  }

  /** Once poisoned, a queue never aggregates anything again until a batch is lost or it is cleared. */
  lemma {:induction false} PoisonedNeverAggregates(c: Config, q: Queue, events: seq<Event>, q': Queue)
    requires Poisoned(q) && Leads(c, q, events, q') && Crash !in events && Clear !in events
    ensures Poisoned(q') && q'.aggregated == q.aggregated
    decreases |events|
  {
    hide Poisoned, Enabled, Apply;
    if events != [] {
      PoisonPersists(c, q, events[0]);
      PoisonedNeverAggregates(c, Apply(c, q, events[0]), events[1..], q');
    }
  }

  /** Delivering u to an empty queue that knows nothing of its sender appends it. */
  lemma Delivered(c: Config, events: seq<Event>, q: Queue, u: ModelUpdate)
    requires Run(c, 0, events) == Some(q) && q.running && q.inFlight == [] && q.pending == []
        && q.currentRound == u.round
    requires u.peerId != "" && u.peerId != c.self && c.maxPending > 0
    ensures Run(c, 0, events + [Arrive(u), Admit(0)]) == Some(q.(log := q.log + [u], pending := [|q.log|]))
  {
    hide Run, Conserved, Sized, Clean, Admissible;
    var q1 := q.(inFlight := [u]);
    RunSnoc(c, 0, events, Arrive(u), q, q1);
    RunSnoc(c, 0, events + [Arrive(u)], Admit(0), q1, q.(log := q.log + [u], pending := [|q.log|]));
    assert events + [Arrive(u)] + [Admit(0)] == events + [Arrive(u), Admit(0)];
  }

  /** A reachable poisoned queue: a peer sends again while its first update is being aggregated. */
  lemma PoisonIsReachable(c: Config, u: ModelUpdate)
    requires u.peerId != c.self && u.peerId != "" && u.round == 0 && c.maxPending > 0 && c.minPeers <= 1
    ensures var send := [Arrive(u), Admit(0)];
            var r := Run(c, 0, send + [Drain] + send + [Fail]);
            r.Some? && Poisoned(r.value)
  {
    hide Run, Admitted, Conserved, Sized, Clean, Admissible;
    var send := [Arrive(u), Admit(0)];
    var q2 := Fresh(0).(log := [u], pending := [0]);
    var q3 := q2.(pending := [], batch := Some([0]));
    var q5 := q3.(log := [u, u], pending := [1]);
    var q6 := q5.(pending := [0, 1], batch := None, failures := 1, everFailed := true);
    RunEmpty(c, 0);
    Delivered(c, [], Fresh(0), u);
    assert [] + send == send && [] + [u] == [u];
    RunSnoc(c, 0, send, Drain, q2, q3);
    Delivered(c, send + [Drain], q3, u);
    assert [u] + [u] == [u, u];
    RunSnoc(c, 0, send + [Drain] + send, Fail, q5, q6);
    assert q6.log[q6.pending[0]].peerId == q6.log[q6.pending[1]].peerId;
  }

  lemma RunEmpty(c: Config, round: int)
    ensures Run(c, round, []) == Some(Fresh(round))
  {
    hide Conserved, Sized, Clean;
  }

  lemma RunSnoc(c: Config, round: int, events: seq<Event>, e: Event, q: Queue, q': Queue)
    requires Run(c, round, events) == Some(q) && Enabled(c, q, e) && Apply(c, q, e) == q'
    ensures Run(c, round, events + [e]) == Some(q')
  {
    hide Conserved, Sized, Clean, Enabled, Apply;
    assert (events + [e])[..|events|] == events;
  }

  // ---- The object ----------------------------------------------------------------------------------------

  /** The aggregator's queue fields; the ghost history ties them to the state machine. */
  class ModelQueue {
    const config: Config
    var running: bool
    var currentRound: int
    var pendingUpdates: seq<ModelUpdate>
    var aggregating: bool
    ghost var history: Queue

    ghost predicate Valid() reads this {
      && running == history.running && currentRound == history.currentRound
      && Bounded(history.pending, |history.log|) && Bounded(BatchOf(history), |history.log|)
      && pendingUpdates == Updates(history.log, history.pending)
      && aggregating == history.batch.Some?
    }

    constructor (config: Config, round: int)
      ensures Valid() && this.config == config && history == Fresh(round)
    {
      this.config := config;
      running, currentRound, pendingUpdates, aggregating := true, round, [], false;
      history := Fresh(round);
    }

    /** First half of the handler: refuse once the loop has stopped. */
    method Receive(update: ModelUpdate) returns (taken: bool)
      requires Valid()
      modifies this`history
      ensures Valid() && taken == running
      ensures history == if taken then Apply(config, old(history), Arrive(update)) else old(history)
    {
      taken := running;
      if taken { history := Apply(config, history, Arrive(update)); }
    }

    /** Second half: the round gate, the scan for the sender, the capacity check, the append. */
    method Enqueue(update: ModelUpdate, ghost k: nat) returns (admitted: bool)
      requires Valid() && k < |history.inFlight| && history.inFlight[k] == update
      modifies this`history, this`pendingUpdates
      ensures Valid() && history == Apply(config, old(history), Admit(k))
      ensures admitted <==>
              && currentRound - config.staleRoundTolerance <= update.round <= currentRound + config.staleRoundTolerance
              && (forall j :: 0 <= j < |old(pendingUpdates)| ==> old(pendingUpdates)[j].peerId != update.peerId)
              && |old(pendingUpdates)| < config.maxPending
      ensures pendingUpdates == old(pendingUpdates) + if admitted then [update] else []
    {
      ghost var before := history;
      history := Apply(config, before, Admit(k));
      var diff := update.round - currentRound;
      if (if diff < 0 then -diff else diff) > config.staleRoundTolerance { return false; }
      for i := 0 to |pendingUpdates|
        invariant forall j :: 0 <= j < i ==> pendingUpdates[j].peerId != update.peerId
      {
        if pendingUpdates[i].peerId == update.peerId {
          assert before.log[before.pending[i]].peerId == update.peerId;
          return false;
        }
      }
      assert !FromKnownPeer(before.log, before.pending, update.peerId) by {
        assert forall j :: 0 <= j < |before.pending| ==> before.log[before.pending[j]] == pendingUpdates[j];
      }
      if |pendingUpdates| >= config.maxPending { return false; }
      pendingUpdates := pendingUpdates + [update];
      return true;
    }

    /** Takes the whole queue as a batch unless one is under way or too few updates wait. */
    method Drain() returns (batch: Option<seq<ModelUpdate>>)
      requires Valid()
      modifies this`history, this`pendingUpdates, this`aggregating
      ensures Valid()
      ensures batch.Some? <==>
              && !old(aggregating)
              && old(pendingUpdates) != []
              && |old(pendingUpdates)| >= config.minPeers
      ensures batch.Some? ==> batch.value == old(pendingUpdates) && pendingUpdates == []
                              && history == Apply(config, old(history), Event.Drain)
      ensures batch.None? ==> history == old(history) && pendingUpdates == old(pendingUpdates)
    {
      if aggregating || pendingUpdates == [] || |pendingUpdates| < config.minPeers { return None; }
      batch := Some(pendingUpdates);
      history := Apply(config, history, Event.Drain);
      pendingUpdates, aggregating := [], true;
    }

    /** The strategy raised: the batch goes back in front of what arrived meanwhile. */
    method Restore(batch: seq<ModelUpdate>)
      requires Valid() && aggregating && batch == Updates(history.log, BatchOf(history))
      modifies this`history, this`pendingUpdates, this`aggregating
      ensures Valid() && !aggregating && history == Apply(config, old(history), Fail)
      ensures pendingUpdates == batch + old(pendingUpdates)
    {
      history := Apply(config, history, Fail);
      pendingUpdates, aggregating := batch + pendingUpdates, false;
    }

    /** The strategy returned: the batch is consumed. */
    method Finish(own: ModelUpdate)
      requires Valid() && aggregating
      modifies this`history, this`aggregating
      ensures Valid() && !aggregating && history == Apply(config, old(history), Succeed(own))
    {
      history := Apply(config, history, Succeed(own));
      aggregating := false;
    }

    /** The final clearing when the loop ends. */
    method ClearPending()
      requires Valid()
      modifies this`history, this`pendingUpdates
      ensures Valid() && pendingUpdates == [] && history == Apply(config, old(history), Clear)
    {
      history := Apply(config, history, Clear);
      pendingUpdates := [];
    }
  }
}
