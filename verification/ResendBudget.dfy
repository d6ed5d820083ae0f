/**
 * Everything one outgoing transfer puts on the wire: the send loop, and the resends that
 * on_request_chunks takes from the cache once both token buckets have granted the NACK.
 */
module ResendBudget {
  import opened Wrappers
  import opened Chunking
  import opened ChunkSender
  import opened TokenBucket

  /**
   * A transfer with its NACK bucket. resent lists the chunks sent from the cache; calls is the
   * history of calls on the bucket, which is the transfer's own and stays while it is cached.
   */
  datatype Resender = Resender(sender: Sender, bucket: Option<Bucket>, resent: seq<nat>, calls: seq<TokenBucket.Event>)

  /** What happens to an outgoing transfer; a NACK comes with the verdict of the peer's bucket on it. */
  datatype WireEvent =
    | LoopAt(clock: real)
    | AckAt(total: nat, sack: Bytes)
    | NackAt(indices: seq<nat>, now: real, peerGrants: bool)
    | Expire

  /** Authorised NACKs are free while the transfer is active, refused when it is forgotten, else rationed. */
  ghost function Step(r: Resender, e: WireEvent): Resender
    requires Valid(r.sender)
  {
    match e
    case LoopAt(clock) => r.(sender := LoopStep(r.sender, clock))
    case AckAt(total, sack) => r.(sender := OnAck(r.sender, total, sack))
    case Expire => r.(sender := Forget(r.sender), bucket := None)
    case NackAt(indices, now, peerGrants) =>
      if !r.sender.cached then r
      else if r.sender.registered then r.(sender := OnNack(r.sender, indices))
      else
        var granted := Allows(r.bucket, NACK_TRANSFER_BUCKET_MAX_TOKENS, NACK_BUCKET_INTERVAL, now);
        var after := Consumed(r.bucket, NACK_TRANSFER_BUCKET_MAX_TOKENS, NACK_BUCKET_INTERVAL, now);
        r.(bucket := Some(after),
           calls := r.calls + [Try(now)],
           resent := if granted && peerGrants then r.resent + CachedResends(r.sender, indices) else r.resent)
  }

  ghost predicate OnlyTries(calls: seq<TokenBucket.Event>) { forall j :: 0 <= j < |calls| ==> calls[j].Try? }

  /** The bucket is what its calls left, and every grant was worth at most 128 chunks. */
  ghost predicate Good(r: Resender) {
    && Valid(r.sender) && OnlyTries(r.calls)
    && (r.sender.cached ==> r.bucket == TransferBucket(r.calls))
    && |r.resent| <= CHUNK_MAX_NACK_INDICES * TransferGrants(r.calls, 0, |r.calls|)
  }

  /** One event adds at most 128 chunks per call that the bucket granted. */
  lemma StepRations(r: Resender, e: WireEvent)
    requires Good(r)
    ensures var r' := Step(r, e);
            && Good(r') && r'.sender.weights == r.sender.weights
            && Rationed(NACK_TRANSFER_BUCKET_MAX_TOKENS, r.calls, |r.resent|, r'.calls, |r'.resent|)
  {
    hide Valid, GrantCount, TokenBucket.After, Consumed, Allows, Capped, RearmAll, LoopStep, OnAck;
    NothingRationed(NACK_TRANSFER_BUCKET_MAX_TOKENS, r.calls, |r.resent|);
    match e
    case LoopAt(clock) =>
      HandleKeepsValid(r.sender, Loop(clock));
      KeepsCached(r.sender, Loop(clock));
    case AckAt(total, sack) =>
      HandleKeepsValid(r.sender, Ack(total, sack));
      KeepsCached(r.sender, Ack(total, sack));
    case Expire => HandleKeepsValid(r.sender, CacheExpiry);
    case NackAt(indices, now, _) =>
      HandleKeepsValid(r.sender, Nack(indices));
      CallSnoc(r.calls, NACK_TRANSFER_BUCKET_MAX_TOKENS, NACK_BUCKET_INTERVAL, now);
  }

  /** Only the expiry of the cache forgets a transfer, and nothing brings it back. */
  lemma KeepsCached(s: Sender, e: SenderEvent)
    requires Valid(s)
    ensures Handle(s, e).cached ==> s.cached
  {
    hide SumAttempts, InFlight, Window, ChunkCount;
    if e.Nack? { RearmAccounts(s, Capped(e.indices, s.Total())); }
  }

  // ---- Runs -----------------------------------------------------------------------------------

  ghost function After(weights: Bytes, start: real, events: seq<WireEvent>): (r: Resender)
    ensures Good(r) && r.sender.weights == weights
  {
    if events == [] then Fresh(weights, start)
    else
      StepRations(After(weights, start, events[..|events| - 1]), events[|events| - 1]);
      Step(After(weights, start, events[..|events| - 1]), events[|events| - 1])
  }

  function Fresh(weights: Bytes, start: real): (r: Resender)
    ensures Good(r)
  {
    Resender(Start(weights, start), None, [], [])
  }

  /** The state after the first n events. */
  ghost function At(weights: Bytes, start: real, events: seq<WireEvent>, n: nat): (r: Resender)
    requires n <= |events|
    ensures Good(r)
  {
    After(weights, start, events[..n])
  }

  lemma AtNext(weights: Bytes, start: real, events: seq<WireEvent>, n: nat)
    requires n < |events|
    ensures At(weights, start, events, n + 1) == Step(At(weights, start, events, n), events[n])
  {
    hide Good, Step;
    assert events[..n + 1][..n] == events[..n];
  }

  /** From one history and count of resends to a later one: at most 128 more for every grant in between. */
  ghost predicate Rationed(cap: real, calls: seq<TokenBucket.Event>, resent: nat,
                           calls': seq<TokenBucket.Event>, resent': nat)
  {
    && calls <= calls'
    && resent' - resent <= CHUNK_MAX_NACK_INDICES * GrantCount(calls', cap, NACK_BUCKET_INTERVAL, |calls|, |calls'|)
  }

  /** Rations add up along a run. */
  lemma RationsAdd(cap: real, a: seq<TokenBucket.Event>, x: nat, b: seq<TokenBucket.Event>, y: nat,
                   c: seq<TokenBucket.Event>, z: nat)
    requires Rationed(cap, a, x, b, y) && Rationed(cap, b, y, c, z)
    ensures Rationed(cap, a, x, c, z)
  {
    hide GrantCount;
    GrantSplit(c, cap, NACK_BUCKET_INTERVAL, |a|, |b|, |c|);
    GrantPrefix(c, b, cap, NACK_BUCKET_INTERVAL, |a|, |b|);
  }

  lemma NothingRationed(cap: real, calls: seq<TokenBucket.Event>, resent: nat)
    ensures Rationed(cap, calls, resent, calls, resent)
  {
  }

  /** From event m to event n the resends number at most 128 per call granted in between. */
  lemma {:induction false} ResendsPerGrant(weights: Bytes, start: real, events: seq<WireEvent>, m: nat, n: nat)
    requires m <= n <= |events|
    ensures var a, b := At(weights, start, events, m), At(weights, start, events, n);
            Rationed(NACK_TRANSFER_BUCKET_MAX_TOKENS, a.calls, |a.resent|, b.calls, |b.resent|)
  {
    hide Good, Step, At, Rationed;
    var a := At(weights, start, events, m);
    if m < n {
      ResendsPerGrant(weights, start, events, m, n - 1);
      AtNext(weights, start, events, n - 1);
      var b, c := At(weights, start, events, n - 1), At(weights, start, events, n);
      StepRations(b, events[n - 1]);
      RationsAdd(NACK_TRANSFER_BUCKET_MAX_TOKENS, a.calls, |a.resent|, b.calls, |b.resent|, c.calls, |c.resent|);
    } else {
      NothingRationed(NACK_TRANSFER_BUCKET_MAX_TOKENS, a.calls, |a.resent|);
    }
  }

  ghost predicate NacksInOrder(events: seq<WireEvent>) {
    forall i, j :: 0 <= i < j < |events| && events[i].NackAt? && events[j].NackAt? ==> events[i].now <= events[j].now
  }

  /** NACK times never go back; those from event m on lie in [t1, t2] and the earlier ones are not later. */
  ghost predicate NacksDuring(events: seq<WireEvent>, m: nat, t1: real, t2: real) {
    && m <= |events| && t1 <= t2
    && NacksInOrder(events)
    && (forall i :: 0 <= i < m && events[i].NackAt? ==> events[i].now <= t1)
    && (forall i :: m <= i < |events| && events[i].NackAt? ==> t1 <= events[i].now <= t2)
  }

  ghost predicate By(calls: seq<TokenBucket.Event>, t: real) {
    forall j :: 0 <= j < |calls| && calls[j].Try? ==> calls[j].now <= t
  }

  /** An event makes at most one call, at its own time. */
  lemma StepCalls(r: Resender, e: WireEvent)
    requires Good(r)
    ensures Step(r, e).calls == r.calls || (e.NackAt? && Step(r, e).calls == r.calls + [Try(e.now)])
  {
    hide Good, Allows, Consumed, OnNack, LoopStep, OnAck;
  }

  lemma {:induction false} CallsBy(weights: Bytes, start: real, events: seq<WireEvent>, n: nat, t: real)
    requires n <= |events| && forall i :: 0 <= i < n && events[i].NackAt? ==> events[i].now <= t
    ensures By(At(weights, start, events, n).calls, t)
  {
    hide Good, Step;
    if n > 0 {
      CallsBy(weights, start, events, n - 1, t);
      hide At;
      AtNext(weights, start, events, n - 1);
      StepCalls(At(weights, start, events, n - 1), events[n - 1]);
    }
  }

  lemma DuringGrows(calls: seq<TokenBucket.Event>, m: nat, t1: real, t2: real, now: real)
    requires During(calls, m, |calls|, t1, t2) && By(calls, now) && t1 <= now <= t2
    ensures During(calls + [Try(now)], m, |calls| + 1, t1, t2)
  {
  }

  /** The calls made from event m on lie in [t1, t2], and the clock of the bucket never goes back. */
  lemma {:induction false} CallsDuring(weights: Bytes, start: real, events: seq<WireEvent>, m: nat, n: nat, t1: real,
      t2: real)
    requires NacksDuring(events, m, t1, t2) && m <= n <= |events|
    ensures var a, b := At(weights, start, events, m), At(weights, start, events, n);
            |a.calls| <= |b.calls| && During(b.calls, |a.calls|, |b.calls|, t1, t2)
  {
    hide Good, Step, At, During, By;
    if m < n {
      CallsDuring(weights, start, events, m, n - 1, t1, t2);
      AtNext(weights, start, events, n - 1);
      var b := At(weights, start, events, n - 1);
      StepCalls(b, events[n - 1]);
      if events[n - 1].NackAt? {
        CallsBy(weights, start, events, n - 1, events[n - 1].now);
        DuringGrows(b.calls, |At(weights, start, events, m).calls|, t1, t2, events[n - 1].now);
      }
    } else {
      CallsStart(weights, start, events, m, t1, t2);
    }
  }

  lemma CallsStart(weights: Bytes, start: real, events: seq<WireEvent>, m: nat, t1: real, t2: real)
    requires NacksDuring(events, m, t1, t2)
    ensures var calls := At(weights, start, events, m).calls; During(calls, |calls|, |calls|, t1, t2)
  {
    hide Good, Step, At;
    CallsBy(weights, start, events, m, t1);
    CallsClocked(weights, start, events, m);
  }

  lemma {:induction false} CallsClocked(weights: Bytes, start: real, events: seq<WireEvent>, n: nat)
    requires n <= |events| && NacksInOrder(events)
    ensures Clocked(At(weights, start, events, n).calls)
  {
    hide Good, Step;
    if n > 0 {
      CallsClocked(weights, start, events, n - 1);
      hide At;
      AtNext(weights, start, events, n - 1);
      StepCalls(At(weights, start, events, n - 1), events[n - 1]);
      if events[n - 1].NackAt? { CallsBy(weights, start, events, n - 1, events[n - 1].now); }
    }
  }

  /**
   * In every run of one transfer: the loop sends at most 8 * (total + 128 * K) chunks for K NACKs
   * handled while it is active; and in answer to the NACKs granted in any interval [t1, t2] at most
   * 128 * (20 + (t2 - t1) / 2) chunks are sent from the cache, whatever the NACKs ask for and
   * whatever the peer bucket says. The sending itself may go on after t2.
   */
  lemma WireBudget(weights: Bytes, start: real, events: seq<WireEvent>, m: nat, t1: real, t2: real)
    requires NacksDuring(events, m, t1, t2)
    ensures var a, b := After(weights, start, events[..m]), After(weights, start, events);
            && |b.sender.sends| <= CHUNK_MAX_SEND_ATTEMPTS * (b.sender.Total()
               + CHUNK_MAX_NACK_INDICES * b.sender.nacks)
            && (|b.resent| - |a.resent|) as real <= 128.0 * (20.0 + (t2 - t1) / 2.0)
  {
    hide GrantCount, TransferBucket, Step, During, SumAttempts;
    var n := |events|;
    var a, b := At(weights, start, events, m), At(weights, start, events, n);
    assert events[..n] == events;
    ResendsPerGrant(weights, start, events, m, n);
    CallsDuring(weights, start, events, m, n, t1, t2);
    TransferNackBudget(b.calls, |a.calls|, |b.calls|, t1, t2);
    NeverRemoved(b.calls, |a.calls|, |b.calls|);
    SumBound(b.sender.attempts, b.sender.nextIndex);
  }

  // ---- All transfers to one peer ------------------------------------------------------------------

  /**
   * The transfers to one peer and the bucket they share, which is never removed. calls is the
   * history of that bucket, and resent counts the chunks sent from the caches of all transfers.
   */
  datatype PeerLink = PeerLink(
    transfers: map<string, Resender>,
    bucket: Option<Bucket>,
    calls: seq<TokenBucket.Event>,
    resent: nat)

  /** A transfer begins, something happens to one, or this node draws on the bucket to send a NACK itself. */
  datatype PeerEvent =
    | Begin(id: string, weights: Bytes, start: real)
    | To(id: string, e: WireEvent)
    | OwnNack(now: real)

  /** The transfer's own bucket grants the NACK, so that the peer's bucket is asked. */
  ghost predicate AsksPeer(r: Resender, e: WireEvent) {
    && e.NackAt? && r.sender.cached && !r.sender.registered
    && Allows(r.bucket, NACK_TRANSFER_BUCKET_MAX_TOKENS, NACK_BUCKET_INTERVAL, e.now)
  }

  ghost function Draw(p: PeerLink, now: real): PeerLink {
    p.(bucket := Some(Consumed(p.bucket, NACK_BUCKET_MAX_TOKENS, NACK_BUCKET_INTERVAL, now)),
       calls := p.calls + [Try(now)])
  }

  /** The verdict in a NACK event is replaced by that of the bucket. */
  ghost function PeerStep(p: PeerLink, e: PeerEvent): PeerLink
    requires PeerGood(p)
  {
    match e
    case Begin(id, weights, start) =>
      if id in p.transfers then p else p.(transfers := p.transfers[id := Fresh(weights, start)])
    case OwnNack(now) => Draw(p, now)
    case To(id, w) =>
      if id !in p.transfers then p
      else
        var r := p.transfers[id];
        if AsksPeer(r, w) then
          var granted := Allows(p.bucket, NACK_BUCKET_MAX_TOKENS, NACK_BUCKET_INTERVAL, w.now);
          var r' := Step(r, w.(peerGrants := granted));
          Draw(p, w.now).(transfers := p.transfers[id := r'], resent := p.resent + (|r'.resent| - |r.resent|))
        else
          var quiet := if w.NackAt? then w.(peerGrants := false) else w;
          p.(transfers := p.transfers[id := Step(r, quiet)])
  }

  ghost predicate PeerGood(p: PeerLink) {
    && (forall id :: id in p.transfers ==> Good(p.transfers[id]))
    && OnlyTries(p.calls) && p.bucket == TokenBucket.After(p.calls, NACK_BUCKET_MAX_TOKENS, NACK_BUCKET_INTERVAL)
  }

  /** What a NACK adds to the resends of its transfer. */
  lemma NackAdds(r: Resender, w: WireEvent)
    requires Good(r)
    ensures 0 <= |Step(r, w).resent| - |r.resent| <= CHUNK_MAX_NACK_INDICES
    ensures !(AsksPeer(r, w) && w.peerGrants) ==> Step(r, w).resent == r.resent
  {
    hide Valid, GrantCount, TokenBucket.After, Consumed, Allows, RearmAll, LoopStep, OnAck;
  }

  lemma PeerStepRations(p: PeerLink, e: PeerEvent)
    requires PeerGood(p)
    ensures var p' := PeerStep(p, e);
            PeerGood(p') && Rationed(NACK_BUCKET_MAX_TOKENS, p.calls, p.resent, p'.calls, p'.resent)
  {
    hide Good, GrantCount, TokenBucket.After, Consumed, Allows, Step;
    NothingRationed(NACK_BUCKET_MAX_TOKENS, p.calls, p.resent);
    match e
    case Begin(_, _, _) =>
    case OwnNack(now) => CallSnoc(p.calls, NACK_BUCKET_MAX_TOKENS, NACK_BUCKET_INTERVAL, now);
    case To(id, w) =>
      if id in p.transfers {
        var r := p.transfers[id];
        if AsksPeer(r, w) {
          var granted := Allows(p.bucket, NACK_BUCKET_MAX_TOKENS, NACK_BUCKET_INTERVAL, w.now);
          StepRations(r, w.(peerGrants := granted));
          NackAdds(r, w.(peerGrants := granted));
          CallSnoc(p.calls, NACK_BUCKET_MAX_TOKENS, NACK_BUCKET_INTERVAL, w.now);
        } else {
          StepRations(r, if w.NackAt? then w.(peerGrants := false) else w);
        }
      }
  }

  ghost function PeerAfter(events: seq<PeerEvent>): (p: PeerLink)
    ensures PeerGood(p)
  {
    if events == [] then PeerLink(map[], None, [], 0)
    else
      PeerStepRations(PeerAfter(events[..|events| - 1]), events[|events| - 1]);
      PeerStep(PeerAfter(events[..|events| - 1]), events[|events| - 1])
  }

  lemma {:induction false} PeerRations(events: seq<PeerEvent>, more: seq<PeerEvent>)
    ensures var a, b := PeerAfter(events), PeerAfter(events + more);
            Rationed(NACK_BUCKET_MAX_TOKENS, a.calls, a.resent, b.calls, b.resent)
    decreases |more|
  {
    hide PeerGood, Rationed, PeerStep;
    var a, all := PeerAfter(events), events + more;
    if more == [] {
      assert all == events;
      NothingRationed(NACK_BUCKET_MAX_TOKENS, a.calls, a.resent);
    } else {
      var front := more[..|more| - 1];
      PeerRations(events, front);
      assert all[..|all| - 1] == events + front;
      var b, c := PeerAfter(events + front), PeerAfter(all);
      PeerStepRations(b, more[|more| - 1]);
      RationsAdd(NACK_BUCKET_MAX_TOKENS, a.calls, a.resent, b.calls, b.resent, c.calls, c.resent);
    }
  }

  /**
   * In every run of all transfers to one peer, in answer to the NACKs granted in any interval
   * [t1, t2] at most 128 * (40 + (t2 - t1) / 2) chunks are sent to that peer from the caches.
   */
  lemma PeerBudget(events: seq<PeerEvent>, more: seq<PeerEvent>, t1: real, t2: real)
    ensures var a, b := PeerAfter(events), PeerAfter(events + more);
            && |a.calls| <= |b.calls|
            && (During(b.calls, |a.calls|, |b.calls|, t1, t2) ==>
                (b.resent - a.resent) as real <= 128.0 * (40.0 + (t2 - t1) / 2.0))
  {
    hide PeerAfter, GrantCount, TokenBucket.After, During, Good;
    var a, b := PeerAfter(events), PeerAfter(events + more);
    PeerRations(events, more);
    if During(b.calls, |a.calls|, |b.calls|, t1, t2) {
      PeerNackBudget(b.calls, |a.calls|, |b.calls|, t1, t2);
    }
  }
}
