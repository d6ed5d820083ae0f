/**
 * What the send loop owes its chunks: which of them a retry pass sends again, when it gives up,
 * and that a chunk asked for by a NACK is sent again by the end of the next pass.
 */
module RetryPass {
  import opened Wrappers
  import opened Numerics
  import opened ChunkRanges
  import opened Chunking
  import opened ChunkSender

  /** The sender after any events from any sound state. */
  ghost function HandleAll(s: Sender, events: seq<SenderEvent>): (r: Sender)
    requires Valid(s)
    ensures Valid(r) && r.weights == s.weights
  {
    if events == [] then s
    else
      var before := HandleAll(s, events[..|events| - 1]);
      HandleKeepsValid(before, events[|events| - 1]);
      Handle(before, events[|events| - 1])
  }

  // ---- Acknowledged chunks ----------------------------------------------------------------

  /** A loop step sends exactly one chunk or none. */
  ghost predicate Sends(s: Sender, clock: real)
    requires Valid(s)
  {
    |LoopStep(s, clock).sends| > |s.sends|
  }

  ghost function SentNow(s: Sender, clock: real): nat
    requires Valid(s) && Sends(s, clock)
  {
    var sends := LoopStep(s, clock).sends;
    sends[|sends| - 1]
  }

  /**
   * A retry never sends an acknowledged chunk. A first sending does so exactly when next_index
   * itself has been acknowledged, which only a receiver that never got it can claim.
   */
  lemma SendsAcknowledgedIff(s: Sender, clock: real)
    requires Valid(s)
    ensures Sends(s, clock) && SentNow(s, clock) in s.acked <==>
            && s.phase == Fill && s.nextIndex < s.Total() && s.nextIndex in s.acked
            && InFlight(s, clock, s.nextIndex) < Window(s.Total())
  {
    hide SumAttempts, InFlight, Window, ChunkCount;
    match s.phase
    case Done(_) =>
    case Top =>
    case Retry(_, _) =>
    case Fill =>
  }

  /** Such a run: chunk 0 is acknowledged before it is sent, and then sent. */
  lemma AcknowledgedBeforeSent(weights: Bytes)
    requires 2 <= ChunkCount(|weights|, CHUNK_SIZE) < UINT32
    ensures var ack := Ack(ChunkCount(|weights|, CHUNK_SIZE), Packed({0}));
            var s := HandleAll(Start(weights, 0.0), [ack, Loop(0.0), Loop(0.0)]);
            Sends(s, 0.0) && SentNow(s, 0.0) == 0 && 0 in s.acked
  {
    hide ChunkCount, Packed, WellFormed, Covered, SumAttempts;
    var total := ChunkCount(|weights|, CHUNK_SIZE);
    var s0 := Start(weights, 0.0);
    AckMerges(s0, {0});
    var es := [Ack(total, Packed({0})), Loop(0.0), Loop(0.0)];
    var s1 := OnAck(s0, total, Packed({0}));
    AckKeepsValid(s0, total, Packed({0}));
    assert s1 == s0.(acked := {0});
    assert es[..3] == es && es[..3][..2] == es[..2] && es[..2][..1] == es[..1] && es[..1][..0] == [];
    assert HandleAll(s0, es[..1]) == s1;
    LoopKeepsValid(s1, 0.0);
    var s2 := LoopStep(s1, 0.0);
    assert HandleAll(s0, es[..2]) == s2 && s2.phase == Retry(0.0, []);
    LoopKeepsValid(s2, 0.0);
  }

  /** Sending chunk j at clock changes the time and the attempts of that chunk and no other. */
  ghost predicate Stamps(s: Sender, s': Sender, j: nat, clock: real) {
    && s'.sends == s.sends + [j]
    && s'.sentAt == s.sentAt[j := clock] && s'.attempts == s.attempts[j := Get(s.attempts, j) + 1]
  }

  /** A loop step sends one chunk, stamped with the clock and costing one attempt, or leaves all times and attempts. */
  lemma SendIsStamped(s: Sender, clock: real)
    requires Valid(s)
    ensures var s' := LoopStep(s, clock);
            if Sends(s, clock) then Stamps(s, s', SentNow(s, clock), clock)
            else s'.sends == s.sends && s'.sentAt == s.sentAt && s'.attempts == s.attempts
  {
    hide Stamps, SumAttempts, InFlight, Window, ChunkCount, Resend, SendNext;
    var s' := LoopStep(s, clock);
    match s.phase
    case Done(_) =>
    case Top =>
    case Retry(_, todo) =>
      if todo != [] { ResendStamps(s, todo[0].0, clock); }
    case Fill => SendNextStamps(s, clock);
  }

  lemma ResendStamps(s: Sender, i: nat, clock: real)
    requires i in s.attempts && s.phase.Retry? && s.phase.todo != []
    ensures Stamps(s, Resend(s, i, clock), i, clock)
  {
  }

  lemma SendNextStamps(s: Sender, clock: real)
    ensures Stamps(s, SendNext(s, clock), s.nextIndex, clock)
  {
  }

  /** The chunks in flight: sent, not acknowledged, and not older than the timeout. */
  ghost function Flying(s: Sender, now: real, n: nat): set<nat> {
    set i | i in s.sentAt && i < n && i !in s.acked && now - s.sentAt[i] < CHUNK_ACK_TIMEOUT
  }

  lemma {:induction false} InFlightIsCount(s: Sender, now: real, n: nat)
    requires forall i :: 0 <= i < n ==> i in s.sentAt
    ensures InFlight(s, now, n) == |Flying(s, now, n)|
  {
    if n == 0 {
      assert Flying(s, now, 0) == {};
    } else {
      InFlightIsCount(s, now, n - 1);
      var last := n - 1 !in s.acked && now - s.sentAt[n - 1] < CHUNK_ACK_TIMEOUT;
      assert Flying(s, now, n) == Flying(s, now, n - 1) + if last then {n - 1} else {};
    }
  }

  /**
   * While the window is being filled, the next chunk is sent exactly if there is one and fewer than
   * 16 chunks, or than there are in all, are in flight.
   */
  lemma FillsTheWindow(s: Sender, clock: real)
    requires Valid(s) && s.phase == Fill
    ensures Sends(s, clock) <==>
            s.nextIndex < s.Total() && |Flying(s, clock, s.nextIndex)| < (if s.Total() < 16 then s.Total() else 16)
    ensures Sends(s, clock) ==> SentNow(s, clock) == s.nextIndex
  {
    hide SumAttempts, InFlight, ChunkCount;
    InFlightIsCount(s, clock, s.nextIndex);
  }

  // ---- One pass ------------------------------------------------------------------------------

  /** The pass has just read the clock and the list of chunks sent. */
  ghost predicate BeginsPass(s: Sender)
    requires Valid(s)
  {
    s.phase.Retry? && s.phase.todo == Items(s.sentAt, s.nextIndex)
  }

  lemma TopBeginsPass(s: Sender, clock: real)
    requires Valid(s) && s.phase == Top && !s.completed && clock - s.createdAt <= CHUNK_TRANSFER_TIMEOUT
    ensures var p := LoopStep(s, clock);
            && Valid(p) && BeginsPass(p) && p.phase.now == clock
            && p == s.(phase := p.phase)
  {
    LoopKeepsValid(s, clock);
  }

  /** At the clock reading of the pass, chunk i was sent at least the timeout ago. */
  predicate Due(p: Sender, i: nat)
    requires p.phase.Retry?
  {
    i < p.nextIndex && i in p.sentAt && p.phase.now - p.sentAt[i] >= CHUNK_ACK_TIMEOUT
  }

  /** What was sent since p. */
  function Since(p: Sender, s: Sender): seq<nat> { if |p.sends| <= |s.sends| then s.sends[|p.sends|..] else [] }

  /**
   * Among the chunks below r, the pass begun in p has sent again, once each and in order, chunks
   * that were due and not acknowledged; and it missed none of those that are still not.
   */
  ghost predicate ResentBelow(p: Sender, s: Sender, r: nat)
    requires p.phase.Retry?
  {
    && p.sends <= s.sends && Increasing(Since(p, s))
    && (forall a :: 0 <= a < |Since(p, s)| ==>
                      Since(p, s)[a] < r && Due(p, Since(p, s)[a]) && Since(p, s)[a] !in p.acked)
    && (forall i: nat :: i < r && Due(p, i) && i !in s.acked ==> i in Since(p, s))
  }

  /** The pass stopped at chunk r: due, not acknowledged, and out of attempts. */
  ghost predicate GaveUp(p: Sender, s: Sender, r: nat)
    requires p.phase.Retry?
  {
    && Due(p, r) && r !in s.acked && r in s.attempts && s.attempts[r] >= CHUNK_MAX_SEND_ATTEMPTS
    && ResentBelow(p, s, r)
  }

  /** The pass begun in p stands before chunk r. */
  ghost predicate Underway(p: Sender, s: Sender, r: nat)
    requires Valid(p) && BeginsPass(p)
  {
    && r <= p.nextIndex && s.nextIndex == p.nextIndex && p.acked <= s.acked
    && s.phase == Retry(p.phase.now, p.phase.todo[r..]) && ResentBelow(p, s, r)
  }

  /** Everything but the loop leaves the pass where it is. */
  lemma OthersKeepPhase(s: Sender, e: SenderEvent)
    requires Valid(s) && !e.Loop?
    ensures var s' := Handle(s, e);
            s'.phase == s.phase && s'.nextIndex == s.nextIndex && s'.sends == s.sends && s.acked <= s'.acked
  {
    hide SumAttempts, RearmAll, Capped, WellFormed, Covered, ChunkCount;
    if e.Nack? { RearmAccounts(s, Capped(e.indices, s.Total())); }
  }

  lemma MoreAcknowledged(p: Sender, s: Sender, s': Sender, r: nat)
    requires p.phase.Retry? && ResentBelow(p, s, r) && s'.sends == s.sends && s.acked <= s'.acked
    ensures ResentBelow(p, s', r)
  {
  }

  /** Chunk r is passed over, because it is acknowledged or not due. */
  lemma PassedOver(p: Sender, s: Sender, r: nat)
    requires p.phase.Retry? && ResentBelow(p, s, r) && (r in s.acked || !Due(p, r))
    ensures ResentBelow(p, s, r + 1)
  {
  }

  /** Chunk r is sent again. */
  lemma SentAgain(p: Sender, s: Sender, s': Sender, r: nat)
    requires p.phase.Retry? && ResentBelow(p, s, r) && Due(p, r) && r !in s.acked && p.acked <= s.acked
    requires s'.sends == s.sends + [r] && s'.acked == s.acked
    ensures ResentBelow(p, s', r + 1)
  {
    assert Since(p, s') == Since(p, s) + [r];
  }

  /** One step of the loop in a pass: it moves on to the next chunk, gives up, or is done. */
  lemma LoopInPass(p: Sender, s: Sender, r: nat, clock: real)
    requires Valid(p) && BeginsPass(p) && Valid(s) && Underway(p, s, r)
    ensures var s' := LoopStep(s, clock);
            if r == p.nextIndex then s'.phase == Fill && ResentBelow(p, s', r)
            else if r !in s.acked && Due(p, r) && s.attempts[r] >= CHUNK_MAX_SEND_ATTEMPTS
            then s'.phase.Done? && GaveUp(p, s', r)
            else Underway(p, s', r + 1)
  {
    hide SumAttempts, ResentBelow, ChunkCount;
    var todo := s.phase.todo;
    if r == p.nextIndex {
      MoreAcknowledged(p, s, LoopStep(s, clock), r);
    } else {
      assert todo[0] == (r, p.sentAt[r]) && todo[1..] == p.phase.todo[r + 1..];
      if r in s.acked || !Due(p, r) {
        PassedOver(p, s, r);
        MoreAcknowledged(p, s, LoopStep(s, clock), r + 1);
      } else if s.attempts[r] >= CHUNK_MAX_SEND_ATTEMPTS {
        MoreAcknowledged(p, s, LoopStep(s, clock), r);
      } else {
        SentAgain(p, s, LoopStep(s, clock), r);
      }
    }
  }

  /** Before each of the events the pass was still going on. */
  ghost predicate StillRetrying(p: Sender, events: seq<SenderEvent>)
    requires Valid(p)
  {
    forall m :: 0 <= m < |events| ==> HandleAll(p, events[..m]).phase.Retry?
  }

  /** How a pass ends: with every chunk looked at, or at one that is out of attempts. */
  ghost predicate Ended(p: Sender, s: Sender)
    requires p.phase.Retry?
  {
    (s.phase == Fill && ResentBelow(p, s, p.nextIndex)) || (s.phase.Done? && exists r :: GaveUp(p, s, r))
  }

  lemma EventInPass(p: Sender, s: Sender, r: nat, e: SenderEvent) returns (r': nat)
    requires Valid(p) && BeginsPass(p) && Valid(s) && Underway(p, s, r)
    ensures Underway(p, Handle(s, e), r') || (!Handle(s, e).phase.Retry? && Ended(p, Handle(s, e)))
  {
    hide ResentBelow, LoopStep, Due;
    r' := r;
    if e.Loop? {
      LoopInPass(p, s, r, e.clock);
      if r < p.nextIndex { r' := r + 1; }
    } else {
      OthersKeepPhase(s, e);
      MoreAcknowledged(p, s, Handle(s, e), r);
    }
  }

  lemma {:induction false} PassRuns(p: Sender, events: seq<SenderEvent>) returns (r: nat)
    requires Valid(p) && BeginsPass(p) && StillRetrying(p, events)
    ensures var s := HandleAll(p, events);
            Underway(p, s, r) || (!s.phase.Retry? && Ended(p, s))
  {
    if events == [] {
      r := 0;
      PassStarts(p);
    } else {
      hide Valid, Underway, Ended, Handle, BeginsPass;
      var n := |events| - 1;
      RetryingPrefix(p, events);
      var before := PassRuns(p, events[..n]);
      r := EventInPass(p, HandleAll(p, events[..n]), before, events[n]);
    }
  }

  lemma PassStarts(p: Sender)
    requires Valid(p) && BeginsPass(p)
    ensures Underway(p, p, 0)
  {
    hide SumAttempts, ChunkCount;
    assert p.phase.todo[0..] == p.phase.todo && Since(p, p) == [];
  }

  lemma RetryingPrefix(p: Sender, events: seq<SenderEvent>)
    requires Valid(p) && events != [] && StillRetrying(p, events)
    ensures StillRetrying(p, events[..|events| - 1]) && HandleAll(p, events[..|events| - 1]).phase.Retry?
  {
    hide Valid, HandleAll;
    var n := |events| - 1;
    forall m | 0 <= m < n
      ensures HandleAll(p, events[..n][..m]).phase.Retry?
    {
      assert events[..n][..m] == events[..m];
    }
  }

  /**
   * Whatever acknowledgements, NACKs and expiries fall into a pass: if it ends with the loop going
   * on, it has sent again, once each and in order, chunks that were due and not acknowledged when
   * it began, and every chunk that was due and is still not acknowledged. It gives up exactly
   * when it meets such a chunk with 8 attempts.
   */
  lemma PassResends(p: Sender, events: seq<SenderEvent>)
    requires Valid(p) && BeginsPass(p) && StillRetrying(p, events) && !HandleAll(p, events).phase.Retry?
    ensures var s := HandleAll(p, events);
            && (s.phase == Fill || s.phase.Done?)
            && (s.phase == Fill ==> ResentBelow(p, s, p.nextIndex))
            && (s.phase.Done? <==> exists r :: GaveUp(p, s, r))
  {
    hide HandleAll, Valid;
    var s := HandleAll(p, events);
    var r := PassRuns(p, events);
    if s.phase == Fill {
      forall r
        ensures !GaveUp(p, s, r)
      {
        assert Due(p, r) && r !in s.acked ==> r in Since(p, s);
      }
    }
  }

  // ---- NACKs ------------------------------------------------------------------------------------

  /** The indices a NACK may act on are the requested ones in range, the first 128 of them. */
  lemma {:induction false} BelowIsFilter(indices: seq<nat>, total: nat, i: nat)
    ensures i in Below(indices, total) <==> i in indices && i < total
  {
    if indices != [] {
      BelowIsFilter(indices[..|indices| - 1], total, i);
      assert indices == indices[..|indices| - 1] + [indices[|indices| - 1]];
    }
  }

  lemma {:induction false} RearmedExactly(s: Sender, indices: seq<nat>, i: nat)
    requires Valid(s) && i in s.sentAt && i in s.attempts
    ensures var t := RearmAll(s, indices);
            && i in t.sentAt && i in t.attempts
            && (if i in indices && i !in s.acked then t.sentAt[i] == 0.0 && t.attempts[i] == 0
                else t.sentAt[i] == s.sentAt[i] && t.attempts[i] == s.attempts[i])
  {
    hide SumAttempts;
    RearmAccounts(s, indices);
    if indices != [] {
      var front := indices[..|indices| - 1];
      RearmedExactly(s, front, i);
      RearmAccounts(s, front);
      assert indices == front + [indices[|indices| - 1]];
    }
  }

  /**
   * A NACK on an active transfer re-arms exactly the chunks it may act on that are sent and not
   * acknowledged; every other chunk keeps its time and its attempts.
   */
  lemma NackRearms(s: Sender, indices: seq<nat>, i: nat)
    requires Valid(s) && s.cached && s.registered && i < s.nextIndex
    ensures var t := OnNack(s, indices);
            && i in t.sentAt && i in t.attempts
            && (if i in Capped(indices, s.Total()) && i !in s.acked then t.sentAt[i] == 0.0 && t.attempts[i] == 0
                else t.sentAt[i] == s.sentAt[i] && t.attempts[i] == s.attempts[i])
            && t.sends == s.sends && t.acked == s.acked && t.nextIndex == s.nextIndex
  {
    hide SumAttempts, RearmAll, Capped, ChunkCount;
    RearmedExactly(s, Capped(indices, s.Total()), i);
    RearmAccounts(s, Capped(indices, s.Total()));
  }

  /** Chunk i has been acknowledged, or sent since t, or still looks timed out. */
  ghost predicate Armed(t: Sender, s: Sender, i: nat) {
    && t.sends <= s.sends && i < s.nextIndex
    && (i in s.acked || i in Since(t, s) || (i in s.sentAt && s.sentAt[i] == 0.0))
  }

  lemma ArmedStep(t: Sender, s: Sender, e: SenderEvent, i: nat)
    requires Valid(s) && Armed(t, s, i)
    ensures Armed(t, Handle(s, e), i)
  {
    hide SumAttempts, RearmAll, Capped, WellFormed, Covered, ChunkCount, InFlight, Window;
    var s' := Handle(s, e);
    match e
    case Loop(clock) =>
      LoopAppends(s, clock);
      assert Since(t, s') == Since(t, s) + s'.sends[|s.sends|..];
    case Nack(indices) =>
      OthersKeepPhase(s, e);
      if s.cached && s.registered { NackRearms(s, indices, i); }
    case Ack(_, _) => OthersKeepPhase(s, e);
    case CacheExpiry =>
  }

  /** A loop step changes the time of a chunk only by sending it. */
  lemma LoopAppends(s: Sender, clock: real)
    requires Valid(s)
    ensures var s' := LoopStep(s, clock);
            && s.sends <= s'.sends && s'.acked == s.acked && s.nextIndex <= s'.nextIndex
            && forall i :: i in s.sentAt && i !in s'.sends[|s.sends|..] ==>
                             i in s'.sentAt && s'.sentAt[i] == s.sentAt[i]
  {
    hide SumAttempts, InFlight, Window, ChunkCount;
    var s' := LoopStep(s, clock);
    match s.phase
    case Done(_) =>
    case Top =>
    case Retry(_, todo) =>
      if |s'.sends| > |s.sends| { assert s'.sends[|s.sends|..] == [todo[0].0]; }
    case Fill =>
      if |s'.sends| > |s.sends| { assert s'.sends[|s.sends|..] == [s.nextIndex]; }
  }

  lemma {:induction false} ArmedRun(t: Sender, events: seq<SenderEvent>, i: nat)
    requires Valid(t) && Armed(t, t, i)
    ensures Armed(t, HandleAll(t, events), i)
  {
    if events != [] {
      hide Valid, Armed, Handle;
      ArmedRun(t, events[..|events| - 1], i);
      ArmedStep(t, HandleAll(t, events[..|events| - 1]), events[|events| - 1], i);
    }
  }

  /**
   * A chunk that a NACK on an active transfer may act on has, by the end of the next retry pass that
   * the loop completes, been acknowledged or sent again since the NACK, whatever happens meanwhile.
   */
  lemma NackedIsResent(s: Sender, indices: seq<nat>, before: seq<SenderEvent>, pass: seq<SenderEvent>, i: nat)
    requires Valid(s) && s.cached && s.registered && i < s.nextIndex && i in Capped(indices, s.Total())
    requires Valid(OnNack(s, indices))
    requires var p := HandleAll(OnNack(s, indices), before);
             && BeginsPass(p) && p.phase.now >= CHUNK_ACK_TIMEOUT
             && StillRetrying(p, pass) && HandleAll(p, pass).phase == Fill
    ensures var t := OnNack(s, indices);
            var v := HandleAll(HandleAll(t, before), pass);
            i in v.acked || i in Since(t, v)
  {
    hide SumAttempts, Capped, ChunkCount, OnNack, Handle;
    var t := OnNack(s, indices);
    var p := HandleAll(t, before);
    var v := HandleAll(p, pass);
    NackRearms(s, indices, i);
    assert Armed(t, t, i);
    ArmedRun(t, before, i);
    PassResends(p, pass);
    SinceGrows(t, p, v);
    hide HandleAll;
    if i !in v.acked && i !in Since(t, p) {
      AckedGrows(p, pass);
      assert Due(p, i);
      assert i in Since(p, v);
    }
  }

  lemma SinceGrows(t: Sender, p: Sender, v: Sender)
    ensures t.sends <= p.sends <= v.sends ==> Since(t, v) == Since(t, p) + Since(p, v)
  {
  }

  lemma {:induction false} AckedGrows(s: Sender, events: seq<SenderEvent>)
    requires Valid(s)
    ensures s.acked <= HandleAll(s, events).acked && s.sends <= HandleAll(s, events).sends
  {
    if events != [] {
      hide Valid, LoopStep, OnAck, OnNack;
      var before, e := HandleAll(s, events[..|events| - 1]), events[|events| - 1];
      AckedGrows(s, events[..|events| - 1]);
      if e.Loop? { LoopAppends(before, e.clock); } else { OthersKeepPhase(before, e); }
    }
  }
}
