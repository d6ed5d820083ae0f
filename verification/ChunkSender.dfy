/**
 * The sender side of a chunked model transfer: the windowed send loop, retries with a
 * per-chunk attempt cap, SACK acknowledgements and NACK resets. The coroutine is cut into
 * steps at least as fine as its await points, so that acknowledgements and NACKs may fall
 * between any two of them.
 */
module ChunkSender {
  import opened Wrappers
  import opened Numerics
  import opened ChunkRanges
  import opened Chunking

  const CHUNK_SIZE := 768
  const CHUNK_TRANSFER_TIMEOUT := 900.0
  const CHUNK_WINDOW_INITIAL := 16
  const CHUNK_WINDOW_MAX := 128
  const CHUNK_ACK_TIMEOUT := 12.0
  const CHUNK_MAX_SEND_ATTEMPTS := 8
  const CHUNK_MAX_NACK_INDICES := 128

  /** Where the send loop stands. Retry holds the clock reading and the sent_at items still to visit. */
  datatype Phase =
    | Top
    | Retry(now: real, todo: seq<(nat, real)>)
    | Fill
    | Done(ok: bool)

  /**
   * An outgoing transfer. registered and cached say whether the transfer is still in
   * _active_outgoing_transfers and _outgoing_transfers. sends and nacks are history: the
   * chunk indices the loop has sent, in order, and the NACKs applied to the active transfer.
   */
  datatype Sender = Sender(
    weights: Bytes,
    createdAt: real,
    nextIndex: nat,
    acked: set<nat>,
    sentAt: map<nat, real>,
    attempts: map<nat, nat>,
    completed: bool,
    retryCount: nat,
    phase: Phase,
    registered: bool,
    cached: bool,
    sends: seq<nat>,
    nacks: nat)
  {
    function Total(): nat { ChunkCount(|weights|, CHUNK_SIZE) }

  }

  /** min(CHUNK_WINDOW_INITIAL, CHUNK_WINDOW_MAX, total) */
  function Window(total: nat): nat {
    var w := if CHUNK_WINDOW_INITIAL < CHUNK_WINDOW_MAX then CHUNK_WINDOW_INITIAL else CHUNK_WINDOW_MAX;
    if total < w then total else w
  }

  function Start(weights: Bytes, now: real): Sender {
    Sender(weights, now, 0, {}, map[], map[], false, 0, Top, true, true, [], 0)
  }

  /** Chunks below n that are neither acknowledged nor older than the ACK timeout. */
  function InFlight(s: Sender, now: real, n: nat): nat
    requires forall i :: 0 <= i < n ==> i in s.sentAt
  {
    if n == 0 then 0
    else InFlight(s, now, n - 1) + if n - 1 !in s.acked && now - s.sentAt[n - 1] < CHUNK_ACK_TIMEOUT then 1 else 0
  }

  /** sent_at.items() in insertion order. */
  function Items(sentAt: map<nat, real>, n: nat): (items: seq<(nat, real)>)
    requires forall i :: 0 <= i < n ==> i in sentAt
    ensures |items| == n && forall i :: 0 <= i < n ==> items[i].0 == i
  {
    seq(n, i requires 0 <= i < n => (i, sentAt[i]))
  }

  // ---- Invariant ----------------------------------------------------------------

  function SumAttempts(attempts: map<nat, nat>, n: nat): nat
    requires forall i :: 0 <= i < n ==> i in attempts
  {
    if n == 0 then 0 else SumAttempts(attempts, n - 1) + attempts[n - 1]
  }

  ghost predicate Known(keys: set<nat>, n: nat) { forall i: nat :: i in keys <==> i < n }

  ghost predicate Valid(s: Sender) {
    && s.nextIndex <= s.Total()
    && Known(s.sentAt.Keys, s.nextIndex) && Known(s.attempts.Keys, s.nextIndex)
    && (forall i :: i in s.attempts ==> s.attempts[i] <= CHUNK_MAX_SEND_ATTEMPTS)
    && (s.phase.Retry? ==> forall j :: 0 <= j < |s.phase.todo| ==> s.phase.todo[j].0 < s.nextIndex)
    && |s.sends| == s.nextIndex + s.retryCount
    && (forall i: nat :: i in s.sends <==> i < s.nextIndex)
    && |s.sends| <= SumAttempts(s.attempts, s.nextIndex) + CHUNK_MAX_SEND_ATTEMPTS * CHUNK_MAX_NACK_INDICES * s.nacks
    && (s.completed ==> |s.acked| >= s.Total())
    && (s.cached && !s.registered ==> s.phase.Done?)
    && (s.phase.Done? ==> !s.registered && s.phase.ok == s.completed)
  }

  lemma {:induction false} SumFrame(a: map<nat, nat>, b: map<nat, nat>, n: nat)
    requires forall i :: 0 <= i < n ==> i in a && i in b && a[i] == b[i]
    ensures SumAttempts(a, n) == SumAttempts(b, n)
  {
    if n > 0 { SumFrame(a, b, n - 1); }
  }

  /** Changing one entry changes the sum by the difference. */
  lemma {:induction false} SumUpdate(a: map<nat, nat>, n: nat, k: nat, v: nat)
    requires k < n && forall i :: 0 <= i < n ==> i in a
    ensures SumAttempts(a[k := v], n) == SumAttempts(a, n) - a[k] + v
  {
    if n - 1 == k {
      SumFrame(a, a[k := v], n - 1);
    } else {
      SumUpdate(a, n - 1, k, v);
    }
  }

  lemma {:induction false} SumBound(a: map<nat, nat>, n: nat)
    requires forall i :: 0 <= i < n ==> i in a && a[i] <= CHUNK_MAX_SEND_ATTEMPTS
    ensures SumAttempts(a, n) <= CHUNK_MAX_SEND_ATTEMPTS * n
  {
    if n > 0 { SumBound(a, n - 1); }
  }

  // ---- The send loop ------------------------------------------------------------

  /** Sending chunk i again, from the retry pass. */
  function Resend(s: Sender, i: nat, clock: real): (s': Sender)
    requires i in s.attempts && s.phase.Retry? && s.phase.todo != []
  {
    s.(sentAt := s.sentAt[i := clock],
       attempts := s.attempts[i := s.attempts[i] + 1],
       retryCount := s.retryCount + 1,
       sends := s.sends + [i],
       phase := Retry(s.phase.now, s.phase.todo[1..]))
  }

  function Get(attempts: map<nat, nat>, i: nat): nat { if i in attempts then attempts[i] else 0 }

  /** Sending the next chunk for the first time. */
  function SendNext(s: Sender, clock: real): (s': Sender) {
    var i := s.nextIndex;
    s.(sentAt := s.sentAt[i := clock],
       attempts := s.attempts[i := Get(s.attempts, i) + 1],
       nextIndex := i + 1,
       sends := s.sends + [i])
  }

  /** Leaving the loop: the transfer succeeded exactly if it was completed. */
  function Finish(s: Sender): Sender { s.(phase := Done(s.completed), registered := false) }

  /** One step of _send_chunked_model_update at clock reading clock. */
  function LoopStep(s: Sender, clock: real): (s': Sender)
    requires Valid(s)
  {
    match s.phase
    case Done(_) => s
    case Top =>
      if s.completed then Finish(s)
      else if clock - s.createdAt > CHUNK_TRANSFER_TIMEOUT then Finish(s)
      else s.(phase := Retry(clock, Items(s.sentAt, s.nextIndex)))
    case Retry(now, todo) =>
      if todo == [] then s.(phase := Fill)
      else
        var (i, at) := todo[0];
        if i in s.acked || now - at < CHUNK_ACK_TIMEOUT then s.(phase := Retry(now, todo[1..]))
        else if s.attempts[i] >= CHUNK_MAX_SEND_ATTEMPTS then Finish(s)
        else Resend(s, i, clock)
    case Fill =>
      if s.nextIndex < s.Total() && InFlight(s, clock, s.nextIndex) < Window(s.Total()) then SendNext(s, clock)
      else if |s.acked| >= s.Total() then Finish(s.(completed := true))
      else s.(phase := Top)
  }

  lemma ResendKeepsValid(s: Sender, clock: real)
    requires Valid(s) && s.phase.Retry? && s.phase.todo != []
    requires s.attempts[s.phase.todo[0].0] < CHUNK_MAX_SEND_ATTEMPTS
    ensures Valid(Resend(s, s.phase.todo[0].0, clock))
  {
    var i := s.phase.todo[0].0;
    SumUpdate(s.attempts, s.nextIndex, i, s.attempts[i] + 1);
  }

  lemma SendNextKeepsValid(s: Sender, clock: real)
    requires Valid(s) && s.phase == Fill && s.nextIndex < s.Total()
    ensures Valid(SendNext(s, clock))
  {
    SumFrame(s.attempts, SendNext(s, clock).attempts, s.nextIndex);
  }

  lemma LoopKeepsValid(s: Sender, clock: real)
    requires Valid(s)
    ensures Valid(LoopStep(s, clock))
  {
    hide SumAttempts;
    match s.phase
    case Done(_) =>
    case Top =>
    case Retry(now, todo) =>
      if todo != [] && todo[0].0 !in s.acked && now - todo[0].1 >= CHUNK_ACK_TIMEOUT
         && s.attempts[todo[0].0] < CHUNK_MAX_SEND_ATTEMPTS {
        ResendKeepsValid(s, clock);
      }
    case Fill =>
      if s.nextIndex < s.Total() && InFlight(s, clock, s.nextIndex) < Window(s.Total()) {
        SendNextKeepsValid(s, clock);
      }
  }

  // ---- Acknowledgements -----------------------------------------------------------

  /** on_chunk_ack: an unregistered transfer, another chunk count or a malformed payload is ignored. */
  ghost function OnAck(s: Sender, total: nat, sack: Bytes): (s': Sender) {
    if !s.registered || total != s.Total() || !WellFormed(sack, Some(s.Total())) then s
    else
      var acked := s.acked + Covered(RangesIn(sack));
      s.(acked := acked, completed := s.completed || |acked| >= s.Total())
  }

  /** What the receiver packs for a set of indices is accepted and adds exactly that set. */
  lemma AckMerges(s: Sender, indices: set<nat>)
    requires s.registered && s.Total() <= UINT32 && forall x :: x in indices ==> x < s.Total()
    ensures var s' := OnAck(s, s.Total(), Packed(indices));
            && s'.acked == s.acked + indices
            && (s'.completed <==> s.completed || |s.acked + indices| >= s.Total())
  {
    hide WellFormed, Covered, Packed;
    SackRoundTrip(indices, s.Total());
  }

  lemma AckKeepsValid(s: Sender, total: nat, sack: Bytes)
    requires Valid(s)
    ensures Valid(OnAck(s, total, sack))
  {
    SubsetCardinality(s.acked, s.acked + Covered(RangesIn(sack)));
  }

  // ---- NACKs ------------------------------------------------------------------------

  function Below(indices: seq<nat>, total: nat): (r: seq<nat>)
    ensures forall i :: 0 <= i < |r| ==> r[i] < total
  {
    if indices == [] then []
    else
      var rest := Below(indices[..|indices| - 1], total);
      if indices[|indices| - 1] < total then rest + [indices[|indices| - 1]] else rest
  }

  /** The indices a NACK may act on: in range, and at most 128 of them. */
  function Capped(indices: seq<nat>, total: nat): (r: seq<nat>)
    ensures |r| <= CHUNK_MAX_NACK_INDICES && forall i :: 0 <= i < |r| ==> r[i] < total
  {
    var valid := Below(indices, total);
    if |valid| > CHUNK_MAX_NACK_INDICES then valid[..CHUNK_MAX_NACK_INDICES] else valid
  }

  /** Re-arming one chunk: it looks timed out and has its attempts back. */
  function Rearm(s: Sender, i: nat): Sender {
    if i in s.acked || i !in s.sentAt then s
    else s.(sentAt := s.sentAt[i := 0.0], attempts := s.attempts[i := 0])
  }

  function RearmAll(s: Sender, indices: seq<nat>): Sender {
    if indices == [] then s else Rearm(RearmAll(s, indices[..|indices| - 1]), indices[|indices| - 1])
  }

  /** on_request_chunks while the transfer is active. */
  function OnNack(s: Sender, indices: seq<nat>): Sender {
    if !s.cached || !s.registered then s
    else RearmAll(s, Capped(indices, s.Total())).(nacks := s.nacks + 1)
  }

  /** on_request_chunks once the loop has ended: the chunks to send again from the cache. */
  function CachedResends(s: Sender, indices: seq<nat>): (r: seq<nat>)
    ensures forall i :: 0 <= i < |r| ==> r[i] < s.Total()
  {
    if s.cached && !s.registered then Capped(indices, s.Total()) else []
  }

  /** Re-arming k chunks leaves everything else alone and forgets at most 8 attempts each. */
  lemma {:induction false} RearmAccounts(s: Sender, indices: seq<nat>)
    requires Valid(s)
    ensures var r := RearmAll(s, indices);
            && r == s.(sentAt := r.sentAt, attempts := r.attempts)
            && r.sentAt.Keys == s.sentAt.Keys && r.attempts.Keys == s.attempts.Keys
            && (forall i :: i in r.attempts ==> r.attempts[i] <= CHUNK_MAX_SEND_ATTEMPTS)
            && SumAttempts(s.attempts, s.nextIndex)
               <= SumAttempts(r.attempts, s.nextIndex) + CHUNK_MAX_SEND_ATTEMPTS * |indices|
  {
    if indices != [] {
      var front, i := indices[..|indices| - 1], indices[|indices| - 1];
      RearmAccounts(s, front);
      var m := RearmAll(s, front);
      if i !in m.acked && i in m.sentAt {
        SumUpdate(m.attempts, s.nextIndex, i, 0);
        assert m.sentAt[i := 0.0].Keys == m.sentAt.Keys && m.attempts[i := 0].Keys == m.attempts.Keys;
      }
    }
  }

  lemma NackKeepsValid(s: Sender, indices: seq<nat>)
    requires Valid(s)
    ensures Valid(OnNack(s, indices))
  {
    hide SumAttempts, RearmAll, Capped;
    RearmAccounts(s, Capped(indices, s.Total()));
  }

  /** _cleanup_outgoing_cache drops the transfer from both registries. */
  function Forget(s: Sender): Sender { s.(registered := false, cached := false) }

  lemma ForgetKeepsValid(s: Sender)
    requires Valid(s)
    ensures Valid(Forget(s))
  {
  }

  // ---- Retransmission budget -----------------------------------------------------------

  /** Everything that can happen to an outgoing transfer, with arbitrary contents. */
  datatype SenderEvent =
    | Loop(clock: real)
    | Ack(total: nat, sack: Bytes)
    | Nack(indices: seq<nat>)
    | CacheExpiry

  ghost function Handle(s: Sender, e: SenderEvent): Sender
    requires Valid(s)
  {
    match e
    case Loop(clock) => LoopStep(s, clock)
    case Ack(total, sack) => OnAck(s, total, sack)
    case Nack(indices) => OnNack(s, indices)
    case CacheExpiry => Forget(s)
  }

  lemma HandleKeepsValid(s: Sender, e: SenderEvent)
    requires Valid(s)
    ensures Valid(Handle(s, e)) && Handle(s, e).weights == s.weights
  {
    hide Valid;
    match e
    case Loop(clock) => LoopKeepsValid(s, clock);
    case Ack(total, sack) => AckKeepsValid(s, total, sack);
    case Nack(indices) =>
      NackKeepsValid(s, indices);
      RearmAccounts(s, Capped(indices, s.Total()));
    case CacheExpiry => ForgetKeepsValid(s);
  }

  /** The state after a whole run of events. */
  ghost function RunSender(weights: Bytes, now: real, events: seq<SenderEvent>): (s: Sender)
    ensures Valid(s) && s.weights == weights
  {
    if events == [] then Start(weights, now)
    else
      var s := RunSender(weights, now, events[..|events| - 1]);
      HandleKeepsValid(s, events[|events| - 1]);
      Handle(s, events[|events| - 1])
  }

  /**
   * In every run, whatever acknowledgements, NACKs and clock readings occur: the chunks sent
   * are the first sends plus the retries, no chunk has used more than 8 attempts, and after
   * K handled NACKs at most 8 * (total + 128 * K) chunks were sent.
   */
  lemma RetransmissionBudget(weights: Bytes, now: real, events: seq<SenderEvent>)
    ensures var s := RunSender(weights, now, events);
            && |s.sends| == s.nextIndex + s.retryCount
            && (forall i :: i in s.attempts ==> s.attempts[i] <= CHUNK_MAX_SEND_ATTEMPTS)
            && |s.sends| <= CHUNK_MAX_SEND_ATTEMPTS * (s.Total() + CHUNK_MAX_NACK_INDICES * s.nacks)
  {
    var s := RunSender(weights, now, events);
    SumBound(s.attempts, s.nextIndex);
  }

  // ---- Cached resends ----------------------------------------------------------------

  lemma {:induction false} InFlightAtMost(s: Sender, now: real, n: nat)
    requires forall i :: 0 <= i < n ==> i in s.sentAt
    ensures InFlight(s, now, n) <= n
    ensures (forall i :: 0 <= i < n ==> i !in s.acked && now - s.sentAt[i] < CHUNK_ACK_TIMEOUT) ==>
        InFlight(s, now, n) == n
  {
    if n > 0 { InFlightAtMost(s, now, n - 1); }
  }

  /** A transfer that has sent its first j chunks at time zero and heard nothing yet. */
  ghost predicate Filled(s: Sender, j: nat) {
    && Valid(s) && s.phase == Fill && s.nextIndex == j && s.acked == {} && s.createdAt == 0.0 && s.cached
    && !s.completed && s.registered
    && forall i :: 0 <= i < j ==> i in s.sentAt && s.sentAt[i] == 0.0
  }

  lemma RunSnoc(weights: Bytes, es: seq<SenderEvent>, e: SenderEvent)
    ensures RunSender(weights, 0.0, es + [e]) == Handle(RunSender(weights, 0.0, es), e)
  {
    assert (es + [e])[..|es|] == es;
  }

  lemma FillOne(s: Sender, j: nat)
    requires Filled(s, j) && j < CHUNK_WINDOW_INITIAL < s.Total()
    ensures Filled(LoopStep(s, 0.0), j + 1)
  {
    hide SumAttempts, ChunkCount;
    LoopKeepsValid(s, 0.0);
    InFlightAtMost(s, 0.0, j);
  }

  lemma FirstPass(weights: Bytes)
    ensures Filled(LoopStep(LoopStep(Start(weights, 0.0), 0.0), 0.0), 0)
  {
    hide ChunkCount;
    LoopKeepsValid(Start(weights, 0.0), 0.0);
    LoopKeepsValid(LoopStep(Start(weights, 0.0), 0.0), 0.0);
  }

  ghost predicate OnlyLoops(es: seq<SenderEvent>) { forall n :: 0 <= n < |es| ==> es[n].Loop? }

  lemma FirstRun(weights: Bytes) returns (es: seq<SenderEvent>)
    ensures Filled(RunSender(weights, 0.0, es), 0) && OnlyLoops(es)
  {
    hide Filled, Valid, LoopStep;
    FirstPass(weights);
    var none: seq<SenderEvent> := [];
    assert RunSender(weights, 0.0, none) == Start(weights, 0.0);
    RunSnoc(weights, none, Loop(0.0));
    RunSnoc(weights, none + [Loop(0.0)], Loop(0.0));
    es := none + [Loop(0.0)] + [Loop(0.0)];
  }

  /** A fresh transfer fills its window of 16 chunks one by one. */
  lemma {:induction false} WindowFills(weights: Bytes, j: nat) returns (es: seq<SenderEvent>)
    requires j <= CHUNK_WINDOW_INITIAL < ChunkCount(|weights|, CHUNK_SIZE)
    ensures Filled(RunSender(weights, 0.0, es), j) && OnlyLoops(es)
  {
    if j == 0 {
      es := FirstRun(weights);
    } else {
      hide RunSender, Filled, LoopStep, ChunkCount;
      var before := WindowFills(weights, j - 1);
      FillOne(RunSender(weights, 0.0, before), j - 1);
      RunSnoc(weights, before, Loop(0.0));
      es := before + [Loop(0.0)];
    }
  }

  // ---- Sending everything -------------------------------------------------------------------

  /** A transfer that has sent its first j chunks, 13 seconds apart, and heard nothing yet. */
  ghost predicate Spread(s: Sender, j: nat) {
    && Valid(s) && s.phase == Fill && s.nextIndex == j && s.acked == {} && s.registered
    && forall i: nat :: i < j ==> i in s.sentAt && s.sentAt[i] == 13.0 * i as real
  }

  lemma FilledIsSpread(s: Sender)
    requires Filled(s, 0)
    ensures Spread(s, 0)
  {
  }

  lemma {:induction false} NoneInFlight(s: Sender, j: nat, n: nat)
    requires n <= j && forall i: nat :: i < j ==> i in s.sentAt && s.sentAt[i] == 13.0 * i as real
    ensures InFlight(s, 13.0 * j as real, n) == 0
  {
    if n > 0 { NoneInFlight(s, j, n - 1); }
  }

  lemma SpreadOne(s: Sender, j: nat)
    requires Spread(s, j) && j < s.Total()
    ensures Spread(LoopStep(s, 13.0 * j as real), j + 1)
  {
    hide SumAttempts, ChunkCount;
    LoopKeepsValid(s, 13.0 * j as real);
    NoneInFlight(s, j, j);
  }

  /** Without hearing anything, the loop can put every chunk on the wire in one go. */
  lemma {:induction false} CanSendAll(weights: Bytes, j: nat) returns (es: seq<SenderEvent>)
    requires j <= ChunkCount(|weights|, CHUNK_SIZE)
    ensures Spread(RunSender(weights, 0.0, es), j) && OnlyLoops(es)
  {
    hide RunSender, Spread, LoopStep, ChunkCount, Filled;
    if j == 0 {
      es := FirstRun(weights);
      FilledIsSpread(RunSender(weights, 0.0, es));
    } else {
      var before := CanSendAll(weights, j - 1);
      SpreadOne(RunSender(weights, 0.0, before), j - 1);
      var e := Loop(13.0 * (j - 1) as real);
      RunSnoc(weights, before, e);
      es := before + [e];
    }
  }

  /** With the window full and nothing acknowledged the loop goes round and then times out. */
  lemma GivesUp(s: Sender)
    requires Filled(s, CHUNK_WINDOW_INITIAL) && CHUNK_WINDOW_INITIAL < s.Total()
    ensures Valid(LoopStep(s, 0.0))
    ensures var g := LoopStep(LoopStep(s, 0.0), 1000.0);
            g.phase == Done(false) && g.nextIndex == CHUNK_WINDOW_INITIAL && g.cached && !g.registered
                && g.weights == s.weights
  {
    hide SumAttempts, ChunkCount;
    LoopKeepsValid(s, 0.0);
    InFlightAtMost(s, 0.0, CHUNK_WINDOW_INITIAL);
  }

  /** Every transfer of more than 16 chunks can stop at next_index 16 with its bytes still cached. */
  lemma LoopCanGiveUp(weights: Bytes) returns (events: seq<SenderEvent>)
    requires ChunkCount(|weights|, CHUNK_SIZE) > CHUNK_WINDOW_INITIAL
    ensures OnlyLoops(events)
    ensures var s := RunSender(weights, 0.0, events);
            s.phase == Done(false) && s.nextIndex == CHUNK_WINDOW_INITIAL && s.cached && !s.registered
  {
    hide RunSender, Filled, LoopStep, Valid, ChunkCount;
    var full := WindowFills(weights, CHUNK_WINDOW_INITIAL);
    GivesUp(RunSender(weights, 0.0, full));
    RunSnoc(weights, full, Loop(0.0));
    RunSnoc(weights, full + [Loop(0.0)], Loop(1000.0));
    events := full + [Loop(0.0)] + [Loop(1000.0)];
  }

  /** A NACK answered from the cache may have any chunk sent. */
  predicate CacheExposed(s: Sender) { s.cached && !s.registered && s.nextIndex < s.Total() }

  /**
   * NACKs, whatever they ask for, only ever have chunks resent that the loop has reached, if and
   * only if the transfer is active, or forgotten, or the loop has reached all of its chunks.
   */
  lemma ResendsStayBelowNextIndexIff(s: Sender)
    requires Valid(s)
    ensures (forall indices: seq<nat>, i: nat :: i in CachedResends(s, indices) ==> i < s.nextIndex)
            <==> s.registered || !s.cached || s.nextIndex == s.Total()
  {
    hide Capped, ChunkCount, SumAttempts;
    if CacheExposed(s) {
      SingleNack(s.nextIndex, s.Total());
      assert s.nextIndex in CachedResends(s, [s.nextIndex]);
    }
  }

  lemma SingleNack(i: nat, total: nat)
    requires i < total
    ensures Capped([i], total) == [i]
  {
    assert [i][..0] == [] && Below([], total) == [];
  }

  // ---- The transfer object -----------------------------------------------------------

  class OutgoingChunkTransfer {
    const weights: Bytes
    const createdAt: real
    var nextIndex: nat
    var acked: set<nat>
    var sentAt: map<nat, real>
    var attempts: map<nat, nat>
    var completed: bool
    var retryCount: nat
    var phase: Phase
    var registered: bool
    var cached: bool
    ghost var sends: seq<nat>
    ghost var nacks: nat

    ghost function View(): Sender
      reads this
    {
      Sender(weights, createdAt, nextIndex, acked, sentAt, attempts, completed, retryCount, phase, registered, cached,
          sends, nacks)
    }

    constructor (weights: Bytes, now: real)
      ensures View() == Start(weights, now) && Valid(View())
    {
      this.weights, createdAt := weights, now;
      nextIndex, acked, sentAt, attempts := 0, {}, map[], map[];
      completed, retryCount, phase, registered, cached := false, 0, Top, true, true;
      sends, nacks := [], 0;
    }

    method OnChunkAck(total: nat, sack: Bytes)
      requires Valid(View())
      modifies this`acked, this`completed
      ensures View() == OnAck(old(View()), total, sack) && Valid(View())
    {
      AckKeepsValid(View(), total, sack);
      var mine := ChunkCount(|weights|, CHUNK_SIZE);
      if !registered || total != mine { return; }
      var unpacked := UnpackChunkRanges(sack, Some(mine));
      if unpacked.Err? { return; }
      acked := acked + unpacked.value;
      if |acked| >= mine { completed := true; }
    }

    /** Re-arms chunks of an active transfer; otherwise lists the chunks to send from the cache. */
    method OnRequestChunks(indices: seq<nat>) returns (resend: seq<nat>)
      requires Valid(View())
      modifies this`sentAt, this`attempts, this`nacks
      ensures View() == OnNack(old(View()), indices) && Valid(View())
      ensures resend == CachedResends(old(View()), indices)
    {
      hide SumAttempts, Valid, Capped;
      NackKeepsValid(View(), indices);
      resend := [];
      if !cached { return; }
      var valid := Capped(indices, ChunkCount(|weights|, CHUNK_SIZE));
      if !registered { return valid; }
      ghost var before := View();
      for k := 0 to |valid|
        invariant View() == RearmAll(before, valid[..k]) && nacks == before.nacks
      {
        var index := valid[k];
        assert valid[..k + 1][..k] == valid[..k];
        if index !in acked && index in sentAt {
          sentAt := sentAt[index := 0.0];
          attempts := attempts[index := 0];
        }
      }
      assert valid[..|valid|] == valid;
      nacks := nacks + 1;
    }

    method InFlightCount(now: real) returns (count: nat)
      requires Valid(View())
      ensures count == InFlight(View(), now, nextIndex)
    {
      count := 0;
      for i := 0 to nextIndex
        invariant count == InFlight(View(), now, i)
      {
        if i !in acked && now - sentAt[i] < CHUNK_ACK_TIMEOUT { count := count + 1; }
      }
    }

    /** One visit of the retry pass. */
    method RetryStep(clock: real) returns (sent: Option<nat>)
      requires Valid(View()) && phase.Retry?
      modifies this
      ensures View() == LoopStep(old(View()), clock)
      ensures sends == old(sends) + if sent.Some? then [sent.value] else []
    {
      hide SumAttempts;
      sent := None;
      var now, todo := phase.now, phase.todo;
      if todo == [] {
        phase := Fill;
        return;
      }
      var (i, at) := todo[0];
      if i in acked || now - at < CHUNK_ACK_TIMEOUT {
        phase := Retry(now, todo[1..]);
      } else if attempts[i] >= CHUNK_MAX_SEND_ATTEMPTS {
        phase, registered := Done(completed), false;
      } else {
        sentAt, attempts := sentAt[i := clock], attempts[i := attempts[i] + 1];
        retryCount := retryCount + 1;
        sends := sends + [i];
        phase := Retry(now, todo[1..]);
        sent := Some(i);
      }
    }

    /** Puts the next chunk on the wire for the first time. */
    method SendFresh(clock: real)
      requires Valid(View()) && nextIndex < ChunkCount(|weights|, CHUNK_SIZE)
      modifies this`sentAt, this`attempts, this`nextIndex, this`sends
      ensures View() == SendNext(old(View()), clock) && sends == old(sends) + [old(nextIndex)]
    {
      hide SumAttempts, ChunkCount;
      sentAt, attempts := sentAt[nextIndex := clock], attempts[nextIndex := Get(attempts, nextIndex) + 1];
      sends := sends + [nextIndex];
      nextIndex := nextIndex + 1;
    }

    /** One visit of the window-filling loop and the completion test behind it. */
    method FillStep(clock: real) returns (sent: Option<nat>)
      requires Valid(View()) && phase == Fill
      modifies this
      ensures View() == LoopStep(old(View()), clock)
      ensures sends == old(sends) + if sent.Some? then [sent.value] else []
    {
      hide SumAttempts, InFlight, SendNext, ChunkCount, Window;
      sent := None;
      var total := ChunkCount(|weights|, CHUNK_SIZE);
      var inFlight := InFlightCount(clock);
      if nextIndex < total && inFlight < Window(total) {
        sent := Some(nextIndex);
        SendFresh(clock);
      } else if |acked| >= total {
        completed := true;
        phase, registered := Done(true), false;
      } else {
        phase := Top;
      }
    }

    /** One step of the send loop; returns the chunk put on the wire, if any. */
    method Step(clock: real) returns (sent: Option<nat>)
      requires Valid(View())
      modifies this
      ensures View() == LoopStep(old(View()), clock) && Valid(View())
      ensures sends == old(sends) + if sent.Some? then [sent.value] else []
    {
      hide SumAttempts;
      LoopKeepsValid(View(), clock);
      sent := None;
      match phase
      case Done(_) =>
      case Top =>
        if completed || clock - createdAt > CHUNK_TRANSFER_TIMEOUT {
          phase, registered := Done(completed), false;
        } else {
          phase := Retry(clock, Items(sentAt, nextIndex));
        }
      case Retry(_, _) =>
        sent := RetryStep(clock);
      case Fill =>
        sent := FillStep(clock);
    }
  }
}
